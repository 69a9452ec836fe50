/** Reference model of the retransmission index in pkg/rtc/sequencer.go.

    The model has no rings and no pointers: a log of the accepted pushes in order, and for
    every extended target number the last accepted call about it. */
module SequencerModel {
  import opened SeqNum
  import opened Wrappers

  datatype PacketMeta = PacketMeta(
    sourceSeqNo: uint16, targetSeqNo: uint16, timestamp: uint32,
    lastNack: uint32, nacked: int, layer: int)

  /** A push together with the extended number its target stands for */
  datatype Rec = Rec(ext: int, meta: PacketMeta)

  /** The last accepted call about a number */
  datatype Call = Pushed(n: nat) | Padding

  datatype Model = Model(
    started: bool, head: int, log: seq<Rec>, last: map<int, Call>, rtt: uint32,
    max: int, maxTrack: int)

  const DEFAULT_RTT := 70
  const IGNORE_RETRANSMISSION := 100

  function Empty(maxTrack: int, maxPadding: int): Model {
    Model(false, 0, [], map[], DEFAULT_RTT, maxTrack + maxPadding, maxTrack)
  }

  function ExtOf(q: Model, offSn: uint16): int {
    if q.started then Extend(q.head, offSn) else offSn
  }

  /** A call is accepted unless it repeats the head or lies max or more behind it. */
  predicate Accepts(q: Model, offSn: uint16) {
    q.started ==> var e := Extend(q.head, offSn); e != q.head && q.head - e < q.max
  }

  function Advance(q: Model, e: int, call: Call): Model {
    q.(started := true, head := if q.started then Max(q.head, e) else e, last := q.last[e := call])
  }

  function Push(q: Model, sn: uint16, offSn: uint16, timestamp: uint32, layer: int): Model {
    if Accepts(q, offSn) then
      var e := ExtOf(q, offSn);
      Advance(q, e, Pushed(|q.log|))
      .(log := q.log + [Rec(e, PacketMeta(sn, offSn, timestamp, 0, 0, layer))])
    else q
  }

  function PushPadding(q: Model, offSn: uint16): Model {
    if Accepts(q, offSn) then Advance(q, ExtOf(q, offSn), Padding) else q
  }

  /** The push a lookup of a target number finds: the last accepted call about the number was
      that push, the number is less than max behind the head, and fewer than maxTrack pushes
      were accepted since. */
  predicate Finds(q: Model, sn: uint16, n: nat) {
    var e := q.head - Sub16(q.head, sn);
    && q.started
    && q.head - e <= HALF16 && q.head - e < q.max
    && e in q.last && q.last[e] == Pushed(n)
    && |q.log| - n <= q.maxTrack
  }

  function Find(q: Model, sn: uint16): (r: Option<nat>)
    ensures forall n: nat :: r == Some(n) <==> Finds(q, sn, n)
  {
    var e := q.head - Sub16(q.head, sn);
    if e in q.last && q.last[e].Pushed? && Finds(q, sn, q.last[e].n) then Some(q.last[e].n) else None
  }

  // ------------------------------------------------------------------- nacks

  /** Milliseconds a record is protected after it was handed out */
  function Pause(rtt: uint32): nat {
    Min(IGNORE_RETRANSMISSION, (2 * rtt) % 0x1_0000_0000)
  }

  predicate Due(meta: PacketMeta, now: uint32, rtt: uint32) {
    meta.lastNack == 0 || Sub32(now, meta.lastNack) > Pause(rtt)
  }

  function Stamp(meta: PacketMeta, now: uint32): PacketMeta {
    meta.(nacked := (meta.nacked + 1) % 256, lastNack := now)
  }

  /** One requested number: the record handed out, if any */
  function Handed(q: Model, sn: uint16, now: uint32): Option<nat> {
    match Find(q, sn)
    case None => None
    case Some(n) => if n < |q.log| && Due(q.log[n].meta, now, q.rtt) then Some(n) else None
  }

  function StampAt(q: Model, n: nat, now: uint32): Model {
    if n < |q.log| then q.(log := q.log[n := Rec(q.log[n].ext, Stamp(q.log[n].meta, now))]) else q
  }

  function Request(q: Model, sn: uint16, now: uint32): Model {
    match Handed(q, sn, now)
    case None => q
    case Some(n) => StampAt(q, n, now)
  }

  /** A batch of requests, all at one time */
  function Requests(q: Model, sns: seq<uint16>, now: uint32): Model {
    if |sns| == 0 then q
    else Request(Requests(q, sns[..|sns| - 1], now), sns[|sns| - 1], now)
  }

  /** The records a batch hands out, in order */
  function HandedOut(q: Model, sns: seq<uint16>, now: uint32): seq<nat> {
    if |sns| == 0 then []
    else
      var before := HandedOut(q, sns[..|sns| - 1], now);
      match Handed(Requests(q, sns[..|sns| - 1], now), sns[|sns| - 1], now)
      case None => before
      case Some(n) => before + [n]
  }

  lemma {:induction false} RequestsKeepLog(q: Model, sns: seq<uint16>, now: uint32)
    ensures var q' := Requests(q, sns, now);
            && |q'.log| == |q.log| && q' == q.(log := q'.log)
            && forall n :: 0 <= n < |q.log| ==>
                 q'.log[n] == Rec(q.log[n].ext, q.log[n].meta.(lastNack := q'.log[n].meta.lastNack,
                                                               nacked := q'.log[n].meta.nacked))
  {
    if |sns| > 0 {
      RequestsKeepLog(q, sns[..|sns| - 1], now);
    }
  }

  function SetRtt(q: Model, rtt: uint32): Model {
    q.(rtt := if rtt == 0 then DEFAULT_RTT else rtt)
  }

  // --------------------------------------------------------------- invariant

  ghost predicate Inv(q: Model) {
    && 0 < q.maxTrack <= q.max
    && (!q.started ==> q.log == [] && q.last == map[])
    && (forall e :: e in q.last ==> e <= q.head)
    && (forall n :: 0 <= n < |q.log| ==>
          && q.log[n].ext in q.last && q.log[n].meta.targetSeqNo == Mod16(q.log[n].ext))
    && (forall e :: e in q.last && q.last[e].Pushed? ==>
          q.last[e].n < |q.log| && q.log[q.last[e].n].ext == e)
    // the last push of a number is the latest log entry for it
    && (forall e, n :: e in q.last && 0 <= n < |q.log| && q.log[n].ext == e && q.last[e].Pushed? ==> n <= q.last[e].n)
    // a later push is never half a cycle behind an earlier one
    && (forall k, n :: 0 <= k < n < |q.log| ==> q.log[n].ext > q.log[k].ext - HALF16)
  }

  lemma EmptyInv(maxTrack: int, maxPadding: int)
    requires maxTrack > 0 && maxPadding >= 0
    ensures Inv(Empty(maxTrack, maxPadding))
  {
  }

  lemma PushKeepsInv(q: Model, sn: uint16, offSn: uint16, timestamp: uint32, layer: int)
    requires Inv(q)
    ensures Inv(Push(q, sn, offSn, timestamp, layer))
  {
    if Accepts(q, offSn) {
      var e, q' := ExtOf(q, offSn), Push(q, sn, offSn, timestamp, layer);
      Mod16Near(offSn);
      hide Mod16;
      forall k, n | 0 <= k < n < |q'.log|
        ensures q'.log[n].ext > q'.log[k].ext - HALF16
      {
        if n == |q.log| {
          assert q.log[k].ext <= q.head;
        }
      }
    }
  }

  lemma PaddingKeepsInv(q: Model, offSn: uint16)
    requires Inv(q)
    ensures Inv(PushPadding(q, offSn))
  {
  }

  lemma RttKeepsInv(q: Model, rtt: uint32)
    requires Inv(q)
    ensures Inv(SetRtt(q, rtt)) && SetRtt(q, rtt) == q.(rtt := SetRtt(q, rtt).rtt)
  {
  }

  lemma StampKeepsInv(q: Model, n: nat, now: uint32)
    requires Inv(q)
    ensures Inv(StampAt(q, n, now))
  {
  }

  lemma RequestKeepsInv(q: Model, sn: uint16, now: uint32)
    requires Inv(q)
    ensures Inv(Request(q, sn, now))
  {
    if Handed(q, sn, now).Some? {
      StampKeepsInv(q, Handed(q, sn, now).value, now);
    }
  }

  lemma {:induction false} RequestsKeepInv(q: Model, sns: seq<uint16>, now: uint32)
    requires Inv(q)
    ensures Inv(Requests(q, sns, now))
  {
    if |sns| > 0 {
      RequestsKeepInv(q, sns[..|sns| - 1], now);
      RequestKeepsInv(Requests(q, sns[..|sns| - 1], now), sns[|sns| - 1], now);
    }
  }

  /** The record a lookup finds is the latest one pushed under that 16-bit number, and it
      carries that number. */
  lemma FindsLatest(q: Model, sn: uint16, n: nat)
    requires Inv(q) && Finds(q, sn, n)
    ensures n < |q.log| && q.log[n].meta.targetSeqNo == sn
    ensures forall k :: n < k < |q.log| ==> q.log[k].meta.targetSeqNo != sn
  {
    var e := q.head - Sub16(q.head, sn);
    BackToResidue(q.head, sn);
    forall k | n < k < |q.log| ensures q.log[k].meta.targetSeqNo != sn {
      StaleDiffers(q, e, n, k);
    }
  }

  lemma BackToResidue(head: int, sn: uint16)
    ensures Mod16(head - Sub16(head, sn)) == sn
  {
  }

  /** A record pushed after the last push of number e stands for another 16-bit number, as long
      as e is within half a cycle of the head. */
  lemma StaleDiffers(q: Model, e: int, n: nat, k: nat)
    requires Inv(q) && e in q.last && q.last[e] == Pushed(n) && n < k < |q.log|
    requires q.head - e <= HALF16
    ensures q.log[k].meta.targetSeqNo != Mod16(e)
  {
    assert q.log[n].ext == e && q.log[k].ext != e;
    assert e - HALF16 < q.log[k].ext <= q.head;
    if Mod16(q.log[k].ext) == Mod16(e) {
      SameResidue(q.log[k].ext, e);
    }
  }
}
