/** Reference model of the forwarding track in pkg/rtc/downtrack.go: keyframe gate, offset
    rewriting and replay of requested packets, as a function from operations to what the
    subscriber is sent. */
module ForwardingModel {
  import opened SeqNum
  import Q = SequencerModel
  import SequencerRuns
  import opened Wrappers

  datatype Source = Source(sn: uint16, ts: uint32, keyFrame: bool)

  /** What leaves the track; src is the publisher's number of the packet that is sent. */
  datatype Output =
    | Forwarded(src: uint16, sn: uint16, ts: uint32)
    | Resent(src: uint16, sn: uint16, ts: uint32)
    | PliRequest

  /** What becomes of a packet that is to be sent: rewriting its header may fail, and so may the
      write stream. */
  datatype Outcome = Sent | HeaderError | WriteError

  /** Outcome of reading a packet back from the publisher's buffer and sending it */
  datatype Fetch = EndOfFile | Missing | Malformed | Read(outcome: Outcome)

  datatype Track = Track(
    video: bool, bound: bool, enabled: bool, syncRequired: bool, started: bool,
    snOffset: uint16, tsOffset: uint32, lastSN: uint16, lastTS: uint32,
    index: Option<Q.Model>, sent: seq<Output>)

  const MAX_PADDING := 2000

  /** The state Bind leaves behind; only video tracks keep a retransmission index. */
  function Bound(video: bool, maxTrack: int): Track {
    Track(video, true, true, true, false, 0, 0, 0, 0,
          if video then Some(Q.Empty(maxTrack, MAX_PADDING)) else None, [])
  }

  /** The packet passes the gate: the track is live, and is in sync or is given a keyframe. */
  predicate Admits(t: Track, p: Source) {
    t.enabled && t.bound && !(t.syncRequired && t.video && !p.keyFrame)
  }

  /** A pending resync moves the offsets so that this packet follows the recorded last one. */
  function Synced(t: Track, p: Source): Track {
    if !t.syncRequired then t
    else if t.lastSN != 0 then
      t.(snOffset := Sub16(Sub16(p.sn, t.lastSN), 1), tsOffset := Sub32(Sub32(p.ts, t.lastTS), 1),
         syncRequired := false)
    else t.(syncRequired := false)
  }

  function OutSN(t: Track, p: Source): uint16 {
    Sub16(p.sn, Synced(t, p).snOffset)
  }

  function OutTS(t: Track, p: Source): uint32 {
    Sub32(p.ts, Synced(t, p).tsOffset)
  }

  /** The index takes the packet, and the very first one leaves its numbers for later resyncs. */
  function Recorded(t: Track, p: Source, sn: uint16, ts: uint32): Track {
    t.(index := if t.index.Some? then Some(Q.Push(t.index.value, p.sn, sn, ts, 0)) else None,
       lastSN := if t.started then t.lastSN else sn,
       lastTS := if t.started then t.lastTS else ts,
       started := true)
  }

  function Write(t: Track, p: Source, outcome: Outcome): Track {
    if !t.enabled || !t.bound then t
    else if !Admits(t, p) then t.(sent := t.sent + [PliRequest])
    else
      var sn, ts := OutSN(t, p), OutTS(t, p);
      var r := Recorded(Synced(t, p), p, sn, ts);
      r.(sent := if outcome == Sent then r.sent + [Forwarded(p.sn, sn, ts)] else r.sent)
  }

  /** Mute(true) on an enabled track disables it, Mute(false) on a disabled one enables it. */
  predicate Toggles(t: Track, val: bool) {
    t.enabled == val
  }

  function Mute(t: Track, val: bool): Track {
    if Toggles(t, val) then t.(enabled := !val, syncRequired := true) else t
  }

  function Unbind(t: Track): Track {
    t.(bound := false)
  }

  /** The packets resent for the records handed out, up to the end of the publisher's buffer */
  function Replay(records: seq<Q.PacketMeta>, fetch: uint16 -> Fetch): seq<Output> {
    if |records| == 0 || fetch(records[0].sourceSeqNo) == EndOfFile then []
    else
      var rest := Replay(records[1..], fetch);
      var r := records[0];
      if fetch(r.sourceSeqNo) == Read(Sent) then [Resent(r.sourceSeqNo, r.targetSeqNo, r.timestamp)] + rest else rest
  }

  /** The records a NACK hands out, as they stand after the batch */
  function RecordsFor(q: Q.Model, sns: seq<uint16>, now: uint32): seq<Q.PacketMeta> {
    var handed, q' := Q.HandedOut(q, sns, now), Q.Requests(q, sns, now);
    seq(|handed|, k requires 0 <= k < |handed| =>
      if handed[k] < |q'.log| then q'.log[handed[k]].meta else Q.PacketMeta(0, 0, 0, 0, 0, 0))
  }

  function Nack(t: Track, sns: seq<uint16>, now: uint32, fetch: uint16 -> Fetch): Track {
    match t.index
    case None => t
    case Some(q) =>
      t.(index := Some(Q.Requests(q, sns, now)), sent := t.sent + Replay(RecordsFor(q, sns, now), fetch))
  }

  function SetRtt(t: Track, rtt: uint32): Track {
    match t.index
    case None => t
    case Some(q) => t.(index := Some(Q.SetRtt(q, rtt)))
  }

  // ------------------------------------------------------------------- runs

  datatype Op =
    | DoWrite(p: Source, outcome: Outcome)
    | DoMute(val: bool)
    | DoNack(sns: seq<uint16>, now: uint32, fetch: uint16 -> Fetch)
    | DoRtt(rtt: uint32)
    | DoUnbind

  function Apply(t: Track, op: Op): Track {
    match op
    case DoWrite(p, outcome) => Write(t, p, outcome)
    case DoMute(val) => Mute(t, val)
    case DoNack(sns, now, fetch) => Nack(t, sns, now, fetch)
    case DoRtt(rtt) => SetRtt(t, rtt)
    case DoUnbind => Unbind(t)
  }

  function State(t: Track, ops: seq<Op>, i: nat): Track
    requires i <= |ops|
  {
    if i == 0 then t else Apply(State(t, ops, i - 1), ops[i - 1])
  }

  ghost predicate Inv(t: Track) {
    && (t.index.Some? <==> t.video)
    && (t.index.Some? ==> Q.Inv(t.index.value))
  }

  lemma ApplyKeepsInv(t: Track, op: Op)
    requires Inv(t)
    ensures Inv(Apply(t, op))
  {
    if t.index.Some? {
      var q := t.index.value;
      match op {
        case DoWrite(p, outcome) => Q.PushKeepsInv(q, p.sn, OutSN(t, p), OutTS(t, p), 0);
        case DoNack(sns, now, fetch) => Q.RequestsKeepInv(q, sns, now);
        case _ =>
      }
    }
  }

  lemma {:induction false} StateInv(t: Track, ops: seq<Op>, i: nat)
    requires Inv(t) && i <= |ops|
    ensures Inv(State(t, ops, i))
  {
    if i > 0 {
      StateInv(t, ops, i - 1);
      ApplyKeepsInv(State(t, ops, i - 1), ops[i - 1]);
    }
  }

  predicate AdmittedAt(t: Track, ops: seq<Op>, i: nat)
    requires i < |ops|
  {
    ops[i].DoWrite? && Admits(State(t, ops, i), ops[i].p)
  }

  predicate ToggledAt(t: Track, ops: seq<Op>, i: nat)
    requires i < |ops|
  {
    ops[i].DoMute? && Toggles(State(t, ops, i), ops[i].val)
  }

  // --------------------------------------------------------------- the gate

  lemma SyncStays(t: Track, op: Op)
    requires t.syncRequired && !(op.DoWrite? && Admits(t, op.p))
    ensures Apply(t, op).syncRequired && Apply(t, op).video == t.video
  {
  }

  lemma {:induction false} SyncStaysRequired(t: Track, ops: seq<Op>, i: nat, j: nat)
    requires i <= j <= |ops| && State(t, ops, i).syncRequired
    requires forall k :: i <= k < j ==> !AdmittedAt(t, ops, k)
    ensures State(t, ops, j).syncRequired && State(t, ops, j).video == State(t, ops, i).video
    decreases j
  {
    hide Apply;
    if i < j {
      SyncStaysRequired(t, ops, i, j - 1);
      assert !AdmittedAt(t, ops, j - 1);
      SyncStays(State(t, ops, j - 1), ops[j - 1]);
    }
  }

  /** On a video track, the first packet admitted after binding, or after any Mute call that took
      effect, is a keyframe. */
  lemma GateOpensOnKeyFrame(maxTrack: int, ops: seq<Op>, i: nat, j: nat)
    requires i <= j < |ops|
    requires i == 0 || ToggledAt(Bound(true, maxTrack), ops, i - 1)
    requires AdmittedAt(Bound(true, maxTrack), ops, j)
    requires forall k :: i <= k < j ==> !AdmittedAt(Bound(true, maxTrack), ops, k)
    ensures ops[j].p.keyFrame
  {
    var t := Bound(true, maxTrack);
    VideoStays(t, ops, i);
    SyncStaysRequired(t, ops, i, j);
  }

  lemma ApplyVideo(t: Track, op: Op)
    ensures Apply(t, op).video == t.video
  {
    hide Replay, RecordsFor, OutSN, OutTS;
  }

  lemma {:induction false} VideoStays(t: Track, ops: seq<Op>, i: nat)
    requires i <= |ops|
    ensures State(t, ops, i).video == t.video
  {
    if i > 0 {
      VideoStays(t, ops, i - 1);
      ApplyVideo(State(t, ops, i - 1), ops[i - 1]);
      hide Apply;
    }
  }

  /** The gate is on admission: when the admitted keyframe cannot be sent, because its header cannot
      be rewritten or because the write stream fails, the next packet goes out although it is not a
      keyframe. */
  lemma FailurePassesGate(maxTrack: int, failure: Outcome)
    requires failure != Sent
    ensures var key, delta := Source(1, 10, true), Source(2, 20, false);
            State(Bound(true, maxTrack), [DoWrite(key, failure), DoWrite(delta, Sent)], 2).sent
            == [Forwarded(2, 2, 20)]
  {
    var t, ops := Bound(true, maxTrack), [DoWrite(Source(1, 10, true), failure), DoWrite(Source(2, 20, false), Sent)];
    assert State(t, ops, 0) == t;
    var t1 := State(t, ops, 1);
    assert t1 == Write(t, Source(1, 10, true), failure);
    assert !t1.syncRequired && t1.snOffset == 0 && t1.tsOffset == 0 && t1.sent == [];
    assert State(t, ops, 2) == Write(t1, Source(2, 20, false), Sent);
  }

  /** Nor does it hold back what is resent: with a resync pending a NACK is answered with a packet
      that is no keyframe, while the track is muted and after. */
  lemma ReplayPassesGate(maxTrack: int, unmuted: bool)
    requires maxTrack > 1
    ensures var delta := Source(2, 20, false);
            var ops := [DoWrite(Source(1, 10, true), Sent), DoWrite(delta, Sent), DoMute(true)]
                       + (if unmuted then [DoMute(false)] else []);
            var t := State(Bound(true, maxTrack), ops, |ops|);
            && t.syncRequired && t.enabled == unmuted && !Admits(t, Source(3, 30, false))
            && Nack(t, [2], 1, _ => Read(Sent)).sent == t.sent + [Resent(2, 2, 20)]
  {
    hide Q.HandedOut, Q.Requests;
    var key, delta := Source(1, 10, true), Source(2, 20, false);
    var ops := [DoWrite(key, Sent), DoWrite(delta, Sent), DoMute(true)] + (if unmuted then [DoMute(false)] else []);
    var t := Bound(true, maxTrack);
    assert State(t, ops, 0) == t;
    var t1, t2 := State(t, ops, 1), State(t, ops, 2);
    assert t1 == Write(t, key, Sent);
    assert t2 == Write(t1, delta, Sent);
    assert State(t, ops, 3) == Mute(t2, true);
    assert unmuted ==> State(t, ops, 4) == Mute(Mute(t2, true), false);
    var q := t2.index.value;
    TwoPushes(maxTrack, q);
    var t4 := State(t, ops, |ops|);
    assert t4.index == Some(q);
    var records := RecordsFor(q, [2], 1);
    RecordsLength(q, [2], 1);
    RecordFor(q, [2], 1, 0);
    assert records == [records[0]] && records[1..] == [];
    assert Replay([], _ => Read(Sent)) == [];
  }

  lemma TwoPushes(maxTrack: int, q: Q.Model)
    requires maxTrack > 1
    requires q == Q.Push(Q.Push(Q.Empty(maxTrack, MAX_PADDING), 1, 1, 10, 0), 2, 2, 20, 0)
    ensures |q.log| == 2 && q.log[1].meta == Q.PacketMeta(2, 2, 20, 0, 0, 0)
    ensures Q.HandedOut(q, [2], 1) == [1]
  {
    var q1 := Q.Push(Q.Empty(maxTrack, MAX_PADDING), 1, 1, 10, 0);
    assert Extend(1, 2) == 2;
    assert q1.head == 1 && q.head == 2;
    assert Q.Finds(q, 2, 1);
    assert Q.Find(q, 2) == Some(1);
    assert Q.Handed(q, 2, 1) == Some(1);
    assert [2][..0] == [];
    assert Q.Requests(q, [], 1) == q && Q.HandedOut(q, [], 1) == [];
  }

  /** A packet on the wire, as opposed to a request to the publisher */
  predicate IsMedia(o: Output) {
    o.Forwarded? || o.Resent?
  }

  /** Operation k puts a packet on the wire. */
  ghost predicate MediaAt(t: Track, ops: seq<Op>, k: nat)
    requires k < |ops|
  {
    var before, after := State(t, ops, k).sent, State(t, ops, k + 1).sent;
    exists n :: |before| <= n < |after| && IsMedia(after[n])
  }

  /** The first packet on the wire from operation i on, if any, is a keyframe that is forwarded. */
  ghost predicate OpensOnKeyFrame(t: Track, ops: seq<Op>, i: nat) {
    forall k :: i <= k < |ops| && MediaAt(t, ops, k) && (forall l :: i <= l < k ==> !MediaAt(t, ops, l)) ==>
      ops[k].DoWrite? && ops[k].p.keyFrame
  }

  /** The NACK replays nothing. */
  predicate Quiet(t: Track, op: Op)
    requires op.DoNack?
  {
    t.index.Some? ==> Replay(RecordsFor(t.index.value, op.sns, op.now), op.fetch) == []
  }

  /** That is so exactly when no record handed out can be read and sent before the publisher's
      buffer ends. */
  lemma QuietExact(q: Q.Model, sns: seq<uint16>, now: uint32, fetch: uint16 -> Fetch)
    ensures var handed := Q.HandedOut(q, sns, now);
            && (forall k :: 0 <= k < |handed| ==> handed[k] < |q.log|)
            && (Replay(RecordsFor(q, sns, now), fetch) == [] <==>
                forall i :: 0 <= i < |handed| && fetch(q.log[handed[i]].meta.sourceSeqNo) == Read(Sent) ==>
                  exists k :: 0 <= k < i && fetch(q.log[handed[k]].meta.sourceSeqNo) == EndOfFile)
  {
    hide Q.HandedOut, RecordsFor, Replay;
    var handed, records := Q.HandedOut(q, sns, now), RecordsFor(q, sns, now);
    RecordsLength(q, sns, now);
    forall k | 0 <= k < |handed|
      ensures handed[k] < |q.log| && SameNumbers(records[k], q.log[handed[k]].meta)
    {
      RecordFor(q, sns, now, k);
    }
    if Replay(records, fetch) == [] {
      forall i | 0 <= i < |handed| && fetch(q.log[handed[i]].meta.sourceSeqNo) == Read(Sent)
        ensures exists k :: 0 <= k < i && fetch(q.log[handed[k]].meta.sourceSeqNo) == EndOfFile
      {
        if forall k :: 0 <= k < i ==> fetch(q.log[handed[k]].meta.sourceSeqNo) != EndOfFile {
          ReplayComplete(records, fetch, i);
          assert false;
        }
      }
    } else {
      var i := ReplayBefore(records, fetch);
    }
  }

  lemma RecordsLength(q: Q.Model, sns: seq<uint16>, now: uint32)
    ensures |RecordsFor(q, sns, now)| == |Q.HandedOut(q, sns, now)|
  {
  }

  /** A replay that sends anything reads a record that can be sent before the buffer ends. */
  lemma {:induction false} ReplayBefore(records: seq<Q.PacketMeta>, fetch: uint16 -> Fetch) returns (i: nat)
    requires Replay(records, fetch) != []
    ensures i < |records| && fetch(records[i].sourceSeqNo) == Read(Sent)
    ensures forall k :: 0 <= k < i ==> fetch(records[k].sourceSeqNo) != EndOfFile
  {
    if fetch(records[0].sourceSeqNo) == Read(Sent) {
      i := 0;
    } else {
      i := ReplayBefore(records[1..], fetch);
      i := i + 1;
    }
  }

  /** What puts a packet on the wire: admission and sending, or a NACK, whatever the gate. */
  predicate Emits(t: Track, op: Op) {
    match op
    case DoWrite(p, outcome) => Admits(t, p) && outcome == Sent
    case DoNack(_, _, _) => !Quiet(t, op)
    case _ => false
  }

  lemma MediaExact(t: Track, ops: seq<Op>, k: nat)
    requires k < |ops|
    ensures MediaAt(t, ops, k) <==> Emits(State(t, ops, k), ops[k])
  {
    var s, op := State(t, ops, k), ops[k];
    assert State(t, ops, k + 1) == Apply(s, op);
    hide State, Synced, OutSN, OutTS, Recorded, RecordsFor, Replay;
    if op.DoNack? && s.index.Some? {
      ReplayIsMedia(RecordsFor(s.index.value, op.sns, op.now), op.fetch);
      var out := Replay(RecordsFor(s.index.value, op.sns, op.now), op.fetch);
      assert Apply(s, op).sent == s.sent + out;
      assert out != [] ==> IsMedia((s.sent + out)[|s.sent|]);
    } else if op.DoWrite? && Admits(s, op.p) {
      RecordedSent(s, op.p);
      assert op.outcome == Sent ==> IsMedia(Apply(s, op).sent[|s.sent|]);
    }
  }

  lemma RecordedSent(t: Track, p: Source)
    ensures Recorded(Synced(t, p), p, OutSN(t, p), OutTS(t, p)).sent == t.sent
  {
  }

  lemma {:induction false} ReplayIsMedia(records: seq<Q.PacketMeta>, fetch: uint16 -> Fetch)
    ensures forall o :: o in Replay(records, fetch) ==> IsMedia(o)
  {
    if |records| > 0 {
      ReplayIsMedia(records[1..], fetch);
    }
  }

  lemma {:induction false} FirstMedia(t: Track, ops: seq<Op>, i: nat, k: nat) returns (m: nat)
    requires i <= k < |ops| && MediaAt(t, ops, k)
    ensures i <= m <= k && MediaAt(t, ops, m) && forall l :: i <= l < m ==> !MediaAt(t, ops, l)
    decreases k
  {
    hide MediaAt;
    if l :| i <= l < k && MediaAt(t, ops, l) {
      m := FirstMedia(t, ops, i, l);
    } else {
      m := k;
    }
  }

  lemma {:induction false} StatePrefix(t: Track, ops: seq<Op>, more: seq<Op>, i: nat)
    requires i <= |ops|
    ensures State(t, ops + more, i) == State(t, ops, i)
  {
    if i > 0 {
      StatePrefix(t, ops, more, i - 1);
      assert (ops + more)[i - 1] == ops[i - 1];
    }
  }

  /** No NACK from operation i up to j replays anything. */
  ghost predicate QuietBetween(t: Track, ops: seq<Op>, i: nat, j: nat)
    requires j <= |ops|
  {
    forall k :: i <= k < j && ops[k].DoNack? ==> Quiet(State(t, ops, k), ops[k])
  }

  /** While a resync is pending, a keyframe is the first packet on the wire, whatever comes next,
      exactly when every NACK until the first admitted packet is quiet and that packet is sent. */
  lemma GateExact(maxTrack: int, ops: seq<Op>, i: nat)
    requires i < |ops|
    requires i == 0 || ToggledAt(Bound(true, maxTrack), ops, i - 1)
    requires AdmittedAt(Bound(true, maxTrack), ops, |ops| - 1)
    requires forall k :: i <= k < |ops| - 1 ==> !AdmittedAt(Bound(true, maxTrack), ops, k)
    ensures ops[|ops| - 1].outcome == Sent && QuietBetween(Bound(true, maxTrack), ops, i, |ops| - 1) <==>
            forall p :: OpensOnKeyFrame(Bound(true, maxTrack), ops + [DoWrite(p, Sent)], i)
  {
    var t, j := Bound(true, maxTrack), |ops| - 1;
    GateOpensOnKeyFrame(maxTrack, ops, i, j);
    hide OpensOnKeyFrame, AdmittedAt, ToggledAt, QuietBetween;
    forall p
      ensures OpensOnKeyFrame(t, ops + [DoWrite(p, Sent)], i) <==>
              QuietBetween(t, ops, i, j) && (ops[j].outcome == Sent || p.keyFrame)
    {
      NextOpens(t, ops, i, p);
    }
    assert OpensOnKeyFrame(t, ops + [DoWrite(Source(0, 0, false), Sent)], i) <==>
           QuietBetween(t, ops, i, j) && ops[j].outcome == Sent;
  }

  lemma NextOpens(t: Track, ops: seq<Op>, i: nat, p: Source)
    requires i < |ops| && AdmittedAt(t, ops, |ops| - 1) && ops[|ops| - 1].p.keyFrame
    requires forall k :: i <= k < |ops| - 1 ==> !AdmittedAt(t, ops, k)
    ensures OpensOnKeyFrame(t, ops + [DoWrite(p, Sent)], i) <==>
            QuietBetween(t, ops, i, |ops| - 1) && (ops[|ops| - 1].outcome == Sent || p.keyFrame)
  {
    hide MediaAt, OpensOnKeyFrame, State, Quiet, Admits;
    var j, ops' := |ops| - 1, ops + [DoWrite(p, Sent)];
    NextMedia(t, ops, i, p);
    if k :| i <= k < j && ops[k].DoNack? && !Quiet(State(t, ops, k), ops[k]) {
      var m := FirstMedia(t, ops', i, k);
      FirstDecides(t, ops', i, m);
      assert ops'[m] == ops[m];
    } else {
      FirstDecides(t, ops', i, if ops[j].outcome == Sent then j else j + 1);
    }
  }

  lemma FirstDecides(t: Track, ops: seq<Op>, i: nat, m: nat)
    requires i <= m < |ops| && MediaAt(t, ops, m) && forall l :: i <= l < m ==> !MediaAt(t, ops, l)
    ensures OpensOnKeyFrame(t, ops, i) <==> ops[m].DoWrite? && ops[m].p.keyFrame
  {
    hide MediaAt;
  }

  /** Which operations of such a run put a packet on the wire */
  lemma NextMedia(t: Track, ops: seq<Op>, i: nat, p: Source)
    requires i < |ops| && AdmittedAt(t, ops, |ops| - 1)
    requires forall k :: i <= k < |ops| - 1 ==> !AdmittedAt(t, ops, k)
    ensures var j, ops' := |ops| - 1, ops + [DoWrite(p, Sent)];
            && (forall k :: i <= k < j ==>
                  (MediaAt(t, ops', k) <==> ops[k].DoNack? && !Quiet(State(t, ops, k), ops[k])))
            && (MediaAt(t, ops', j) <==> ops[j].outcome == Sent)
            && MediaAt(t, ops', j + 1)
  {
    hide MediaAt, Write, Quiet, Mute, Nack, SetRtt, Unbind;
    var j, ops' := |ops| - 1, ops + [DoWrite(p, Sent)];
    var s := State(t, ops, j);
    assert State(t, ops, j + 1) == Write(s, ops[j].p, ops[j].outcome);
    AdmittedSyncs(s, ops[j].p, ops[j].outcome);
    StaysLive(s, ops[j].p, ops[j].outcome);
    hide State;
    forall k | i <= k <= |ops|
      ensures State(t, ops', k) == State(t, ops, k) && (MediaAt(t, ops', k) <==> Emits(State(t, ops, k), ops'[k]))
      ensures k < |ops| ==> ops'[k] == ops[k]
    {
      StatePrefix(t, ops, [DoWrite(p, Sent)], k);
      MediaExact(t, ops', k);
    }
    forall k | i <= k < j
      ensures MediaAt(t, ops', k) <==> ops[k].DoNack? && !Quiet(State(t, ops, k), ops[k])
    {
      assert !AdmittedAt(t, ops, k);
    }
  }

  lemma StaysLive(t: Track, p: Source, outcome: Outcome)
    requires Admits(t, p)
    ensures Write(t, p, outcome).enabled && Write(t, p, outcome).bound
  {
  }

  // ----------------------------------------------------------------- offsets

  lemma AdmittedSyncs(t: Track, p: Source, outcome: Outcome)
    requires Admits(t, p)
    ensures var s, t' := Synced(t, p), Write(t, p, outcome);
            !t'.syncRequired && t'.snOffset == s.snOffset && t'.tsOffset == s.tsOffset
  {
  }

  lemma OffsetStays(t: Track, op: Op)
    requires !t.syncRequired && !(op.DoMute? && Toggles(t, op.val))
    ensures var t' := Apply(t, op); !t'.syncRequired && t'.snOffset == t.snOffset && t'.tsOffset == t.tsOffset
  {
  }

  lemma {:induction false} OffsetsStay(t: Track, ops: seq<Op>, i: nat, j: nat)
    requires i < j <= |ops| && AdmittedAt(t, ops, i)
    requires forall k :: i < k < j ==> !ToggledAt(t, ops, k)
    ensures var s := Synced(State(t, ops, i), ops[i].p);
            var s' := State(t, ops, j);
            !s'.syncRequired && s'.snOffset == s.snOffset && s'.tsOffset == s.tsOffset
    decreases j
  {
    hide Write, Mute, Nack, SetRtt, Unbind, Admits, Synced;
    if i < j - 1 {
      OffsetsStay(t, ops, i, j - 1);
      assert !ToggledAt(t, ops, j - 1);
      OffsetStays(State(t, ops, j - 1), ops[j - 1]);
    } else {
      AdmittedSyncs(State(t, ops, i), ops[i].p, ops[i].outcome);
    }
  }

  /** Between two resyncs numbers and timestamps keep the distances they have at the source. */
  lemma DistancesKept(t: Track, ops: seq<Op>, i: nat, j: nat)
    requires i < j < |ops| && AdmittedAt(t, ops, i) && AdmittedAt(t, ops, j)
    requires forall k :: i < k < j ==> !ToggledAt(t, ops, k)
    ensures var a, b := State(t, ops, i), State(t, ops, j);
            && Sub16(OutSN(b, ops[j].p), OutSN(a, ops[i].p)) == Sub16(ops[j].p.sn, ops[i].p.sn)
            && Sub32(OutTS(b, ops[j].p), OutTS(a, ops[i].p)) == Sub32(ops[j].p.ts, ops[i].p.ts)
  {
    OffsetsStay(t, ops, i, j);
    var s := Synced(State(t, ops, i), ops[i].p);
    hide Sub16, Sub32, Synced, State;
    CommonOffset16(ops[j].p.sn, ops[i].p.sn, s.snOffset);
    CommonOffset32(ops[j].p.ts, ops[i].p.ts, s.tsOffset);
  }

  lemma StartedStays(t: Track, op: Op)
    requires t.started
    ensures Apply(t, op).started && Apply(t, op).lastSN == t.lastSN && Apply(t, op).lastTS == t.lastTS
  {
  }

  /** The recorded last number and timestamp are those of the first packet admitted, for good. */
  lemma {:induction false} FirstKept(t: Track, ops: seq<Op>, k: nat, i: nat)
    requires k < i <= |ops| && AdmittedAt(t, ops, k) && !State(t, ops, k).started
    ensures State(t, ops, i).started
    ensures State(t, ops, i).lastSN == OutSN(State(t, ops, k), ops[k].p)
    ensures State(t, ops, i).lastTS == OutTS(State(t, ops, k), ops[k].p)
    decreases i
  {
    if k < i - 1 {
      FirstKept(t, ops, k, i - 1);
      StartedStays(State(t, ops, i - 1), ops[i - 1]);
    }
  }

  /** Offsets move only after a packet was recorded under another number than 0. */
  ghost predicate OffsetsFollow(t: Track) {
    && (!t.started ==> t.lastSN == 0)
    && (t.lastSN == 0 ==> t.snOffset == 0 && t.tsOffset == 0)
  }

  lemma {:induction false} StateOffsets(t: Track, ops: seq<Op>, i: nat)
    requires OffsetsFollow(t) && i <= |ops|
    ensures OffsetsFollow(State(t, ops, i))
  {
    if i > 0 {
      StateOffsets(t, ops, i - 1);
      ApplyOffsets(State(t, ops, i - 1), ops[i - 1]);
    }
  }

  lemma ApplyOffsets(t: Track, op: Op)
    requires OffsetsFollow(t)
    ensures OffsetsFollow(Apply(t, op))
  {
    hide Sub16, Sub32;
    WithoutOffset(if op.DoWrite? then op.p else Source(0, 0, false));
  }

  lemma WithoutOffset(p: Source)
    ensures Sub16(p.sn, 0) == p.sn && Sub32(p.ts, 0) == p.ts
  {
  }

  /** So the first packet after every effective Mute call gets the numbers that follow those of
      the very first packet k, not those of the last one sent: k itself went out with its own
      numbers. Only when its number was 0 do both offsets stay 0. */
  lemma ResyncRestarts(video: bool, maxTrack: int, ops: seq<Op>, k: nat, m: nat, j: nat)
    requires k < m < j < |ops| && AdmittedAt(Bound(video, maxTrack), ops, k)
    requires !State(Bound(video, maxTrack), ops, k).started
    requires ToggledAt(Bound(video, maxTrack), ops, m) && AdmittedAt(Bound(video, maxTrack), ops, j)
    requires forall l :: m < l < j ==> !AdmittedAt(Bound(video, maxTrack), ops, l)
    ensures var s, first, p := State(Bound(video, maxTrack), ops, j), ops[k].p, ops[j].p;
            if first.sn != 0 then OutSN(s, p) == Add16(first.sn, 1) && OutTS(s, p) == Add32(first.ts, 1)
            else OutSN(s, p) == p.sn && OutTS(s, p) == p.ts
  {
    var t := Bound(video, maxTrack);
    FirstKept(t, ops, k, j);
    SyncStaysRequired(t, ops, m + 1, j);
    StateOffsets(t, ops, k);
    StateOffsets(t, ops, j);
    WithoutOffset(ops[k].p);
    WithoutOffset(ops[j].p);
    hide State;
    Follows16(ops[j].p.sn, ops[k].p.sn);
    Follows32(ops[j].p.ts, ops[k].p.ts);
    hide Sub16, Sub32, Add16, Add32;
  }

  lemma Follows16(a: uint16, b: uint16)
    ensures Sub16(a, Sub16(Sub16(a, b), 1)) == Add16(b, 1)
  {
  }

  lemma Follows32(a: uint32, b: uint32)
    ensures Sub32(a, Sub32(Sub32(a, b), 1)) == Add32(b, 1)
  {
  }

  lemma CommonOffset16(a: int, b: int, c: int)
    ensures Sub16(Sub16(a, c), Sub16(b, c)) == Sub16(a, b)
  {
  }

  lemma CommonOffset32(a: int, b: int, c: int)
    ensures Sub32(Sub32(a, c), Sub32(b, c)) == Sub32(a, b)
  {
  }

  // ----------------------------------------------------------- retransmission

  /** Packet i was admitted and recorded in the index. */
  predicate RecordedAt(t: Track, ops: seq<Op>, i: nat)
    requires i < |ops|
  {
    var s := State(t, ops, i);
    AdmittedAt(t, ops, i) && s.index.Some? && Q.Accepts(s.index.value, OutSN(s, ops[i].p))
  }

  function LogSize(t: Track): nat {
    if t.index.Some? then |t.index.value.log| else 0
  }

  /** The record r is the one packet k left. */
  ghost predicate IsRecordOf(t: Track, ops: seq<Op>, k: nat, r: Q.PacketMeta)
    requires k < |ops|
  {
    var s := State(t, ops, k);
    && RecordedAt(t, ops, k)
    && r.sourceSeqNo == ops[k].p.sn && r.targetSeqNo == OutSN(s, ops[k].p) && r.timestamp == OutTS(s, ops[k].p)
  }

  /** Every recorded packet has its own log entry, in order of recording. */
  lemma {:induction false} RecordsLogged(t: Track, ops: seq<Op>, i: nat, k: nat)
    requires k < i <= |ops| && RecordedAt(t, ops, k)
    ensures var n, s := LogSize(State(t, ops, k)), State(t, ops, i);
            s.index.Some? && n < LogSize(s) && IsRecordOf(t, ops, k, s.index.value.log[n].meta)
    decreases i
  {
    if k < i - 1 {
      RecordsLogged(t, ops, i - 1, k);
      ApplyKeepsLog(State(t, ops, i - 1), ops[i - 1]);
    }
  }

  /** Operations only append to the log, apart from stamping NACK times. */
  lemma ApplyKeepsLog(t: Track, op: Op)
    ensures var t' := Apply(t, op);
            && t'.index.Some? == t.index.Some? && LogSize(t) <= LogSize(t')
            && (LogSize(t') == LogSize(t) ||
                (&& op.DoWrite? && Admits(t, op.p) && Q.Accepts(t.index.value, OutSN(t, op.p))
                 && LogSize(t') == LogSize(t) + 1))
            && forall n :: 0 <= n < LogSize(t) ==>
                 var r, r' := t.index.value.log[n].meta, t'.index.value.log[n].meta;
                 r'.sourceSeqNo == r.sourceSeqNo && r'.targetSeqNo == r.targetSeqNo && r'.timestamp == r.timestamp
  {
    hide Q.Requests, Replay, RecordsFor, Sub16, Sub32, Extend;
    if t.index.Some? && op.DoNack? {
      Q.RequestsKeepLog(t.index.value, op.sns, op.now);
    }
  }

  /** Every log entry comes from a recorded packet. */
  lemma {:induction false} LogOrigin(t: Track, ops: seq<Op>, i: nat, n: nat) returns (k: nat)
    requires i <= |ops| && LogSize(t) <= n < LogSize(State(t, ops, i))
    ensures k < i && RecordedAt(t, ops, k) && LogSize(State(t, ops, k)) == n
    decreases i
  {
    ApplyKeepsLog(State(t, ops, i - 1), ops[i - 1]);
    if n < LogSize(State(t, ops, i - 1)) {
      k := LogOrigin(t, ops, i - 1, n);
    } else {
      k := i - 1;
    }
  }

  lemma {:induction false} LogGrows(t: Track, ops: seq<Op>, i: nat, j: nat)
    requires i <= j <= |ops|
    ensures LogSize(State(t, ops, i)) <= LogSize(State(t, ops, j))
    decreases j
  {
    if i < j {
      LogGrows(t, ops, i, j - 1);
      ApplyKeepsLog(State(t, ops, j - 1), ops[j - 1]);
    }
  }

  lemma {:induction false} ReplaySound(records: seq<Q.PacketMeta>, fetch: uint16 -> Fetch, out: Output)
    returns (i: nat)
    requires out in Replay(records, fetch)
    ensures i < |records| && fetch(records[i].sourceSeqNo) == Read(Sent)
    ensures out == Resent(records[i].sourceSeqNo, records[i].targetSeqNo, records[i].timestamp)
  {
    var r := records[0];
    if out == Resent(r.sourceSeqNo, r.targetSeqNo, r.timestamp) && fetch(r.sourceSeqNo) == Read(Sent) {
      i := 0;
    } else {
      i := ReplaySound(records[1..], fetch, out);
      i := i + 1;
    }
  }

  /** Nor is one forgotten that can be read and sent before the publisher's buffer ends. */
  lemma {:induction false} ReplayComplete(records: seq<Q.PacketMeta>, fetch: uint16 -> Fetch, i: nat)
    requires i < |records| && fetch(records[i].sourceSeqNo) == Read(Sent)
    requires forall k :: 0 <= k < i ==> fetch(records[k].sourceSeqNo) != EndOfFile
    ensures Resent(records[i].sourceSeqNo, records[i].targetSeqNo, records[i].timestamp) in Replay(records, fetch)
  {
    if i > 0 {
      ReplayComplete(records[1..], fetch, i - 1);
    }
  }

  /** Order and number of the packets resent: each record adds its packet at the end, if it can be read
      and sent and no record before it met the end of the buffer. */
  lemma {:induction false} ReplaySnoc(records: seq<Q.PacketMeta>, r: Q.PacketMeta, fetch: uint16 -> Fetch)
    ensures Replay([], fetch) == []
    ensures var ended := exists k :: 0 <= k < |records| && fetch(records[k].sourceSeqNo) == EndOfFile;
            Replay(records + [r], fetch) ==
            Replay(records, fetch) +
            if !ended && fetch(r.sourceSeqNo) == Read(Sent)
            then [Resent(r.sourceSeqNo, r.targetSeqNo, r.timestamp)] else []
  {
    if |records| > 0 {
      var rest := records[1..];
      ReplaySnoc(rest, r, fetch);
      assert (records + [r])[1..] == rest + [r] && (records + [r])[0] == records[0];
      assert (exists k :: 0 <= k < |records| && fetch(records[k].sourceSeqNo) == EndOfFile) <==>
             fetch(records[0].sourceSeqNo) == EndOfFile ||
             exists k :: 0 <= k < |rest| && fetch(rest[k].sourceSeqNo) == EndOfFile by {
        assert forall k :: 0 <= k < |rest| ==> rest[k] == records[k + 1];
        assert forall k :: 0 < k < |records| ==> records[k] == rest[k - 1];
      }
    } else {
      assert records + [r] == [r] && [r][1..] == [];
    }
  }

  /** A record handed out is the latest log entry under its number, and its number was requested. */
  lemma HandedIsLatest(q: Q.Model, sns: seq<uint16>, now: uint32, i: nat)
    requires Q.Inv(q) && i < |Q.HandedOut(q, sns, now)|
    ensures var n, r := Q.HandedOut(q, sns, now)[i], RecordsFor(q, sns, now)[i];
            && n < |q.log| && r.targetSeqNo in sns
            && r.sourceSeqNo == q.log[n].meta.sourceSeqNo && r.targetSeqNo == q.log[n].meta.targetSeqNo
            && r.timestamp == q.log[n].meta.timestamp
            && forall k :: n < k < |q.log| ==> q.log[k].meta.targetSeqNo != r.targetSeqNo
  {
    var n := Q.HandedOut(q, sns, now)[i];
    var sn := SequencerRuns.HandedIsFound(q, sns, now, n);
    Q.FindsLatest(q, sn, n);
    Q.RequestsKeepLog(q, sns, now);
    hide Q.Inv, Q.Finds, Q.HandedOut, Q.Requests;
  }

  /** The k-th operation recorded this forwarding, and no later one up to j recorded another
      under the same number. */
  ghost predicate LatestUnder(t: Track, ops: seq<Op>, j: nat, k: nat, src: uint16, sn: uint16, ts: uint32)
    requires k < j <= |ops|
  {
    && RecordedAt(t, ops, k)
    && ops[k].p.sn == src && OutSN(State(t, ops, k), ops[k].p) == sn && OutTS(State(t, ops, k), ops[k].p) == ts
    && forall l :: k < l < j && RecordedAt(t, ops, l) ==> OutSN(State(t, ops, l), ops[l].p) != sn
  }

  /** Whatever happened before, every packet resent for a NACK carries the number and timestamp
      of the most recent recorded forwarding under that number, and was read back under the source
      number of that same forwarding. */
  lemma ResendFaithful(video: bool, maxTrack: int, ops: seq<Op>, j: nat, out: Output) returns (k: nat)
    requires maxTrack > 0 && j < |ops| && ops[j].DoNack?
    requires State(Bound(video, maxTrack), ops, j).index.Some?
    requires var q := State(Bound(video, maxTrack), ops, j).index.value;
             out in Replay(RecordsFor(q, ops[j].sns, ops[j].now), ops[j].fetch)
    ensures out.Resent? && ops[j].fetch(out.src) == Read(Sent) && out.sn in ops[j].sns
    ensures k < j && LatestUnder(Bound(video, maxTrack), ops, j, k, out.src, out.sn, out.ts)
  {
    var t0 := Bound(video, maxTrack);
    Q.EmptyInv(maxTrack, MAX_PADDING);
    StateInv(t0, ops, j);
    hide Q.Inv, Q.HandedOut, Q.Requests, Replay, State, Inv;
    var q, sns, now := State(t0, ops, j).index.value, ops[j].sns, ops[j].now;
    var i := ReplaySound(RecordsFor(q, sns, now), ops[j].fetch, out);
    HandedIsLatest(q, sns, now, i);
    k := EntryIsLatest(t0, ops, j, Q.HandedOut(q, sns, now)[i]);
  }

  /** And the other way round: for a requested number whose record is found and due, a place i in
      the replay is that record's; unless the publisher's buffer ends earlier, the packet is resent
      whenever it can be read and sent. */
  lemma ResendComplete(q: Q.Model, sns: seq<uint16>, now: uint32, fetch: uint16 -> Fetch, sn: uint16, n: nat)
    returns (i: nat)
    requires Q.Inv(q) && sn in sns && Q.Find(q, sn) == Some(n) && Q.Due(q.log[n].meta, now, q.rtt)
    ensures var handed, r := Q.HandedOut(q, sns, now), q.log[n].meta;
            && i < |handed| && handed[i] == n && r.targetSeqNo == sn
            && (forall k :: 0 <= k < |handed| ==> handed[k] < |q.log|)
            && ((forall k :: 0 <= k < i ==> fetch(q.log[handed[k]].meta.sourceSeqNo) != EndOfFile) &&
                fetch(r.sourceSeqNo) == Read(Sent) ==>
                  Resent(r.sourceSeqNo, sn, r.timestamp) in Replay(RecordsFor(q, sns, now), fetch))
  {
    hide Q.Inv, Q.Finds, Q.HandedOut, Q.Requests, Q.Due, Replay, RecordsFor;
    assert Q.Finds(q, sn, n);
    Q.FindsLatest(q, sn, n);
    SequencerRuns.HandedExact(q, sns, now, n);
    var handed, records := Q.HandedOut(q, sns, now), RecordsFor(q, sns, now);
    i :| i < |handed| && handed[i] == n;
    forall k | 0 <= k < |handed|
      ensures handed[k] < |q.log| && k < |records| && SameNumbers(records[k], q.log[handed[k]].meta)
    {
      RecordFor(q, sns, now, k);
    }
    if (forall k :: 0 <= k < i ==> fetch(records[k].sourceSeqNo) != EndOfFile) &&
       fetch(records[i].sourceSeqNo) == Read(Sent) {
      ReplayComplete(records, fetch, i);
    }
  }

  /** So over any run: a requested number whose record is found and due has been forwarded, as the
      latest recorded packet under that number, by some operation k; and a packet with the source
      number and timestamp of that forwarding is resent whenever it can be read and sent before the
      publisher's buffer ends. */
  lemma ResendAll(video: bool, maxTrack: int, ops: seq<Op>, j: nat, sn: uint16, n: nat) returns (i: nat, k: nat)
    requires maxTrack > 0 && j < |ops| && ops[j].DoNack? && sn in ops[j].sns
    requires State(Bound(video, maxTrack), ops, j).index.Some?
    requires var q := State(Bound(video, maxTrack), ops, j).index.value;
             Q.Find(q, sn) == Some(n) && n < |q.log| && Q.Due(q.log[n].meta, ops[j].now, q.rtt)
    ensures var q := State(Bound(video, maxTrack), ops, j).index.value;
            var handed, r, fetch := Q.HandedOut(q, ops[j].sns, ops[j].now), q.log[n].meta, ops[j].fetch;
            && k < j && LatestUnder(Bound(video, maxTrack), ops, j, k, r.sourceSeqNo, sn, r.timestamp)
            && i < |handed| && handed[i] == n && (forall l :: 0 <= l < |handed| ==> handed[l] < |q.log|)
            && ((forall l :: 0 <= l < i ==> fetch(q.log[handed[l]].meta.sourceSeqNo) != EndOfFile) &&
                fetch(r.sourceSeqNo) == Read(Sent) ==>
                  Resent(r.sourceSeqNo, sn, r.timestamp) in Replay(RecordsFor(q, ops[j].sns, ops[j].now), fetch))
  {
    var t0 := Bound(video, maxTrack);
    Q.EmptyInv(maxTrack, MAX_PADDING);
    StateInv(t0, ops, j);
    hide Q.Inv, Q.HandedOut, Q.Finds, Q.Due, Replay, RecordsFor, State, Inv, LatestUnder;
    var q := State(t0, ops, j).index.value;
    assert Q.Finds(q, sn, n);
    Q.FindsLatest(q, sn, n);
    k := EntryIsLatest(t0, ops, j, n);
    i := ResendComplete(q, ops[j].sns, ops[j].now, ops[j].fetch, sn, n);
  }

  predicate SameNumbers(r: Q.PacketMeta, r': Q.PacketMeta) {
    r.sourceSeqNo == r'.sourceSeqNo && r.targetSeqNo == r'.targetSeqNo && r.timestamp == r'.timestamp
  }

  lemma RecordFor(q: Q.Model, sns: seq<uint16>, now: uint32, k: nat)
    requires k < |Q.HandedOut(q, sns, now)|
    ensures var n := Q.HandedOut(q, sns, now)[k];
            && n < |q.log| && k < |RecordsFor(q, sns, now)|
            && SameNumbers(RecordsFor(q, sns, now)[k], q.log[n].meta)
  {
    hide Q.HandedOut, Q.Requests;
    Q.RequestsKeepLog(q, sns, now);
    SequencerRuns.BatchPaced(q, sns, now);
    assert Q.HandedOut(q, sns, now)[k] in Q.HandedOut(q, sns, now);
  }

  /** A log entry no later entry shares its number with is the latest recorded forwarding. */
  lemma EntryIsLatest(t: Track, ops: seq<Op>, j: nat, n: nat) returns (k: nat)
    requires j <= |ops| && LogSize(t) == 0 && n < LogSize(State(t, ops, j))
    requires var log := State(t, ops, j).index.value.log;
             forall l :: n < l < |log| ==> log[l].meta.targetSeqNo != log[n].meta.targetSeqNo
    ensures var r := State(t, ops, j).index.value.log[n].meta;
            k < j && LatestUnder(t, ops, j, k, r.sourceSeqNo, r.targetSeqNo, r.timestamp)
  {
    k := LogOrigin(t, ops, j, n);
    hide State, OutSN, OutTS, RecordedAt;
    RecordsLogged(t, ops, j, k);
    forall l | k < l < j && RecordedAt(t, ops, l)
      ensures OutSN(State(t, ops, l), ops[l].p) != State(t, ops, j).index.value.log[n].meta.targetSeqNo
    {
      RecordedGrows(t, ops, k);
      LogGrows(t, ops, k + 1, l);
      RecordsLogged(t, ops, j, l);
    }
  }

  lemma RecordedGrows(t: Track, ops: seq<Op>, k: nat)
    requires k < |ops| && RecordedAt(t, ops, k)
    ensures LogSize(State(t, ops, k + 1)) == LogSize(State(t, ops, k)) + 1
  {
  }
}
