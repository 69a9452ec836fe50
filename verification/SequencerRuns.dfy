/** Whole runs of the retransmission index (pkg/rtc/sequencer.go): which forwarding a lookup
    returns, and how often a record is handed out. */
module SequencerRuns {
  import opened SeqNum
  import opened SequencerModel
  import opened Wrappers

  datatype Op =
    | DoPush(sn: uint16, offSn: uint16, timestamp: uint32, layer: int)
    | DoPadding(offSn: uint16)
    | DoNack(sns: seq<uint16>, now: uint32)
    | DoRtt(rtt: uint32)

  function Apply(q: Model, op: Op): Model {
    match op
    case DoPush(sn, offSn, timestamp, layer) => Push(q, sn, offSn, timestamp, layer)
    case DoPadding(offSn) => PushPadding(q, offSn)
    case DoNack(sns, now) => Requests(q, sns, now)
    case DoRtt(rtt) => SetRtt(q, rtt)
  }

  /** The state after the first i calls */
  function State(q: Model, ops: seq<Op>, i: nat): Model
    requires i <= |ops|
  {
    if i == 0 then q else Apply(State(q, ops, i - 1), ops[i - 1])
  }

  lemma {:induction false} StatePrefix(q: Model, ops: seq<Op>, op: Op, i: nat)
    requires i <= |ops|
    ensures State(q, ops + [op], i) == State(q, ops, i)
  {
    if i > 0 {
      StatePrefix(q, ops, op, i - 1);
    }
  }

  lemma StateSnoc(q: Model, ops: seq<Op>, op: Op)
    ensures State(q, ops + [op], |ops| + 1) == Apply(State(q, ops, |ops|), op)
  {
    StatePrefix(q, ops, op, |ops|);
  }

  lemma ApplyKeepsInv(q: Model, op: Op)
    requires Inv(q)
    ensures Inv(Apply(q, op))
  {
    match op {
      case DoPush(sn, offSn, timestamp, layer) => PushKeepsInv(q, sn, offSn, timestamp, layer);
      case DoPadding(offSn) => PaddingKeepsInv(q, offSn);
      case DoNack(sns, now) => RequestsKeepInv(q, sns, now);
      case DoRtt(rtt) =>
    }
  }

  lemma {:induction false} StateInv(q: Model, ops: seq<Op>, i: nat)
    requires Inv(q) && i <= |ops|
    ensures Inv(State(q, ops, i))
    ensures State(q, ops, i).max == q.max && State(q, ops, i).maxTrack == q.maxTrack
    ensures |q.log| <= |State(q, ops, i).log|
  {
    if i > 0 {
      StateInv(q, ops, i - 1);
      ApplyKeepsInv(State(q, ops, i - 1), ops[i - 1]);
      if ops[i - 1].DoNack? {
        RequestsKeepLog(State(q, ops, i - 1), ops[i - 1].sns, ops[i - 1].now);
      }
    }
  }

  // ------------------------------------------------------------------ lookups

  /** Call i was accepted and was about number e. */
  predicate About(q: Model, ops: seq<Op>, i: nat, e: int)
    requires i < |ops|
  {
    var before := State(q, ops, i);
    (ops[i].DoPush? || ops[i].DoPadding?) && Accepts(before, ops[i].offSn) && ExtOf(before, ops[i].offSn) == e
  }

  /** Index of the last accepted call about e among the first i, or -1 */
  function LastAbout(q: Model, ops: seq<Op>, i: nat, e: int): (k: int)
    requires i <= |ops|
    ensures -1 <= k < i
    ensures k >= 0 ==> About(q, ops, k, e)
    ensures forall j :: k < j < i ==> !About(q, ops, j, e)
  {
    if i == 0 then -1
    else if About(q, ops, i - 1, e) then i - 1
    else LastAbout(q, ops, i - 1, e)
  }

  /** What the model remembers about a number is the last accepted call about it, and the log
      entry of a push is that push. */
  ghost predicate Remembers(q: Model, ops: seq<Op>, i: nat, e: int)
    requires i <= |ops|
  {
    var after, k := State(q, ops, i), LastAbout(q, ops, i, e);
    if k < 0 then e !in after.last
    else
      && e in after.last
      && if ops[k].DoPush? then
           var n := |State(q, ops, k).log|;
           && after.last[e] == Pushed(n) && n < |after.log|
           && after.log[n].ext == e
           && after.log[n].meta.sourceSeqNo == ops[k].sn
           && after.log[n].meta.targetSeqNo == ops[k].offSn
           && after.log[n].meta.timestamp == ops[k].timestamp
           && after.log[n].meta.layer == ops[k].layer
         else after.last[e] == Padding
  }

  lemma {:induction false} RunRemembers(q: Model, ops: seq<Op>, i: nat, e: int)
    requires q.log == [] && q.last == map[] && i <= |ops|
    ensures Remembers(q, ops, i, e)
  {
    if i > 0 {
      RunRemembers(q, ops, i - 1, e);
      if ops[i - 1].DoNack? {
        RequestsKeepLog(State(q, ops, i - 1), ops[i - 1].sns, ops[i - 1].now);
      }
    }
  }

  /** Over any run: looking up a target number finds a record exactly when the last accepted
      call about it was a push, the number is in the window behind the head, and counting that
      push at most maxTrack were accepted since. The record is that push's, however often its
      storage was recycled. */
  lemma FindExact(maxTrack: int, maxPadding: int, ops: seq<Op>, sn: uint16)
    requires maxTrack > 0 && maxPadding >= 0
    ensures var q0 := Empty(maxTrack, maxPadding);
            var q, back := State(q0, ops, |ops|), Sub16(State(q0, ops, |ops|).head, sn);
            var k := LastAbout(q0, ops, |ops|, q.head - back);
            && (Find(q, sn).Some? <==>
                  && back <= HALF16 && back < maxTrack + maxPadding
                  && k >= 0 && ops[k].DoPush?
                  && |q.log| - |State(q0, ops, k).log| <= maxTrack)
            && (Find(q, sn).Some? ==>
                  var n := Find(q, sn).value;
                  && n < |q.log|
                  && q.log[n].meta.sourceSeqNo == ops[k].sn
                  && q.log[n].meta.timestamp == ops[k].timestamp
                  && q.log[n].meta.layer == ops[k].layer
                  && q.log[n].meta.targetSeqNo == ops[k].offSn == sn)
  {
    hide State, Apply, Mod16, Sub16, LastAbout, About;
    var q0 := Empty(maxTrack, maxPadding);
    var q, back := State(q0, ops, |ops|), Sub16(State(q0, ops, |ops|).head, sn);
    RunRemembers(q0, ops, |ops|, q.head - back);
    EmptyInv(maxTrack, maxPadding);
    StateInv(q0, ops, |ops|);
    BackToResidue(q.head, sn);
  }

  // ------------------------------------------------------------------- pacing

  /** Exactly the records handed out are stamped, none of them was stamped less than a pause
      ago, and at a non-zero time none is handed out twice. */
  ghost predicate HandedFairly(q: Model, handed: seq<nat>, q': Model, now: uint32) {
    && |q'.log| == |q.log|
    && (forall n :: n in handed ==> n < |q.log| && Due(q.log[n].meta, now, q.rtt))
    && (forall n :: 0 <= n < |q.log| ==>
          q'.log[n].meta.lastNack == (if n in handed then now else q.log[n].meta.lastNack))
    && (now != 0 ==> forall i, j :: 0 <= i < j < |handed| ==> handed[i] != handed[j])
  }

  lemma {:induction false} BatchPaced(q: Model, sns: seq<uint16>, now: uint32)
    ensures HandedFairly(q, HandedOut(q, sns, now), Requests(q, sns, now), now)
  {
    if |sns| > 0 {
      var before, sn := sns[..|sns| - 1], sns[|sns| - 1];
      BatchPaced(q, before, now);
      RequestsKeepLog(q, before, now);
      hide HandedFairly;
      BatchStep(q, HandedOut(q, before, now), Requests(q, before, now), sn, now);
    }
  }

  lemma BatchStep(q: Model, handed: seq<nat>, q1: Model, sn: uint16, now: uint32)
    requires HandedFairly(q, handed, q1, now) && q1.rtt == q.rtt
    ensures HandedFairly(q, match Handed(q1, sn, now) case None => handed case Some(n) => handed + [n],
                         Request(q1, sn, now), now)
  {
    hide Find;
    if Handed(q1, sn, now).Some? {
      var n := Handed(q1, sn, now).value;
      assert Due(q1.log[n].meta, now, q.rtt);
      assert now != 0 ==> n !in handed;
    }
  }

  /** A record handed out by a batch is one a lookup of a requested number finds. */
  lemma {:induction false} HandedIsFound(q: Model, sns: seq<uint16>, now: uint32, n: nat) returns (sn: uint16)
    requires n in HandedOut(q, sns, now)
    ensures sn in sns && Finds(q, sn, n)
  {
    var before := sns[..|sns| - 1];
    if n in HandedOut(q, before, now) {
      sn := HandedIsFound(q, before, now, n);
    } else {
      RequestsKeepLog(q, before, now);
      sn := sns[|sns| - 1];
      assert Finds(Requests(q, before, now), sn, n);
    }
  }

  /** Every record a lookup of a requested number finds is handed out if it is due. */
  lemma {:induction false} DueIsHanded(q: Model, sns: seq<uint16>, now: uint32, sn: uint16, n: nat)
    requires sn in sns && Finds(q, sn, n) && n < |q.log| && Due(q.log[n].meta, now, q.rtt)
    ensures n in HandedOut(q, sns, now)
  {
    var before, last := sns[..|sns| - 1], sns[|sns| - 1];
    if sn in before {
      DueIsHanded(q, before, now, sn, n);
    } else {
      BatchPaced(q, before, now);
      RequestsKeepLog(q, before, now);
      var q1 := Requests(q, before, now);
      assert last == sn && Finds(q1, sn, n);
      assert Find(q1, sn) == Some(n);
      assert n !in HandedOut(q, before, now) ==> Due(q1.log[n].meta, now, q1.rtt);
    }
  }

  /** A batch hands out exactly the records that are found for a requested number and are due. */
  lemma HandedExact(q: Model, sns: seq<uint16>, now: uint32, n: nat)
    ensures n in HandedOut(q, sns, now) <==>
            n < |q.log| && Due(q.log[n].meta, now, q.rtt) && exists sn :: sn in sns && Finds(q, sn, n)
  {
    hide HandedOut, Finds, Due;
    if n in HandedOut(q, sns, now) {
      BatchPaced(q, sns, now);
      var sn := HandedIsFound(q, sns, now, n);
    } else if sn :| sn in sns && Finds(q, sn, n) && n < |q.log| && Due(q.log[n].meta, now, q.rtt) {
      DueIsHanded(q, sns, now, sn, n);
    }
  }

  /** At time 0 a record looks as if it had never been handed out: a number requested twice at one
      time is answered twice exactly when that time is 0. */
  lemma TwiceOnlyAtZero(q: Model, sn: uint16, now: uint32)
    requires Handed(q, sn, now).Some?
    ensures |HandedOut(q, [sn, sn], now)| == 2 <==> now == 0
  {
    var n, q1 := Handed(q, sn, now).value, Request(q, sn, now);
    assert [sn, sn][..1] == [sn] && [sn][..0] == [];
    assert Requests(q, [], now) == q && HandedOut(q, [], now) == [];
    assert Requests(q, [sn], now) == q1 && HandedOut(q, [sn], now) == [n];
    assert Finds(q, sn, n) && Finds(q1, sn, n);
    assert Find(q1, sn) == Some(n);
    assert q1.log[n].meta.lastNack == now;
    hide Find, Finds;
  }

  /** Times of NACK batches do not decrease. */
  ghost predicate Clocked(ops: seq<Op>) {
    forall a, b :: 0 <= a < b < |ops| && ops[a].DoNack? && ops[b].DoNack? ==> ops[a].now <= ops[b].now
  }

  ghost predicate HandsOut(q: Model, ops: seq<Op>, i: nat, n: nat)
    requires i < |ops|
  {
    ops[i].DoNack? && n in HandedOut(State(q, ops, i), ops[i].sns, ops[i].now)
  }

  lemma ApplyKeepsStamp(q: Model, op: Op, n: nat)
    requires n < |q.log|
    ensures n < |Apply(q, op).log|
    ensures Apply(q, op).log[n].meta.lastNack ==
            if op.DoNack? && n in HandedOut(q, op.sns, op.now) then op.now else q.log[n].meta.lastNack
  {
    if op.DoNack? {
      BatchPaced(q, op.sns, op.now);
    }
  }

  /** From a batch that hands a record out, the record carries the time of some batch since. */
  lemma {:induction false} StampSince(q: Model, ops: seq<Op>, i: nat, k: nat, n: nat) returns (a: nat)
    requires i < k <= |ops| && HandsOut(q, ops, i, n)
    ensures i <= a < k && ops[a].DoNack? && n < |State(q, ops, k).log|
    ensures State(q, ops, k).log[n].meta.lastNack == ops[a].now
    decreases k
  {
    hide Push, PushPadding, SetRtt, Requests, HandedOut;
    if k == i + 1 {
      a := i;
      BatchPaced(State(q, ops, i), ops[i].sns, ops[i].now);
    } else {
      a := StampSince(q, ops, i, k - 1, n);
      ApplyKeepsStamp(State(q, ops, k - 1), ops[k - 1], n);
      if HandsOut(q, ops, k - 1, n) {
        a := k - 1;
      }
    }
  }

  /** The round-trip time in force after the first i calls: 70 ms unless another was set, and again
      after it was set to 0 */
  function RttAfter(ops: seq<Op>, i: nat): uint32
    requires i <= |ops|
  {
    if i == 0 then 70
    else if ops[i - 1].DoRtt? then (if ops[i - 1].rtt == 0 then 70 else ops[i - 1].rtt)
    else RttAfter(ops, i - 1)
  }

  lemma {:induction false} StateRtt(maxTrack: int, maxPadding: int, ops: seq<Op>, i: nat)
    requires i <= |ops|
    ensures State(Empty(maxTrack, maxPadding), ops, i).rtt == RttAfter(ops, i)
  {
    hide Requests;
    if i > 0 {
      StateRtt(maxTrack, maxPadding, ops, i - 1);
      if ops[i - 1].DoNack? {
        RequestsKeepLog(State(Empty(maxTrack, maxPadding), ops, i - 1), ops[i - 1].sns, ops[i - 1].now);
      }
    }
  }

  /** Over any run, a record handed out at a non-zero time is not handed out by a later batch until
      more than 100 milliseconds, or twice the round-trip time then in force, have passed. */
  lemma Paced(q: Model, ops: seq<Op>, i: nat, j: nat, n: nat)
    requires i < j < |ops| && Clocked(ops)
    requires HandsOut(q, ops, i, n) && HandsOut(q, ops, j, n) && ops[i].now != 0
    ensures var elapsed, twice := ops[j].now - ops[i].now, 2 * State(q, ops, j).rtt % 0x1_0000_0000;
            elapsed > 100 || elapsed > twice
  {
    var a := StampSince(q, ops, i, j, n);
    BatchPaced(State(q, ops, j), ops[j].sns, ops[j].now);
    Mod32Near(ops[j].now - ops[a].now);
    hide Mod32;
  }

  /** Until it is handed out again, a record carries the time of the batch that handed it out. */
  lemma {:induction false} StampStays(q: Model, ops: seq<Op>, i: nat, k: nat, n: nat)
    requires i < k <= |ops| && HandsOut(q, ops, i, n)
    requires forall l :: i < l < k ==> !HandsOut(q, ops, l, n)
    ensures n < |State(q, ops, k).log| && State(q, ops, k).log[n].meta.lastNack == ops[i].now
    decreases k
  {
    hide Push, PushPadding, SetRtt, Requests, HandedOut;
    if k == i + 1 {
      BatchPaced(State(q, ops, i), ops[i].sns, ops[i].now);
    } else {
      StampStays(q, ops, i, k - 1, n);
      ApplyKeepsStamp(State(q, ops, k - 1), ops[k - 1], n);
      assert !HandsOut(q, ops, k - 1, n);
    }
  }

  /** A record that was never handed out carries no time. */
  lemma {:induction false} NeverStamped(q: Model, ops: seq<Op>, k: nat, n: nat)
    requires q.log == [] && k <= |ops| && n < |State(q, ops, k).log|
    requires forall l :: 0 <= l < k ==> !HandsOut(q, ops, l, n)
    ensures State(q, ops, k).log[n].meta.lastNack == 0
  {
    hide Requests, HandedOut, Accepts;
    if k > 0 {
      var before := State(q, ops, k - 1);
      if n < |before.log| {
        NeverStamped(q, ops, k - 1, n);
        ApplyKeepsStamp(before, ops[k - 1], n);
        assert !HandsOut(q, ops, k - 1, n);
      } else if ops[k - 1].DoNack? {
        RequestsKeepLog(before, ops[k - 1].sns, ops[k - 1].now);
      }
    }
  }

  /** A batch hands a record out for the first time exactly when it is found for a requested number. */
  lemma HandedFirst(q: Model, ops: seq<Op>, j: nat, n: nat)
    requires q.log == [] && j < |ops| && ops[j].DoNack? && n < |State(q, ops, j).log|
    requires forall l :: 0 <= l < j ==> !HandsOut(q, ops, l, n)
    ensures HandsOut(q, ops, j, n) <==> exists sn :: sn in ops[j].sns && Finds(State(q, ops, j), sn, n)
  {
    NeverStamped(q, ops, j, n);
    hide Finds, HandedOut, State;
    HandedExact(State(q, ops, j), ops[j].sns, ops[j].now, n);
  }

  /** A later batch hands a record out again exactly when it is found for a requested number and
      either was handed out last at time 0, however little time has passed, or the pause is over. */
  lemma HandedAgain(q: Model, ops: seq<Op>, i: nat, j: nat, n: nat)
    requires i < j < |ops| && ops[j].DoNack?
    requires HandsOut(q, ops, i, n) && forall l :: i < l < j ==> !HandsOut(q, ops, l, n)
    ensures HandsOut(q, ops, j, n) <==>
            && (exists sn :: sn in ops[j].sns && Finds(State(q, ops, j), sn, n))
            && (ops[i].now == 0 ||
                var elapsed := (ops[j].now - ops[i].now) % 0x1_0000_0000;
                var twice := 2 * State(q, ops, j).rtt % 0x1_0000_0000;
                elapsed > 100 || elapsed > twice)
  {
    hide Finds, HandedOut, State, Due;
    StampStays(q, ops, i, j, n);
    HandedExact(State(q, ops, j), ops[j].sns, ops[j].now, n);
    DueAfter(State(q, ops, j).log[n].meta, ops[j].now, State(q, ops, j).rtt);
  }

  lemma DueAfter(meta: PacketMeta, now: uint32, rtt: uint32)
    ensures var elapsed, twice := (now - meta.lastNack) % 0x1_0000_0000, 2 * rtt % 0x1_0000_0000;
            Due(meta, now, rtt) <==> meta.lastNack == 0 || elapsed > 100 || elapsed > twice
  {
  }

  // ------------------------------------------------------- order and counting

  /** Records are handed out in the order they were requested: the i-th for the request at pos[i]. */
  lemma {:induction false} HandedInOrder(q: Model, sns: seq<uint16>, now: uint32) returns (pos: seq<nat>)
    ensures var handed := HandedOut(q, sns, now);
            && |pos| == |handed|
            && (forall i :: 0 <= i < |pos| ==> pos[i] < |sns| && Finds(q, sns[pos[i]], handed[i]))
            && (forall i, j :: 0 <= i < j < |pos| ==> pos[i] < pos[j])
  {
    if |sns| == 0 {
      pos := [];
    } else {
      var before, last := sns[..|sns| - 1], |sns| - 1;
      pos := HandedInOrder(q, before, now);
      RequestsKeepLog(q, before, now);
      var q1 := Requests(q, before, now);
      if Handed(q1, sns[last], now).Some? {
        assert Finds(q1, sns[last], Handed(q1, sns[last], now).value);
        pos := pos + [last];
      }
    }
  }

  /** How often n stands in s */
  function Times(s: seq<nat>, n: nat): (times: nat)
    ensures n !in s <==> times == 0
  {
    multiset(s)[n]
  }

  /** A batch counts, modulo 256, how often it hands a record out. */
  lemma {:induction false} BatchCounts(q: Model, sns: seq<uint16>, now: uint32, n: nat)
    requires n < |q.log| && 0 <= q.log[n].meta.nacked < 256
    ensures n < |Requests(q, sns, now).log|
    ensures Requests(q, sns, now).log[n].meta.nacked ==
            (q.log[n].meta.nacked + Times(HandedOut(q, sns, now), n)) % 256
  {
    hide Find, Due, Handed, Request, Times;
    if |sns| > 0 {
      var before, last := sns[..|sns| - 1], sns[|sns| - 1];
      BatchCounts(q, before, now, n);
      RequestsKeepLog(q, before, now);
      CountsOneMore(q.log[n].meta.nacked, HandedOut(q, before, now), Requests(q, before, now), last, now, n);
    } else {
      assert Times([], n) == 0;
    }
  }

  lemma CountsOneMore(count: nat, handed: seq<nat>, q: Model, sn: uint16, now: uint32, n: nat)
    requires n < |q.log| && q.log[n].meta.nacked == (count + Times(handed, n)) % 256
    ensures var handed' := match Handed(q, sn, now) case None => handed case Some(m) => handed + [m];
            && n < |Request(q, sn, now).log|
            && Request(q, sn, now).log[n].meta.nacked == (count + Times(handed', n)) % 256
  {
    RequestCounts(q, sn, now, n);
    ModAdds(count + Times(handed, n));
    if Handed(q, sn, now).Some? {
      OneMore(handed, Handed(q, sn, now).value, n);
    }
    hide Handed, Request, Times;
  }

  lemma RequestCounts(q: Model, sn: uint16, now: uint32, n: nat)
    requires n < |q.log| && 0 <= q.log[n].meta.nacked < 256
    ensures n < |Request(q, sn, now).log|
    ensures Request(q, sn, now).log[n].meta.nacked ==
            (q.log[n].meta.nacked + if Handed(q, sn, now) == Some(n) then 1 else 0) % 256
  {
    hide Find, Due;
  }

  lemma OneMore(s: seq<nat>, x: nat, n: nat)
    ensures Times(s + [x], n) == Times(s, n) + if x == n then 1 else 0
  {
  }

  lemma ModAdds(x: int)
    ensures (x % 256 + 1) % 256 == (x + 1) % 256 && (x % 256) % 256 == x % 256
  {
  }

  /** How often a record was handed out by the first k calls */
  function HandCount(q: Model, ops: seq<Op>, k: nat, n: nat): nat
    requires k <= |ops|
  {
    if k == 0 then 0
    else HandCount(q, ops, k - 1, n) +
         if ops[k - 1].DoNack? then Times(HandedOut(State(q, ops, k - 1), ops[k - 1].sns, ops[k - 1].now), n) else 0
  }

  /** Over any run the NACK count of a record is the number of times it was handed out, in 8 bits. */
  lemma {:induction false} NackedCounts(q: Model, ops: seq<Op>, k: nat, n: nat)
    requires q.log == [] && k <= |ops|
    ensures n < |State(q, ops, k).log| ==> State(q, ops, k).log[n].meta.nacked == HandCount(q, ops, k, n) % 256
    ensures n >= |State(q, ops, k).log| ==> HandCount(q, ops, k, n) == 0
  {
    hide HandedOut, Requests, Accepts;
    if k > 0 {
      var before := State(q, ops, k - 1);
      NackedCounts(q, ops, k - 1, n);
      if ops[k - 1].DoNack? {
        RequestsKeepLog(before, ops[k - 1].sns, ops[k - 1].now);
        if n < |before.log| {
          BatchCounts(before, ops[k - 1].sns, ops[k - 1].now, n);
        } else {
          BatchPaced(before, ops[k - 1].sns, ops[k - 1].now);
          assert n !in HandedOut(before, ops[k - 1].sns, ops[k - 1].now);
        }
      }
    }
  }
}
