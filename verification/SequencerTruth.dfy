/** The retransmission index (pkg/rtc/sequencer.go) against the true target numbers, of which it sees
    16 bits: which calls it takes, and which push a lookup returns. */
module SequencerTruth {
  import opened SeqNum
  import opened SequencerModel
  import opened SequencerRuns
  import opened Wrappers

  predicate Call(op: Op) {
    op.DoPush? || op.DoPadding?
  }

  /** The highest number of a push or padding among the first i operations */
  function Top(ops: seq<Op>, truth: seq<int>, i: nat): Option<int>
    requires i <= |ops| == |truth|
  {
    if i == 0 then None
    else
      match Top(ops, truth, i - 1)
      case None => if Call(ops[i - 1]) then Some(truth[i - 1]) else None
      case Some(top) => if Call(ops[i - 1]) && truth[i - 1] > top then Some(truth[i - 1]) else Some(top)
  }

  /** truth[k] is the number call k stands for: in the first cycle for the first call, and then within
      half a cycle of the highest so far. Every run of calls has such numbers. */
  ghost predicate Truthful(ops: seq<Op>, truth: seq<int>) {
    && |truth| == |ops|
    && forall k :: 0 <= k < |ops| && Call(ops[k]) ==>
         && ops[k].offSn == Mod16(truth[k])
         && match Top(ops, truth, k)
            case None => 0 <= truth[k] < 0x1_0000
            case Some(top) => top - 0x8000 < truth[k] <= top + 0x8000
  }

  /** A call is taken unless it repeats the highest number so far or is size or more behind it. */
  predicate Taken(ops: seq<Op>, truth: seq<int>, size: int, k: nat)
    requires k < |ops| == |truth|
  {
    && Call(ops[k])
    && match Top(ops, truth, k)
       case None => true
       case Some(top) => truth[k] > top || 0 < top - truth[k] < size
  }

  /** The last call about a number that was taken, among the first i, or -1 */
  function LastTaken(ops: seq<Op>, truth: seq<int>, size: int, i: nat, e: int): (k: int)
    requires i <= |ops| == |truth|
    ensures -1 <= k < i && (k >= 0 ==> Taken(ops, truth, size, k) && truth[k] == e)
    ensures forall l :: k < l < i && Taken(ops, truth, size, l) ==> truth[l] != e
  {
    if i == 0 then -1
    else if Taken(ops, truth, size, i - 1) && truth[i - 1] == e then i - 1
    else LastTaken(ops, truth, size, i - 1, e)
  }

  /** How many pushes were taken from operation i up to j */
  function PushesTaken(ops: seq<Op>, truth: seq<int>, size: int, i: nat, j: nat): nat
    requires i <= j <= |ops| == |truth|
    decreases j
  {
    if i == j then 0
    else PushesTaken(ops, truth, size, i, j - 1) +
         if ops[j - 1].DoPush? && Taken(ops, truth, size, j - 1) then 1 else 0
  }

  /** From 16 bits the index knows the highest number, takes exactly the calls it should, and knows
      what number each is about. */
  lemma {:induction false} KnowsTop(maxTrack: int, maxPadding: int, ops: seq<Op>, truth: seq<int>, i: nat)
    requires maxTrack > 0 && maxPadding >= 0 && Truthful(ops, truth) && i <= |ops|
    ensures var q, top := State(Empty(maxTrack, maxPadding), ops, i), Top(ops, truth, i);
            && q.started == top.Some? && (top.Some? ==> q.head == top.value) && q.max == maxTrack + maxPadding
    ensures i < |ops| && Call(ops[i]) ==>
              var q := State(Empty(maxTrack, maxPadding), ops, i);
              && ExtOf(q, ops[i].offSn) == truth[i]
              && (Accepts(q, ops[i].offSn) <==> Taken(ops, truth, maxTrack + maxPadding, i))
  {
    hide Mod16, Extend, Accepts, Taken, ExtOf, Requests;
    var q := State(Empty(maxTrack, maxPadding), ops, i);
    if i > 0 {
      KnowsTop(maxTrack, maxPadding, ops, truth, i - 1);
      StepTop(State(Empty(maxTrack, maxPadding), ops, i - 1), ops, truth, i - 1);
    }
    if i < |ops| && Call(ops[i]) {
      KnowsNumber(q, ops, truth, i);
    }
  }

  ghost predicate AtTop(q: Model, top: Option<int>) {
    q.started == top.Some? && (top.Some? ==> q.head == top.value)
  }

  lemma KnowsNumber(q: Model, ops: seq<Op>, truth: seq<int>, i: nat)
    requires Truthful(ops, truth) && i < |ops| && Call(ops[i]) && AtTop(q, Top(ops, truth, i)) && q.max > 0
    ensures ExtOf(q, ops[i].offSn) == truth[i]
    ensures Accepts(q, ops[i].offSn) <==> Taken(ops, truth, q.max, i)
  {
    hide Mod16, Extend;
    if q.started {
      ExtendInverts(q.head, truth[i]);
    } else {
      Mod16Near(truth[i]);
    }
  }

  lemma StepTop(q: Model, ops: seq<Op>, truth: seq<int>, i: nat)
    requires Truthful(ops, truth) && i < |ops| && AtTop(q, Top(ops, truth, i)) && q.max > 0
    ensures AtTop(Apply(q, ops[i]), Top(ops, truth, i + 1)) && Apply(q, ops[i]).max == q.max
  {
    hide Mod16, Extend, Requests;
    match ops[i] {
      case DoNack(sns, now) => RequestsKeepLog(q, sns, now);
      case DoRtt(_) =>
      case _ => KnowsNumber(q, ops, truth, i);
    }
  }

  lemma {:induction false} LogCounts(maxTrack: int, maxPadding: int, ops: seq<Op>, truth: seq<int>, i: nat, j: nat)
    requires maxTrack > 0 && maxPadding >= 0 && Truthful(ops, truth) && i <= j <= |ops|
    ensures |State(Empty(maxTrack, maxPadding), ops, j).log| ==
            |State(Empty(maxTrack, maxPadding), ops, i).log| + PushesTaken(ops, truth, maxTrack + maxPadding, i, j)
    decreases j
  {
    assert |truth| == |ops|;
    hide Accepts, Taken, Requests, Truthful;
    if i < j {
      LogCounts(maxTrack, maxPadding, ops, truth, i, j - 1);
      KnowsTop(maxTrack, maxPadding, ops, truth, j - 1);
      CallsAreTaken(ops, truth, maxTrack + maxPadding, j - 1);
      if ops[j - 1].DoNack? {
        RequestsKeepLog(State(Empty(maxTrack, maxPadding), ops, j - 1), ops[j - 1].sns, ops[j - 1].now);
      }
    }
  }

  lemma CallsAreTaken(ops: seq<Op>, truth: seq<int>, size: int, k: nat)
    requires k < |ops| == |truth|
    ensures Taken(ops, truth, size, k) ==> Call(ops[k])
  {
  }

  lemma {:induction false} LastAgrees(maxTrack: int, maxPadding: int, ops: seq<Op>, truth: seq<int>, i: nat, e: int)
    requires maxTrack > 0 && maxPadding >= 0 && Truthful(ops, truth) && i <= |ops|
    ensures LastAbout(Empty(maxTrack, maxPadding), ops, i, e) ==
            LastTaken(ops, truth, maxTrack + maxPadding, i, e)
  {
    assert |truth| == |ops|;
    hide State, Accepts, Taken, Truthful, ExtOf;
    if i > 0 {
      LastAgrees(maxTrack, maxPadding, ops, truth, i - 1, e);
      KnowsTop(maxTrack, maxPadding, ops, truth, i - 1);
      CallsAreTaken(ops, truth, maxTrack + maxPadding, i - 1);
    }
  }

  /** Over any run, in true numbers: a lookup of a number at or behind the highest finds a record
      exactly when it is at most half a cycle and less than maxTrack + maxPadding behind, the last call
      about it that was taken is a push, and counting that push at most maxTrack were taken since. The
      record is that push's. */
  lemma FindTrue(maxTrack: int, maxPadding: int, ops: seq<Op>, truth: seq<int>, e: int)
    requires maxTrack > 0 && maxPadding >= 0 && Truthful(ops, truth)
    requires Top(ops, truth, |ops|).Some? && 0 <= Top(ops, truth, |ops|).value - e < 0x1_0000
    ensures var q := State(Empty(maxTrack, maxPadding), ops, |ops|);
            var back, size := Top(ops, truth, |ops|).value - e, maxTrack + maxPadding;
            var k := LastTaken(ops, truth, size, |ops|, e);
            && (Find(q, Mod16(e)).Some? <==>
                  && back <= 0x8000 && back < size
                  && k >= 0 && ops[k].DoPush? && PushesTaken(ops, truth, size, k, |ops|) <= maxTrack)
            && (Find(q, Mod16(e)).Some? ==>
                  var n := Find(q, Mod16(e)).value;
                  && n < |q.log| && q.log[n].meta.sourceSeqNo == ops[k].sn
                  && q.log[n].meta.targetSeqNo == ops[k].offSn == Mod16(e)
                  && q.log[n].meta.timestamp == ops[k].timestamp && q.log[n].meta.layer == ops[k].layer)
  {
    assert |truth| == |ops|;
    hide Mod16, Sub16, Truthful, Call, Finds, ExtOf, Accepts, Push, PushPadding, Requests, Taken, LastAbout, State,
         Find, PushesTaken, Top, LastTaken, Extend, Empty;
    var top := Top(ops, truth, |ops|).value;
    KnowsTop(maxTrack, maxPadding, ops, truth, |ops|);
    BackDistance(top, e);
    FindExact(maxTrack, maxPadding, ops, Mod16(e));
    LastAgrees(maxTrack, maxPadding, ops, truth, |ops|, e);
    var k := LastTaken(ops, truth, maxTrack + maxPadding, |ops|, e);
    if k >= 0 {
      LogCounts(maxTrack, maxPadding, ops, truth, k, |ops|);
    }
  }

  lemma BackDistance(top: int, e: int)
    requires 0 <= top - e < 0x1_0000
    ensures Sub16(top, Mod16(e)) == top - e
  {
    assert Sub16(top, Mod16(e)) == Mod16(top - e);
    Mod16Near(top - e);
  }

  /** A push that is ahead of the highest number, or behind it by less than maxTrack + maxPadding, is
      found at once, with its own numbers; any other changes nothing. */
  lemma PushIsFound(maxTrack: int, maxPadding: int, ops: seq<Op>, truth: seq<int>, k: nat)
    requires maxTrack > 0 && maxPadding >= 0 && Truthful(ops, truth) && |ops| == k + 1 && ops[k].DoPush?
    ensures var q, q' := State(Empty(maxTrack, maxPadding), ops, k), State(Empty(maxTrack, maxPadding), ops, k + 1);
            var top, op := Top(ops, truth, k), ops[k];
            if top.None? || truth[k] > top.value || 0 < top.value - truth[k] < maxTrack + maxPadding then
              && Find(q', op.offSn) == Some(|q.log|) && |q'.log| == |q.log| + 1
              && q'.log[|q.log|].meta == PacketMeta(op.sn, op.offSn, op.timestamp, 0, 0, op.layer)
            else q' == q
  {
    assert |truth| == |ops|;
    hide Mod16, Extend, Sub16, Truthful;
    var size := maxTrack + maxPadding;
    var q, op := State(Empty(maxTrack, maxPadding), ops, k), ops[k];
    KnowsTop(maxTrack, maxPadding, ops, truth, k);
    KnowsTop(maxTrack, maxPadding, ops, truth, k + 1);
    assert State(Empty(maxTrack, maxPadding), ops, k + 1) == Push(q, op.sn, op.offSn, op.timestamp, op.layer);
    EmptyInv(maxTrack, maxPadding);
    StateInv(Empty(maxTrack, maxPadding), ops, k);
    if Taken(ops, truth, size, k) {
      TruthRange(ops, truth, k);
      BackDistance(Top(ops, truth, k + 1).value, truth[k]);
      assert Finds(State(Empty(maxTrack, maxPadding), ops, k + 1), op.offSn, |q.log|);
    }
  }

  lemma TruthRange(ops: seq<Op>, truth: seq<int>, k: nat)
    requires Truthful(ops, truth) && k < |ops| && Call(ops[k])
    ensures Top(ops, truth, k + 1).Some? && 0 <= Top(ops, truth, k + 1).value - truth[k] < 0x8000
    ensures ops[k].offSn == Mod16(truth[k])
  {
  }

  /** Every run of calls stands for true numbers. */
  lemma {:induction false} TruthOf(ops: seq<Op>) returns (truth: seq<int>)
    ensures Truthful(ops, truth)
  {
    hide Mod16, Extend;
    if |ops| == 0 {
      truth := [];
    } else {
      var n := |ops| - 1;
      var before := TruthOf(ops[..n]);
      var e := if !Call(ops[n]) then 0
               else match Top(ops[..n], before, n)
                    case None => ops[n].offSn
                    case Some(top) => Extend(top, ops[n].offSn);
      truth := before + [e];
      forall k | 0 <= k <= n ensures Top(ops, truth, k) == Top(ops[..n], before, k) {
        TopOfPrefix(ops, truth, n, k);
        assert truth[..n] == before;
      }
      if Call(ops[n]) {
        Mod16Near(ops[n].offSn);
      }
    }
  }

  lemma {:induction false} TopOfPrefix(ops: seq<Op>, truth: seq<int>, n: nat, i: nat)
    requires i <= n <= |ops| == |truth|
    ensures Top(ops, truth, i) == Top(ops[..n], truth[..n], i)
  {
    if i > 0 {
      TopOfPrefix(ops, truth, n, i - 1);
    }
  }
}
