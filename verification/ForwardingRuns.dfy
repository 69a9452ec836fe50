/** What a subscriber is sent over a whole run (pkg/rtc/downtrack.go), told from the operations alone:
    which packets pass, under which numbers, what is asked of the publisher, and what the
    retransmission index is told. No state of the track appears in these definitions. */
module ForwardingRuns {
  import opened SeqNum
  import opened ForwardingModel
  import Q = SequencerModel
  import R = SequencerRuns
  import opened Wrappers

  /** After the first i operations the track is enabled unless the last Mute call was Mute(true). */
  predicate Enabled(ops: seq<Op>, i: nat)
    requires i <= |ops|
  {
    i == 0 || if ops[i - 1].DoMute? then !ops[i - 1].val else Enabled(ops, i - 1)
  }

  predicate Live(ops: seq<Op>, i: nat)
    requires i <= |ops|
  {
    forall k :: 0 <= k < i ==> !ops[k].DoUnbind?
  }

  /** A Mute call that changes anything */
  predicate Toggled(ops: seq<Op>, k: nat)
    requires k < |ops|
  {
    ops[k].DoMute? && Enabled(ops, k) == ops[k].val
  }

  /** Packet k passes: the track is enabled and bound, and if it carries video the packet is a keyframe
      or another one passed since the last change of mute state. */
  predicate Passes(video: bool, ops: seq<Op>, k: nat)
    requires k < |ops|
    decreases k, 1
  {
    && ops[k].DoWrite? && Enabled(ops, k) && Live(ops, k)
    && (video ==> ops[k].p.keyFrame || Resync(video, ops, k) >= 0)
  }

  /** The first packet that passed since the last change of mute state, among the first i, or -1 */
  function Resync(video: bool, ops: seq<Op>, i: nat): (r: int)
    requires i <= |ops|
    ensures -1 <= r < i && (r >= 0 ==> ops[r].DoWrite?)
    decreases i, 0
  {
    if i == 0 || Toggled(ops, i - 1) then -1
    else if Resync(video, ops, i - 1) >= 0 then Resync(video, ops, i - 1)
    else if Passes(video, ops, i - 1) then i - 1
    else -1
  }

  /** The first packet that passed at all, among the first i, or -1 */
  function First(video: bool, ops: seq<Op>, i: nat): (f: int)
    requires i <= |ops|
    ensures -1 <= f < i && (f >= 0 ==> ops[f].DoWrite?)
  {
    if i == 0 then -1
    else if First(video, ops, i - 1) >= 0 then First(video, ops, i - 1)
    else if Passes(video, ops, i - 1) then i - 1
    else -1
  }

  /** What is added to numbers since packet r resynchronised the stream that began with packet f:
      nothing in the beginning; then r follows f; and nothing ever if f had number 0. */
  function Shift(ops: seq<Op>, f: int, r: int): (shift: (int, int))
    requires 0 <= f < |ops| && ops[f].DoWrite? && 0 <= r < |ops| && ops[r].DoWrite?
  {
    if r == f || ops[f].p.sn == 0 then (0, 0)
    else (ops[f].p.sn + 1 - ops[r].p.sn, ops[f].p.ts + 1 - ops[r].p.ts)
  }

  /** The packet that goes out for packet k, if it passes and can be sent */
  function OnWire(video: bool, ops: seq<Op>, k: nat): Output
    requires k < |ops| && ops[k].DoWrite?
  {
    var p, f, r := ops[k].p, First(video, ops, k + 1), Resync(video, ops, k + 1);
    if f < 0 || r < 0 then Forwarded(p.sn, p.sn, p.ts)
    else Forwarded(p.sn, Mod16(p.sn + Shift(ops, f, r).0), Mod32(p.ts + Shift(ops, f, r).1))
  }

  // ------------------------------------------------------------ the invariant

  /** The track's flags and offsets are those of its history. */
  ghost predicate Follows(video: bool, ops: seq<Op>, i: nat, t: Track)
    requires i <= |ops|
  {
    var f, r := First(video, ops, i), Resync(video, ops, i);
    && t.video == video && t.enabled == Enabled(ops, i) && t.bound == Live(ops, i)
    && (t.syncRequired <==> r < 0) && (t.started <==> f >= 0) && f <= r + i && (r >= 0 ==> f >= 0)
    && (if f >= 0 then t.lastSN == ops[f].p.sn && t.lastTS == ops[f].p.ts else t.lastSN == 0)
    && (t.lastSN == 0 ==> t.snOffset == 0 && t.tsOffset == 0)
    && (r >= 0 ==> t.snOffset == Mod16(-Shift(ops, f, r).0) && t.tsOffset == Mod32(-Shift(ops, f, r).1))
  }

  lemma {:induction false} StateFollows(video: bool, maxTrack: int, ops: seq<Op>, i: nat)
    requires i <= |ops|
    ensures Follows(video, ops, i, State(Bound(video, maxTrack), ops, i))
  {
    if i > 0 {
      StateFollows(video, maxTrack, ops, i - 1);
      StepFollows(video, ops, i - 1, State(Bound(video, maxTrack), ops, i - 1));
    }
  }

  lemma StepFollows(video: bool, ops: seq<Op>, i: nat, t: Track)
    requires i < |ops| && Follows(video, ops, i, t)
    ensures Follows(video, ops, i + 1, Apply(t, ops[i]))
  {
    hide Sub16, Sub32, Mod16, Mod32, Replay, RecordsFor, Q.Push;
    match ops[i] {
      case DoWrite(p, outcome) =>
        if Passes(video, ops, i) {
          PassedFollows(video, ops, i, t);
        }
      case _ =>
    }
  }

  lemma PassedFollows(video: bool, ops: seq<Op>, i: nat, t: Track)
    requires i < |ops| && Follows(video, ops, i, t) && Passes(video, ops, i)
    ensures Follows(video, ops, i + 1, Apply(t, ops[i]))
    ensures OnWire(video, ops, i) == Forwarded(ops[i].p.sn, OutSN(t, ops[i].p), OutTS(t, ops[i].p))
  {
    hide Q.Push, Sub16, Sub32, Mod16, Mod32, First, Resync, Enabled, Live;
    var p := ops[i].p;
    NextMarks(video, ops, i);
    var f, r := First(video, ops, i + 1), Resync(video, ops, i + 1);
    Offsets16(p.sn, t.lastSN, Shift(ops, f, r).0);
    Offsets32(p.ts, t.lastTS, Shift(ops, f, r).1);
  }

  lemma NextMarks(video: bool, ops: seq<Op>, i: nat)
    requires i < |ops| && Passes(video, ops, i)
    ensures First(video, ops, i + 1) == if First(video, ops, i) >= 0 then First(video, ops, i) else i
    ensures Resync(video, ops, i + 1) == if Resync(video, ops, i) >= 0 then Resync(video, ops, i) else i
    ensures Enabled(ops, i) && Enabled(ops, i + 1) && Live(ops, i) && Live(ops, i + 1)
  {
  }

  lemma Offsets16(a: uint16, b: uint16, shift: int)
    ensures Sub16(Sub16(a, b), 1) == Mod16(-(b + 1 - a))
    ensures Sub16(a, Mod16(-shift)) == Mod16(a + shift)
    ensures Mod16(0) == 0 && Sub16(a, 0) == Mod16(a + 0) == a
  {
  }

  lemma Offsets32(a: uint32, b: uint32, shift: int)
    ensures Sub32(Sub32(a, b), 1) == Mod32(-(b + 1 - a))
    ensures Sub32(a, Mod32(-shift)) == Mod32(a + shift)
    ensures Mod32(0) == 0 && Sub32(a, 0) == Mod32(a + 0) == a
  {
  }

  // ---------------------------------------------------------------- the wire

  /** Every operation of every run: a packet that passes and can be sent goes out once, under the
      numbers its history gives it; one that is held back asks for a keyframe once; nothing else comes
      of packets, and nothing at all of other calls, short of what a NACK replays. */
  lemma EveryOutput(video: bool, maxTrack: int, ops: seq<Op>, k: nat)
    requires k < |ops|
    ensures var s, s' := State(Bound(video, maxTrack), ops, k), State(Bound(video, maxTrack), ops, k + 1);
            s'.sent == s.sent + match ops[k]
                                case DoWrite(p, outcome) =>
                                  if !Enabled(ops, k) || !Live(ops, k) then []
                                  else if !Passes(video, ops, k) then [PliRequest]
                                  else if outcome == Sent then [OnWire(video, ops, k)]
                                  else []
                                case DoNack(sns, now, fetch) =>
                                  if s.index.Some? then Replay(RecordsFor(s.index.value, sns, now), fetch) else []
                                case _ => []
  {
    var s := State(Bound(video, maxTrack), ops, k);
    StateFollows(video, maxTrack, ops, k);
    assert State(Bound(video, maxTrack), ops, k + 1) == Apply(s, ops[k]);
    if ops[k].DoWrite? && Passes(video, ops, k) {
      PassedFollows(video, ops, k, s);
    }
    hide State, OutSN, OutTS, OnWire, Replay, RecordsFor, Bound, Q.Push;
  }

  /** The track is enabled exactly when the last Mute call, if any, was Mute(false). */
  lemma EnabledExact(video: bool, maxTrack: int, ops: seq<Op>, i: nat)
    requires i <= |ops|
    ensures State(Bound(video, maxTrack), ops, i).enabled <==>
            forall k :: 0 <= k < i && ops[k].DoMute? && ops[k].val ==>
              exists l :: k < l < i && ops[l].DoMute? && !ops[l].val
  {
    StateFollows(video, maxTrack, ops, i);
    EnabledMeans(ops, i);
    hide State, Enabled;
  }

  lemma {:induction false} EnabledMeans(ops: seq<Op>, i: nat)
    requires i <= |ops|
    ensures Enabled(ops, i) <==>
            forall k :: 0 <= k < i && ops[k].DoMute? && ops[k].val ==>
              exists l :: k < l < i && ops[l].DoMute? && !ops[l].val
  {
    if i > 0 {
      EnabledMeans(ops, i - 1);
      if ops[i - 1].DoMute? && !ops[i - 1].val {
        assert forall k :: 0 <= k < i && ops[k].DoMute? && ops[k].val ==> k < i - 1;
      } else if !ops[i - 1].DoMute? {
        if Enabled(ops, i - 1) {
          forall k | 0 <= k < i && ops[k].DoMute? && ops[k].val
            ensures exists l :: k < l < i && ops[l].DoMute? && !ops[l].val
          {
            var l :| k < l < i - 1 && ops[l].DoMute? && !ops[l].val;
          }
        }
      }
    }
  }

  // ------------------------------------------------------------- consequences

  /** Two packets on the wire between two changes of mute state keep the distances they have at the
      source. */
  lemma WireDistances(video: bool, ops: seq<Op>, i: nat, j: nat)
    requires i < j < |ops| && Passes(video, ops, i) && Passes(video, ops, j)
    requires forall k :: i < k < j ==> !Toggled(ops, k)
    ensures var a, b := OnWire(video, ops, i), OnWire(video, ops, j);
            && a.src == ops[i].p.sn && b.src == ops[j].p.sn
            && Sub16(b.sn, a.sn) == Sub16(b.src, a.src) && Sub32(b.ts, a.ts) == Sub32(ops[j].p.ts, ops[i].p.ts)
  {
    hide Sub16, Sub32, Mod16, Mod32, Shift, First, Resync, Enabled, Live;
    NextMarks(video, ops, i);
    MarksStay(video, ops, i, j);
    var f, r := First(video, ops, i + 1), Resync(video, ops, i + 1);
    Shifted16(ops[j].p.sn, ops[i].p.sn, Shift(ops, f, r).0);
    Shifted32(ops[j].p.ts, ops[i].p.ts, Shift(ops, f, r).1);
  }

  lemma MarksStay(video: bool, ops: seq<Op>, i: nat, j: nat)
    requires i < j < |ops| && Passes(video, ops, i) && Passes(video, ops, j)
    requires forall k :: i < k < j ==> !Toggled(ops, k)
    ensures First(video, ops, j + 1) == First(video, ops, i + 1)
    ensures Resync(video, ops, j + 1) == Resync(video, ops, i + 1)
  {
    hide First, Resync;
    NextMarks(video, ops, i);
    FirstStays(video, ops, i + 1, j + 1);
    ResyncStays(video, ops, i + 1, j + 1);
  }

  lemma {:induction false} FirstStays(video: bool, ops: seq<Op>, i: nat, j: nat)
    requires i <= j <= |ops| && First(video, ops, i) >= 0
    ensures First(video, ops, j) == First(video, ops, i)
    decreases j
  {
    if i < j {
      FirstStays(video, ops, i, j - 1);
    }
  }

  lemma {:induction false} ResyncStays(video: bool, ops: seq<Op>, i: nat, j: nat)
    requires i <= j <= |ops| && Resync(video, ops, i) >= 0
    requires forall k :: i <= k < j ==> !Toggled(ops, k)
    ensures Resync(video, ops, j) == Resync(video, ops, i)
    decreases j
  {
    if i < j {
      ResyncStays(video, ops, i, j - 1);
    }
  }

  lemma Shifted16(a: int, b: int, shift: int)
    ensures Sub16(Mod16(a + shift), Mod16(b + shift)) == Sub16(a, b)
  {
  }

  lemma Shifted32(a: int, b: int, shift: int)
    ensures Sub32(Mod32(a + shift), Mod32(b + shift)) == Sub32(a, b)
  {
  }

  /** The very first packet goes out with its own numbers. The first one after each change of mute
      state gets the numbers that follow those of the very first, unless that was number 0: then all
      keep their own. */
  lemma WireRestarts(video: bool, ops: seq<Op>, j: nat)
    requires j < |ops| && Passes(video, ops, j) && Resync(video, ops, j) < 0
    ensures var f, p, out := First(video, ops, j), ops[j].p, OnWire(video, ops, j);
            && out.Forwarded? && out.src == p.sn
            && if f < 0 || ops[f].p.sn == 0 then out.sn == p.sn && out.ts == p.ts
               else out.sn == Mod16(ops[f].p.sn + 1) && out.ts == Mod32(ops[f].p.ts + 1)
  {
    hide First, Resync, Enabled, Live, Mod16, Mod32, Passes;
    NextMarks(video, ops, j);
    Mod16Near(ops[j].p.sn);
    Mod32Near(ops[j].p.ts);
    IsPacket(video, ops, j);
  }

  lemma IsPacket(video: bool, ops: seq<Op>, k: nat)
    requires k < |ops| && Passes(video, ops, k)
    ensures ops[k].DoWrite?
  {
  }

  /** The keyframe 1, a change of mute state and back, and the keyframe 50 go out as 1 and 2. */
  lemma SecondKeyFrame(maxTrack: int)
    ensures State(Bound(true, maxTrack), TWO_KEYS, 4).sent == [Forwarded(1, 1, 10), Forwarded(50, 2, 11)]
  {
    hide State, OnWire, Passes, First, Resync, Enabled, Live, Bound;
    var t := Bound(true, maxTrack);
    TwoKeys();
    WireRestarts(true, TWO_KEYS, 0);
    WireRestarts(true, TWO_KEYS, 3);
    SentFromNothing(maxTrack, TWO_KEYS);
    EveryOutput(true, maxTrack, TWO_KEYS, 0);
    EveryOutput(true, maxTrack, TWO_KEYS, 1);
    EveryOutput(true, maxTrack, TWO_KEYS, 2);
    EveryOutput(true, maxTrack, TWO_KEYS, 3);
    assert OnWire(true, TWO_KEYS, 0) == Forwarded(1, 1, 10);
    assert OnWire(true, TWO_KEYS, 3) == Forwarded(50, 2, 11);
  }

  const TWO_KEYS: seq<Op> := [DoWrite(Source(1, 10, true), Sent), DoMute(true), DoMute(false),
                              DoWrite(Source(50, 500, true), Sent)]

  lemma SentFromNothing(maxTrack: int, ops: seq<Op>)
    ensures State(Bound(true, maxTrack), ops, 0).sent == []
  {
  }

  lemma TwoKeys()
    ensures Passes(true, TWO_KEYS, 0) && Passes(true, TWO_KEYS, 3)
    ensures First(true, TWO_KEYS, 0) < 0 && Resync(true, TWO_KEYS, 0) < 0
    ensures First(true, TWO_KEYS, 3) == 0 && Resync(true, TWO_KEYS, 3) < 0
    ensures Enabled(TWO_KEYS, 0) && Enabled(TWO_KEYS, 3) && Live(TWO_KEYS, 0) && Live(TWO_KEYS, 3)
  {
    assert Enabled(TWO_KEYS, 1) && !Enabled(TWO_KEYS, 2) && Enabled(TWO_KEYS, 3);
    assert First(true, TWO_KEYS, 1) == 0 && First(true, TWO_KEYS, 2) == 0 && First(true, TWO_KEYS, 3) == 0;
  }

  // --------------------------------------------------------------- the index

  /** The calls made on the retransmission index: every packet that passes is pushed, whether it can be
      sent or not, with the numbers it has on the wire. */
  function Calls(video: bool, ops: seq<Op>, i: nat): seq<R.Op>
    requires i <= |ops|
  {
    if i == 0 then []
    else
      Calls(video, ops, i - 1) +
      match ops[i - 1]
      case DoWrite(p, _) =>
        if Passes(video, ops, i - 1) then
          var out := OnWire(video, ops, i - 1);
          [R.DoPush(p.sn, out.sn, out.ts, 0)]
        else []
      case DoNack(sns, now, _) => [R.DoNack(sns, now)]
      case DoRtt(rtt) => [R.DoRtt(rtt)]
      case _ => []
  }

  /** A video track's index is in the state these calls leave it in; other tracks have none. */
  lemma {:induction false} IndexIsRun(video: bool, maxTrack: int, ops: seq<Op>, i: nat)
    requires i <= |ops|
    ensures var calls := Calls(video, ops, i);
            State(Bound(video, maxTrack), ops, i).index ==
            if video then Some(R.State(Q.Empty(maxTrack, 2000), calls, |calls|)) else None
  {
    hide Passes, OnWire, Enabled, Live, Replay, RecordsFor, Recorded, OutSN, OutTS, Q.Push, Q.Requests, Q.SetRtt, Sub16,
         Sub32;
    if i > 0 {
      IndexIsRun(video, maxTrack, ops, i - 1);
      var s, before := State(Bound(video, maxTrack), ops, i - 1), Calls(video, ops, i - 1);
      StateFollows(video, maxTrack, ops, i - 1);
      StepIndex(video, ops, i - 1, s);
      if |Calls(video, ops, i)| > |before| {
        R.StateSnoc(Q.Empty(maxTrack, 2000), before, Calls(video, ops, i)[|before|]);
        assert Calls(video, ops, i) == before + [Calls(video, ops, i)[|before|]];
      } else {
        assert Calls(video, ops, i) == before;
      }
    } else {
      assert Calls(video, ops, 0) == [];
    }
  }

  /** What one operation does to the index */
  lemma StepIndex(video: bool, ops: seq<Op>, i: nat, t: Track)
    requires i < |ops| && Follows(video, ops, i, t)
    ensures var t' := Apply(t, ops[i]);
            t'.index == match t.index
                        case None => None
                        case Some(q) =>
                          match ops[i]
                          case DoWrite(p, _) =>
                            if Passes(video, ops, i) then
                              var out := OnWire(video, ops, i);
                              Some(Q.Push(q, p.sn, out.sn, out.ts, 0))
                            else Some(q)
                          case DoNack(sns, now, _) => Some(Q.Requests(q, sns, now))
                          case DoRtt(rtt) => Some(Q.SetRtt(q, rtt))
                          case _ => Some(q)
  {
    if ops[i].DoWrite? && Passes(video, ops, i) {
      PassedFollows(video, ops, i, t);
    }
    hide OnWire, OutSN, OutTS, Q.Push, Q.Requests, Q.SetRtt, Replay, RecordsFor, Sub16, Sub32;
  }

  /** Over any run, every packet resent for a NACK was on the wire before with the same source number,
      number and timestamp, if it could be sent then. */
  lemma ResentWasForwarded(video: bool, maxTrack: int, ops: seq<Op>, j: nat, out: Output) returns (k: nat)
    requires maxTrack > 0 && j < |ops| && ops[j].DoNack?
    requires State(Bound(video, maxTrack), ops, j).index.Some?
    requires var q := State(Bound(video, maxTrack), ops, j).index.value;
             out in Replay(RecordsFor(q, ops[j].sns, ops[j].now), ops[j].fetch)
    ensures k < j && Passes(video, ops, k) && out.Resent?
    ensures OnWire(video, ops, k) == Forwarded(out.src, out.sn, out.ts)
  {
    k := ResendFaithful(video, maxTrack, ops, j, out);
    StateFollows(video, maxTrack, ops, k);
    hide State, Replay, RecordsFor, OnWire, OutSN, OutTS, Bound;
    PassedFollows(video, ops, k, State(Bound(video, maxTrack), ops, k));
  }
}
