/** The VP8 frame-rate calculator (pkg/buffer/fps.go) over runs of packets: which frames a layer's rate
    is measured between, when it is measured, and when everything is. */
module FrameRuns {
  import opened SeqNum
  import opened Wrappers
  import opened FrameRate

  // ------------------------------------------------ first and second frames

  /** How far packet k lies from the base, packet b */
  function Distance(ps: seq<Packet>, b: nat, k: nat): uint16
    requires b < |ps| && k < |ps|
  {
    Sub16(ps[k].pictureID, ps[b].pictureID)
  }

  predicate InLayer(p: Packet, t: int) {
    t == if p.temporal < 0 then 0 else p.temporal
  }

  /** Packet k is the first since the base with a number that is 1 to 63 further. */
  ghost predicate Fresh(ps: seq<Packet>, b: nat, k: nat)
    requires b < |ps|
  {
    && b < k < |ps| && Counts(ps[k]) && 0 < Distance(ps, b, k) < 64
    && forall j :: b < j < k && Counts(ps[j]) ==> Distance(ps, b, j) != Distance(ps, b, k)
  }

  /** The packet with a layer's first frame: the base if it is of that layer, else the first fresh one
      of that layer, if any; among the first n packets */
  ghost function FirstIn(ps: seq<Packet>, b: nat, t: int, n: nat): (k: int)
    requires b < n <= |ps|
    ensures -1 <= k < n && (k >= 0 ==> k >= b && InLayer(ps[k], t) && (k == b || Fresh(ps, b, k)))
    ensures forall j :: b <= j < n && InLayer(ps[j], t) && (j == b || Fresh(ps, b, j)) ==> 0 <= k <= j
    decreases n
  {
    if n == b + 1 then (if InLayer(ps[b], t) then b else -1)
    else if FirstIn(ps, b, t, n - 1) >= 0 then FirstIn(ps, b, t, n - 1)
    else if Fresh(ps, b, n - 1) && InLayer(ps[n - 1], t) then n - 1
    else -1
  }

  /** A candidate for the second: fresh, of that layer, later and further than the first */
  ghost predicate Candidate(ps: seq<Packet>, b: nat, t: int, n: nat, k: nat)
    requires b < n <= |ps|
  {
    var f := FirstIn(ps, b, t, n);
    0 <= f < k < n && Fresh(ps, b, k) && InLayer(ps[k], t) && Distance(ps, b, k) > Distance(ps, b, f)
  }

  /** The packet with a layer's second frame: the candidate with the greatest picture ID, if any */
  ghost function SecondIn(ps: seq<Packet>, b: nat, t: int, n: nat): (k: int)
    requires b < n <= |ps|
    ensures -1 <= k < n && (k >= 0 ==> Candidate(ps, b, t, n, k))
    ensures forall j: nat :: Candidate(ps, b, t, n, j) ==> k >= 0 && ps[j].pictureID <= ps[k].pictureID
    decreases n
  {
    if n == b + 1 then -1
    else
      FirstStays(ps, b, t, n);
      var before := SecondIn(ps, b, t, n - 1);
      if Candidate(ps, b, t, n, n - 1) && (before < 0 || ps[before].pictureID < ps[n - 1].pictureID) then n - 1
      else before
  }

  lemma FirstStays(ps: seq<Packet>, b: nat, t: int, n: nat)
    requires b + 1 < n <= |ps|
    ensures FirstIn(ps, b, t, n - 1) >= 0 ==> FirstIn(ps, b, t, n) == FirstIn(ps, b, t, n - 1)
    ensures forall j: nat :: j < n - 1 ==> (Candidate(ps, b, t, n, j) <==> Candidate(ps, b, t, n - 1, j))
  {
  }

  /** The frame packet k leaves; the base's is filed under layer 0. */
  function FrameAt(ps: seq<Packet>, b: nat, k: nat): Frame
    requires k < |ps|
  {
    Frame(ps[k].ts, ps[k].pictureID, if k == b then 0 else if ps[k].temporal < 0 then 0 else ps[k].temporal)
  }

  ghost predicate Holds(ps: seq<Packet>, b: nat, n: nat, s: State)
    requires b < n <= |ps|
  {
    && Shaped(s) && s.base == Some(FrameAt(ps, b, b)) && !s.completed
    && (forall t :: 0 <= t < LAYERS ==>
          var f, g := FirstIn(ps, b, t, n), SecondIn(ps, b, t, n);
          && s.first[t] == (if f >= 0 then Some(FrameAt(ps, b, f)) else None)
          && s.second[t] == (if g >= 0 then Some(FrameAt(ps, b, g)) else None))
    && (forall k :: b < k < n && Fresh(ps, b, k) ==> s.received[Distance(ps, b, k)] == Some(FrameAt(ps, b, k)))
    && (forall d :: 0 < d < 64 && s.received[d].Some? ==>
          exists k :: b < k < n && Counts(ps[k]) && Distance(ps, b, k) == d)
  }

  /** The window takes the next packet exactly when it is fresh. */
  lemma EntersFresh(ps: seq<Packet>, b: nat, n: nat, s: State)
    requires b + 1 < n <= |ps| && Holds(ps, b, n - 1, s)
    ensures Enters(s, ps[n - 1]) <==> Fresh(ps, b, n - 1)
  {
    hide Sub16, FirstIn, SecondIn;
    var d := Distance(ps, b, n - 1);
    if Counts(ps[n - 1]) && 0 < d < 64 {
      if j :| b < j < n - 1 && Counts(ps[j]) && Distance(ps, b, j) == d {
        var k := FirstAt(ps, b, j);
        assert s.received[d].Some?;
      } else {
        assert s.received[d] == None;
      }
    }
  }

  /** The first packet with the number of packet j is fresh. */
  lemma {:induction false} FirstAt(ps: seq<Packet>, b: nat, j: nat) returns (k: nat)
    requires b < j < |ps| && Counts(ps[j]) && 0 < Distance(ps, b, j) < 64
    ensures b < k <= j && Fresh(ps, b, k) && Distance(ps, b, k) == Distance(ps, b, j)
    decreases j
  {
    hide Distance, Counts;
    if l :| b < l < j && Counts(ps[l]) && Distance(ps, b, l) == Distance(ps, b, j) {
      k := FirstAt(ps, b, l);
    } else {
      k := j;
    }
  }

  lemma RecvIsInsert(s: State, p: Packet)
    requires Inv(s) && s.base.Some? && Recv(s, p).base.Some?
    ensures !Enters(s, p) ==> Recv(s, p) == s
    ensures Enters(s, p) ==>
              var s', i := Recv(s, p), Insert(s, p);
              && s'.base == i.base && !s'.completed
              && s'.first == i.first && s'.second == i.second && s'.received == i.received
  {
    hide SettleAll, Sub16;
  }

  lemma NotFresh(ps: seq<Packet>, b: nat, n: nat, s: State)
    requires b + 1 < n <= |ps| && Holds(ps, b, n - 1, s) && !Fresh(ps, b, n - 1)
    ensures Holds(ps, b, n, s)
  {
    hide Sub16, Fresh, Counts;
    forall t | 0 <= t < LAYERS
      ensures FirstIn(ps, b, t, n) == FirstIn(ps, b, t, n - 1) && SecondIn(ps, b, t, n) == SecondIn(ps, b, t, n - 1)
    {
      assert !Candidate(ps, b, t, n, n - 1);
    }
    hide FirstIn, SecondIn, Candidate;
    forall d | 0 < d < 64 && s.received[d].Some?
      ensures exists k :: b < k < n && Counts(ps[k]) && Distance(ps, b, k) == d
    {
      var k :| b < k < n - 1 && Counts(ps[k]) && Distance(ps, b, k) == d;
    }
  }

  lemma Further(base: uint16, a: uint16, c: uint16)
    requires Sub16(a, base) < 64 && Sub16(c, base) < 64
    ensures 0 < Sub16(c, a) < MAX_DIFF <==> Sub16(c, base) > Sub16(a, base)
  {
  }

  lemma FreshHolds(ps: seq<Packet>, b: nat, n: nat, s: State, i: State)
    requires b + 1 < n <= |ps| && Holds(ps, b, n - 1, s) && Fresh(ps, b, n - 1) && Enters(s, ps[n - 1])
    requires i.base == s.base && !i.completed && Shaped(i)
    requires var m := Insert(s, ps[n - 1]); i.first == m.first && i.second == m.second && i.received == m.received
    ensures Holds(ps, b, n, i)
  {
    var p := ps[n - 1];
    forall t | 0 <= t < LAYERS
      ensures var f, g := FirstIn(ps, b, t, n), SecondIn(ps, b, t, n);
              && i.first[t] == (if f >= 0 then Some(FrameAt(ps, b, f)) else None)
              && i.second[t] == (if g >= 0 then Some(FrameAt(ps, b, g)) else None)
    {
      FreshLayer(ps, b, n, s, t);
    }
    hide FirstIn, SecondIn, Candidate;
    FreshWindow(ps, b, n, s);
    hide Sub16, Insert, Fresh, Enters;
  }

  lemma FreshWindow(ps: seq<Packet>, b: nat, n: nat, s: State)
    requires b + 1 < n <= |ps| && Holds(ps, b, n - 1, s) && Fresh(ps, b, n - 1) && Enters(s, ps[n - 1])
    ensures var received := Insert(s, ps[n - 1]).received;
            && |received| == WINDOW
            && (forall k :: b < k < n && Fresh(ps, b, k) ==> received[Distance(ps, b, k)] == Some(FrameAt(ps, b, k)))
            && (forall d :: 0 < d < 64 && received[d].Some? ==>
                  exists k :: b < k < n && Counts(ps[k]) && Distance(ps, b, k) == d)
  {
    hide FirstIn, SecondIn, Candidate, Sub16;
    var received, d0 := Insert(s, ps[n - 1]).received, Distance(ps, b, n - 1);
    assert received == s.received[d0 := Some(FrameAt(ps, b, n - 1))];
    hide Insert, Enters;
    forall k | b < k < n && Fresh(ps, b, k) ensures received[Distance(ps, b, k)] == Some(FrameAt(ps, b, k)) {
      assert k < n - 1 ==> Distance(ps, b, k) != d0;
    }
    forall d | 0 < d < 64 && received[d].Some?
      ensures exists k :: b < k < n && Counts(ps[k]) && Distance(ps, b, k) == d
    {
      if d != d0 {
        var k :| b < k < n - 1 && Counts(ps[k]) && Distance(ps, b, k) == d;
      } else {
        assert Counts(ps[n - 1]);
      }
    }
  }

  /** What storing a frame does to one layer */
  lemma InsertLayer(s: State, p: Packet, t: int)
    requires Shaped(s) && Enters(s, p) && 0 <= t < LAYERS
    ensures var m, mine := Insert(s, p), InLayer(p, t);
            && m.first[t] == (if mine && s.first[t] == None then Some(FrameOf(p)) else s.first[t])
            && m.second[t] ==
               if mine && s.first[t].Some? && 0 < Sub16(p.pictureID, s.first[t].value.fn) < MAX_DIFF &&
                  (s.second[t] == None || s.second[t].value.fn < p.pictureID)
               then Some(FrameOf(p)) else s.second[t]
  {
    hide Sub16;
  }

  /** One layer, when a fresh packet comes in */
  lemma FreshLayer(ps: seq<Packet>, b: nat, n: nat, s: State, t: int)
    requires b + 1 < n <= |ps| && Holds(ps, b, n - 1, s) && Fresh(ps, b, n - 1) && Enters(s, ps[n - 1])
    requires 0 <= t < LAYERS
    ensures var f, g, m := FirstIn(ps, b, t, n), SecondIn(ps, b, t, n), Insert(s, ps[n - 1]);
            && m.first[t] == (if f >= 0 then Some(FrameAt(ps, b, f)) else None)
            && m.second[t] == (if g >= 0 then Some(FrameAt(ps, b, g)) else None)
  {
    InsertLayer(s, ps[n - 1], t);
    NextCandidate(ps, b, n, t);
    hide Insert, Enters, Fresh, Candidate, Sub16;
  }

  lemma NextCandidate(ps: seq<Packet>, b: nat, n: nat, t: int)
    requires b + 1 < n <= |ps| && Fresh(ps, b, n - 1)
    ensures var f := FirstIn(ps, b, t, n - 1);
            && (f < 0 ==> SecondIn(ps, b, t, n - 1) == -1 && !Candidate(ps, b, t, n, n - 1))
            && (f >= 0 ==>
                  (Candidate(ps, b, t, n, n - 1) <==>
                     InLayer(ps[n - 1], t) && 0 < Sub16(ps[n - 1].pictureID, ps[f].pictureID) < MAX_DIFF))
  {
    var f := FirstIn(ps, b, t, n - 1);
    hide FirstIn;
    FirstStays(ps, b, t, n);
    if f >= 0 {
      FirstNear(ps, b, f);
      Further(ps[b].pictureID, ps[f].pictureID, ps[n - 1].pictureID);
    } else {
      NoFirst(ps, b, t, n);
    }
    hide Sub16;
  }

  lemma FirstNear(ps: seq<Packet>, b: nat, k: nat)
    requires b <= k < |ps| && (k == b || Fresh(ps, b, k))
    ensures Distance(ps, b, k) < 64
  {
  }

  lemma NoFirst(ps: seq<Packet>, b: nat, t: int, n: nat)
    requires b + 1 < n <= |ps| && FirstIn(ps, b, t, n - 1) < 0
    ensures SecondIn(ps, b, t, n - 1) == -1 && !Candidate(ps, b, t, n, n - 1)
  {
  }

  lemma BaseHolds(ps: seq<Packet>, b: nat, s: State)
    requires b < |ps| && Inv(s) && s.base == None && Recv(s, ps[b]).base.Some?
    ensures Holds(ps, b, b + 1, Recv(s, ps[b]))
  {
    hide Sub16, Fresh;
  }

  /** While a base stands the stores are those of the packets since: for each layer the first frame is
      that of its first fresh packet, or of the base; the second is that of the candidate with the
      greatest picture ID; and each fresh packet's frame is in the window. */
  lemma {:induction false} RunHolds(ps: seq<Packet>, b: nat, n: nat)
    requires BaseSince(ps, b) && b < n <= |ps|
    ensures Holds(ps, b, n, Run(ps[..n]))
    decreases n
  {
    hide Recv, Holds, Inv, Fresh, Enters;
    var s, p := Run(ps[..n - 1]), ps[n - 1];
    assert ps[..n][..n - 1] == ps[..n - 1];
    RunInv(ps[..n - 1]);
    if n == b + 1 {
      BaseHolds(ps, b, s);
    } else {
      RunHolds(ps, b, n - 1);
      StepHolds(ps, b, n, s);
    }
  }

  lemma StepHolds(ps: seq<Packet>, b: nat, n: nat, s: State)
    requires b + 1 < n <= |ps| && Inv(s) && Holds(ps, b, n - 1, s) && Recv(s, ps[n - 1]).base.Some?
    ensures Holds(ps, b, n, Recv(s, ps[n - 1]))
  {
    EntersFresh(ps, b, n, s);
    assert s.base.Some? && Shaped(Recv(s, ps[n - 1]));
    hide Holds, Recv, Fresh, Inv;
    RecvIsInsert(s, ps[n - 1]);
    if Enters(s, ps[n - 1]) {
      assert Insert(s, ps[n - 1]).base == s.base;
      FreshHolds(ps, b, n, s, Recv(s, ps[n - 1]));
    } else {
      NotFresh(ps, b, n, s);
    }
  }

  // ------------------------------------------------------- when a rate is measured

  /** Frames needed between a layer's two frames */
  function Needed(t: int): nat {
    if t == 0 then 8 else if t == 1 then 15 else if t == 2 then 40 else 0
  }

  /** Enough frames of layers up to t follow the layer's first without a gap, up to its second. */
  ghost predicate Due(s: State, t: int)
    requires Shaped(s) && 0 <= t < LAYERS && s.base.Some?
  {
    && s.first[t].Some? && s.second[t].Some?
    && var base := s.base.value.fn;
       |RunOf(s.received, Sub16(s.first[t].value.fn, base) + 1, Sub16(s.second[t].value.fn, base), t)| >= Needed(t)
  }

  ghost predicate UpToDate(s: State)
    requires Shaped(s)
  {
    s.base.Some? ==>
      forall t :: 0 <= t < LAYERS && Due(s, t) ==> s.rates[t].Measured? && (t <= 2 ==> Positive(s.rates[t]))
  }

  lemma DueMeasures(s: State, t: int)
    requires Shaped(s) && 0 <= t < LAYERS && s.base.Some? && s.first[t].Some? && s.second[t].Some?
    ensures Measure(s, t).Some? <==> Due(s, t)
    ensures Measure(s, t).Some? ==> Measure(s, t).value.Measured? && Measure(s, t).value.frames >= Needed(t)
  {
    hide RunOf, CountRun, LastTs;
    CountIsSize(s.received, Offset(s.base.value, s.first[t].value) + 1, Offset(s.base.value, s.second[t].value), t);
  }

  lemma {:induction false} SettleRates(s: State, n: nat, t: int)
    requires Shaped(s) && 0 <= t < n <= LAYERS && s.base.Some? && s.first[t].Some? && s.second[t].Some?
    ensures SettleAll(s, n).rates[t] ==
            if Positive(s.rates[t]) then s.rates[t]
            else match Measure(s, t) case None => s.rates[t] case Some(rate) => rate
    decreases n
  {
    hide Measure;
    if t < n - 1 {
      SettleRates(s, n - 1, t);
    } else {
      hide Rated, Settled;
      SettledCounts(s, n - 1);
    }
  }

  lemma CalcUpToDate(s: State)
    requires Shaped(s)
    ensures UpToDate(Calc(s))
  {
    hide SettleAll, Settle, Due, Measure;
    var s' := Calc(s);
    if s'.base.Some? {
      forall t | 0 <= t < LAYERS && Due(s', t) ensures s'.rates[t].Measured? && (t <= 2 ==> Positive(s'.rates[t])) {
        DueSame(s, s', t);
        DueMeasures(s, t);
        SettleRates(s, LAYERS, t);
      }
    }
  }

  lemma DueSame(s: State, s': State, t: int)
    requires Shaped(s) && Shaped(s') && 0 <= t < LAYERS && s.base.Some? && s'.base == s.base
    requires s'.first == s.first && s'.second == s.second && s'.received == s.received && Due(s', t)
    ensures Due(s, t) && s.first[t].Some? && s.second[t].Some?
  {
  }

  /** In every reachable state each layer that is due has its rate. */
  lemma {:induction false} RatedWhenDue(ps: seq<Packet>)
    ensures UpToDate(Run(ps))
  {
    hide Calc, Insert, Due, Sub16;
    if |ps| > 0 {
      var s, p := Run(ps[..|ps| - 1]), ps[|ps| - 1];
      RatedWhenDue(ps[..|ps| - 1]);
      RunInv(ps[..|ps| - 1]);
      if Enters(s, p) {
        CalcUpToDate(Insert(s, p));
      } else if s.base == None {
        NothingDue(s, p);
      }
    }
  }

  lemma NothingDue(s: State, p: Packet)
    requires Inv(s) && s.base == None
    ensures UpToDate(Recv(s, p))
  {
    hide RunOf, Sub16;
  }

  // ------------------------------------------------- resets and ignored packets

  /** What a packet that the window does not take does: 64 to 16384 ahead of the base it empties all
      stores but the rates; at the base's number, further ahead or behind, it does nothing. */
  lemma RecvResets(s: State, p: Packet)
    requires Shaped(s) && s.base.Some? && !s.completed && p.hasVP8 && p.temporal < 4
    ensures var d := Sub16(p.pictureID, s.base.value.fn);
            && (d == 0 || d > 0x4000 ==> Recv(s, p) == s)
            && (64 <= d <= 0x4000 ==>
                  var s' := Recv(s, p);
                  && s'.base == None && s'.rates == s.rates && !s'.completed
                  && (forall t :: 0 <= t < 4 ==> s'.first[t] == None && s'.second[t] == None)
                  && (forall k :: 0 <= k < 64 ==> s'.received[k] == None))
  {
    hide Calc, Insert;
  }

  /** A packet that is no VP8, or of a fourth temporal layer above, does nothing, nor does any packet
      after completion. */
  lemma RecvIgnores(s: State, p: Packet)
    requires Shaped(s) && (s.completed || !p.hasVP8 || p.temporal > 3)
    ensures Recv(s, p) == s
  {
  }

  /** Picture IDs have 7 or 15 bits: after they wrap around, every packet is ignored until they have
      passed the base again. */
  lemma WrappedIgnored(s: State, p: Packet)
    requires Shaped(s) && s.base.Some? && p.pictureID <= s.base.value.fn < 0x8000
    ensures Recv(s, p) == s
  {
    if p.pictureID < s.base.value.fn {
      Mod16Near(p.pictureID - s.base.value.fn);
      assert Sub16(p.pictureID, s.base.value.fn) > 0x4000;
    }
  }

  // ------------------------------------------------- nine frames in one layer

  /** Nine packets with successive picture IDs, all of layer 0 */
  predicate Nine(ps: seq<Packet>) {
    && |ps| == 9 && ps[0].pictureID < 65000
    && forall k :: 0 <= k < 9 ==> ps[k].hasVP8 && ps[k].temporal == 0 && ps[k].pictureID == ps[0].pictureID + k
  }

  /** After the first n of them */
  ghost predicate Progressed(ps: seq<Packet>, n: nat, s: State)
    requires |ps| == 9
  {
    && 1 <= n <= 8 && Shaped(s) && !s.completed && s.rates == [Unknown, Unknown, Unknown, Unknown]
    && s.base == Some(FrameOf(ps[0])) == s.first[0]
    && s.second[0] == (if n == 1 then None else Some(FrameOf(ps[n - 1])))
    && (forall t :: 1 <= t < LAYERS ==> s.first[t] == None && s.second[t] == None)
    && (forall d :: 0 <= d < WINDOW ==> s.received[d] == if d < n then Some(FrameOf(ps[d])) else None)
  }

  lemma {:induction false} FullRun(received: seq<Option<Frame>>, j: int, stop: int, ts: uint32)
    requires 0 <= j <= stop < |received|
    requires forall d :: j <= d <= stop ==> received[d].Some? && received[d].value.temporal == 0
    ensures CountRun(received, j, stop, 0) == stop - j + 1
    ensures LastTs(received, j, stop, 0, ts) == received[stop].value.ts
    decreases stop - j
  {
    if j < stop {
      FullRun(received, j + 1, stop, received[j].value.ts);
    }
  }

  /** The next packet becomes the second frame; with the ninth the layer is measured. */
  lemma NextOfNine(ps: seq<Packet>, n: nat, s: State)
    requires Nine(ps) && Progressed(ps, n, s)
    ensures Enters(s, ps[n])
    ensures var m := Insert(s, ps[n]);
            && m == s.(received := s.received[n := Some(FrameOf(ps[n]))], second := s.second[0 := Some(FrameOf(ps[n]))])
            && m.base.Some? && m.first[0].Some? && m.second[0].Some?
            && Measure(m, 0) == if n < 8 then None else Some(Measured(8, Sub32(ps[8].ts, ps[0].ts)))
  {
    hide CountRun, LastTs;
    Mod16Near(n);
    Mod16Near(0);
    var m := s.(received := s.received[n := Some(FrameOf(ps[n]))], second := s.second[0 := Some(FrameOf(ps[n]))]);
    assert Sub16(ps[n].pictureID, ps[0].pictureID) == n;
    FullRun(m.received, 1, n, ps[0].ts);
  }

  lemma CalcOfNine(s: State)
    requires Shaped(s) && !s.completed && s.rates == [Unknown, Unknown, Unknown, Unknown]
    requires s.base.Some? && s.first[0].Some? && s.second[0].Some?
    requires forall t :: 1 <= t < LAYERS ==> s.first[t] == None
    ensures match Measure(s, 0)
            case None => Calc(s) == s
            case Some(rate) => Positive(rate) ==> Calc(s).completed && Calc(s).rates[0] == rate
  {
    hide Measure;
    assert SettleAll(s, 0) == Progress(s.rates, 0);
    assert SettleAll(s, 1) == Settle(s, SettleAll(s, 0), 0);
    assert SettleAll(s, 2) == Settle(s, SettleAll(s, 1), 1);
    assert SettleAll(s, 3) == Settle(s, SettleAll(s, 2), 2);
    assert SettleAll(s, 4) == Settle(s, SettleAll(s, 3), 3);
  }

  lemma {:induction false} NineProgress(ps: seq<Packet>, n: nat)
    requires Nine(ps) && 1 <= n <= 8
    ensures Progressed(ps, n, Run(ps[..n]))
  {
    if n == 1 {
      assert ps[..1][..0] == [];
      hide Calc, Insert;
    } else {
      NineProgress(ps, n - 1);
      var s := Run(ps[..n - 1]);
      assert ps[..n][..n - 1] == ps[..n - 1];
      NextOfNine(ps, n - 1, s);
      CalcOfNine(Insert(s, ps[n - 1]));
      hide Calc, Insert, Measure, Sub16;
    }
  }

  /** Nine frames with successive numbers in layer 0 measure it, from eight frames, and complete the
      calculation: no other layer has frames. */
  lemma NineComplete(ps: seq<Packet>)
    requires Nine(ps)
    ensures Run(ps).completed && Run(ps).rates[0] == Measured(8, Sub32(ps[8].ts, ps[0].ts))
  {
    NineProgress(ps, 8);
    NextOfNine(ps, 8, Run(ps[..8]));
    CalcOfNine(Insert(Run(ps[..8]), ps[8]));
    hide Calc, Insert, Measure, Sub16;
  }
}
