/** The VP8 frame-rate calculator of pkg/buffer/fps.go: a window of 64 frame numbers from a base
    frame, and for each temporal layer the frames its rate is measured between. */
module FrameRate {
  import opened SeqNum
  import opened Wrappers

  datatype Frame = Frame(ts: uint32, fn: uint16, temporal: int)

  /** A rate is measured as a number of frames over a number of clock ticks. */
  datatype Rate = Unknown | Measured(frames: nat, ticks: uint32)

  const LAYERS: int := 4
  const WINDOW: int := 64
  const MAX_DIFF: int := 0x4000

  function MinFrames(t: int): nat {
    match t
    case 0 => 8
    case 1 => 15
    case 2 => 40
    case _ => 0
  }

  /** The code tests frameRates[t] > 0; zero frames make the quotient 0 or not a number. */
  predicate Positive(r: Rate) {
    r.Measured? && r.frames > 0
  }

  datatype State = State(
    rates: seq<Rate>, first: seq<Option<Frame>>, second: seq<Option<Frame>>,
    received: seq<Option<Frame>>, base: Option<Frame>, completed: bool)

  function Nothing(n: nat): (s: seq<Option<Frame>>)
    ensures |s| == n
  {
    seq(n, _ => None)
  }

  function Initial(): State {
    State([Unknown, Unknown, Unknown, Unknown], Nothing(LAYERS), Nothing(LAYERS), Nothing(WINDOW), None, false)
  }

  function Reset(s: State): State {
    s.(first := Nothing(LAYERS), second := Nothing(LAYERS), received := Nothing(WINDOW), base := None)
  }

  // --------------------------------------------------------------- invariant

  /** Distance of a frame from the base */
  function Offset(base: Frame, f: Frame): uint16 {
    Sub16(f.fn, base.fn)
  }

  ghost predicate Stored(s: State, f: Frame)
    requires s.base.Some? && |s.received| == WINDOW
  {
    Offset(s.base.value, f) < WINDOW && s.received[Offset(s.base.value, f)] == Some(f)
  }

  predicate Shaped(s: State) {
    |s.rates| == |s.first| == |s.second| == LAYERS && |s.received| == WINDOW
  }

  ghost predicate Vacant(s: State)
    requires Shaped(s)
  {
    && (forall d :: 0 <= d < WINDOW ==> s.received[d] == None)
    && (forall t :: 0 <= t < LAYERS ==> s.first[t] == None && s.second[t] == None)
  }

  /** Every stored frame sits at its distance from the base; the first and second frame of a layer
      are stored frames, the first strictly before the second. */
  ghost predicate Linked(s: State)
    requires Shaped(s) && s.base.Some?
  {
    && s.received[0] == s.base && !s.completed
    && (forall d :: 0 <= d < WINDOW && s.received[d].Some? ==> Offset(s.base.value, s.received[d].value) == d)
    && (forall t :: 0 <= t < LAYERS && s.first[t].Some? ==> Stored(s, s.first[t].value))
    && (forall t :: 0 <= t < LAYERS && s.second[t].Some? ==>
          && s.first[t].Some? && Stored(s, s.second[t].value)
          && Offset(s.base.value, s.first[t].value) < Offset(s.base.value, s.second[t].value))
  }

  ghost predicate Inv(s: State) {
    Shaped(s) && if s.base.Some? then Linked(s) else Vacant(s)
  }

  // ------------------------------------------------------------- measurement

  /** Frames of layers up to t in the unbroken run from j on, up to stop */
  function CountRun(received: seq<Option<Frame>>, j: int, stop: int, t: int): nat
    requires 0 <= j
    decreases stop - j
  {
    if j > stop || j >= |received| || received[j] == None then 0
    else (if received[j].value.temporal <= t then 1 else 0) + CountRun(received, j + 1, stop, t)
  }

  /** Timestamp of the last of them */
  function LastTs(received: seq<Option<Frame>>, j: int, stop: int, t: int, ts: uint32): uint32
    requires 0 <= j
    decreases stop - j
  {
    if j > stop || j >= |received| || received[j] == None then ts
    else LastTs(received, j + 1, stop, t, if received[j].value.temporal <= t then received[j].value.ts else ts)
  }

  ghost function RunOf(received: seq<Option<Frame>>, j: int, stop: int, t: int): set<int>
    requires 0 <= j
  {
    set d | j <= d <= stop && d < |received|
            && (forall c :: j <= c <= d ==> received[c].Some?) && received[d].value.temporal <= t
  }

  /** The count is that of the frames with no gap before them, */
  lemma {:induction false} CountIsSize(received: seq<Option<Frame>>, j: int, stop: int, t: int)
    requires 0 <= j
    ensures CountRun(received, j, stop, t) == |RunOf(received, j, stop, t)|
    decreases stop - j
  {
    var run := RunOf(received, j, stop, t);
    if j <= stop && j < |received| && received[j].Some? {
      CountIsSize(received, j + 1, stop, t);
      RunStep(received, j, stop, t);
      assert j !in RunOf(received, j + 1, stop, t);
    } else {
      assert run == {};
    }
  }

  /** and the timestamp is that of the furthest of these. */
  lemma {:induction false} LastIsFurthest(received: seq<Option<Frame>>, j: int, stop: int, t: int, ts: uint32, d: int)
    requires 0 <= j && d in RunOf(received, j, stop, t)
    requires forall c :: c in RunOf(received, j, stop, t) ==> c <= d
    ensures LastTs(received, j, stop, t, ts) == received[d].value.ts
    decreases stop - j
  {
    RunStep(received, j, stop, t);
    var rest := RunOf(received, j + 1, stop, t);
    var ts' := if received[j].value.temporal <= t then received[j].value.ts else ts;
    if d == j {
      assert rest == {} by {
        assert forall c :: c in rest ==> c > j;
      }
      LastOfNone(received, j + 1, stop, t, ts');
    } else {
      LastIsFurthest(received, j + 1, stop, t, ts', d);
    }
  }

  lemma {:induction false} LastOfNone(received: seq<Option<Frame>>, j: int, stop: int, t: int, ts: uint32)
    requires 0 <= j && RunOf(received, j, stop, t) == {}
    ensures LastTs(received, j, stop, t, ts) == ts
    decreases stop - j
  {
    if j <= stop && j < |received| && received[j].Some? {
      RunStep(received, j, stop, t);
      assert received[j].value.temporal > t;
      LastOfNone(received, j + 1, stop, t, ts);
    }
  }

  lemma RunStep(received: seq<Option<Frame>>, j: int, stop: int, t: int)
    requires 0 <= j <= stop && j < |received| && received[j].Some?
    ensures RunOf(received, j, stop, t) ==
            RunOf(received, j + 1, stop, t) + if received[j].value.temporal <= t then {j} else {}
  {
    var run, rest := RunOf(received, j, stop, t), RunOf(received, j + 1, stop, t);
    forall d | d in rest ensures d in run {
      forall c | j <= c <= d ensures received[c].Some? {
        assert c > j ==> j + 1 <= c <= d;
      }
    }
  }

  /** What a layer's rate becomes: measured once enough frames lie between its two frames */
  function Measure(s: State, t: int): Option<Rate>
    requires Shaped(s) && 0 <= t < LAYERS && s.base.Some? && s.first[t].Some? && s.second[t].Some?
  {
    var b, f, g := s.base.value, s.first[t].value, s.second[t].value;
    var j, stop := Offset(b, f) + 1, Offset(b, g);
    var n := CountRun(s.received, j, stop, t);
    if n >= MinFrames(t) then Some(Measured(n, Sub32(LastTs(s.received, j, stop, t, f.ts), f.ts))) else None
  }

  datatype Progress = Progress(rates: seq<Rate>, settled: nat)

  /** Layer t settles if its rate is known or measured now, or if a lower layer has settled and
      it has no frames at all. */
  function Settle(s: State, p: Progress, t: int): (r: Progress)
    requires Shaped(s) && 0 <= t < LAYERS && |p.rates| == LAYERS
    ensures |r.rates| == LAYERS && p.settled <= r.settled <= p.settled + 1
  {
    if Positive(p.rates[t]) || (p.settled > 0 && s.first[t] == None) then p.(settled := p.settled + 1)
    else if s.base == None || s.first[t] == None || s.second[t] == None then p
    else
      match Measure(s, t)
      case None => p
      case Some(rate) => Progress(p.rates[t := rate], p.settled + 1)
  }

  function SettleAll(s: State, t: nat): (r: Progress)
    requires Shaped(s) && t <= LAYERS
    ensures |r.rates| == LAYERS && r.settled <= t
  {
    if t == 0 then Progress(s.rates, 0) else Settle(s, SettleAll(s, t - 1), t - 1)
  }

  function Calc(s: State): (r: State)
    requires Shaped(s)
    ensures Shaped(r)
  {
    var p := SettleAll(s, LAYERS);
    if p.settled == LAYERS then Reset(s.(rates := p.rates, completed := true)) else s.(rates := p.rates)
  }

  // ----------------------------------------------------------------- packets

  datatype Packet = Packet(hasVP8: bool, pictureID: uint16, temporal: int, ts: uint32)

  function Layer(p: Packet): int {
    if p.temporal < 0 then 0 else p.temporal
  }

  function FrameOf(p: Packet): Frame {
    Frame(p.ts, p.pictureID, Layer(p))
  }

  /** The frame is new to the window and goes into it. */
  predicate Enters(s: State, p: Packet)
    requires |s.received| == WINDOW
  {
    && !s.completed && p.hasVP8 && p.temporal < LAYERS && s.base.Some?
    && var d := Offset(s.base.value, FrameOf(p));
    0 < d < WINDOW && s.received[d] == None
  }

  /** The frame becomes its layer's first, or its second if it lies further than both. */
  function Insert(s: State, p: Packet): (r: State)
    requires Shaped(s) && Enters(s, p)
    ensures Shaped(r)
  {
    var t, f, d := Layer(p), FrameOf(p), Offset(s.base.value, FrameOf(p));
    var s' := s.(received := s.received[d := Some(f)]);
    if s.first[t] == None then s'.(first := s.first[t := Some(f)])
    else if (s.second[t] == None || s.second[t].value.fn < f.fn) &&
            0 < Sub16(f.fn, s.first[t].value.fn) < MAX_DIFF then s'.(second := s.second[t := Some(f)])
    else s'
  }

  function Recv(s: State, p: Packet): (r: State)
    requires Shaped(s)
    ensures Shaped(r)
  {
    if s.completed || !p.hasVP8 || p.temporal >= LAYERS then s
    else if s.base == None then
      var f := Frame(p.ts, p.pictureID, 0);
      s.(base := Some(f), received := s.received[0 := Some(f)], first := s.first[Layer(p) := Some(f)])
    else
      var d := Offset(s.base.value, FrameOf(p));
      if d == 0 || d > MAX_DIFF then s
      else if d >= WINDOW then Reset(s)
      else if s.received[d].Some? then s
      else Calc(Insert(s, p))
  }

  lemma OffsetsCompare(base: uint16, a: uint16, b: uint16)
    requires Sub16(a, base) < WINDOW && Sub16(b, base) < WINDOW && 0 < Sub16(b, a) < MAX_DIFF
    ensures Sub16(a, base) < Sub16(b, base)
  {
  }

  lemma InsertKeepsInv(s: State, p: Packet)
    requires Inv(s) && Enters(s, p)
    ensures Inv(Insert(s, p))
  {
    var t, f, b := Layer(p), FrameOf(p), s.base.value;
    if s.first[t].Some? && 0 < Sub16(f.fn, s.first[t].value.fn) < MAX_DIFF {
      OffsetsCompare(b.fn, s.first[t].value.fn, f.fn);
    }
    hide Sub16;
  }

  lemma RecvKeepsInv(s: State, p: Packet)
    requires Inv(s)
    ensures Inv(Recv(s, p))
  {
    if Enters(s, p) {
      InsertKeepsInv(s, p);
    }
    hide SettleAll, Insert;
  }

  function Run(ps: seq<Packet>): (s: State)
    ensures Shaped(s)
  {
    if |ps| == 0 then Initial() else Recv(Run(ps[..|ps| - 1]), ps[|ps| - 1])
  }

  /** In every reachable state the four stores agree. */
  lemma {:induction false} RunInv(ps: seq<Packet>)
    ensures Inv(Run(ps))
  {
    if |ps| > 0 {
      RunInv(ps[..|ps| - 1]);
      RecvKeepsInv(Run(ps[..|ps| - 1]), ps[|ps| - 1]);
    }
  }

  // ---------------------------------------------------- what is measured, when

  /** A rate that appears is the number of frames of layers up to t that follow the layer's first
      frame without a gap, up to its second, and there are enough of them. */
  ghost predicate SoundRate(s: State, t: int, r: Rate)
    requires Shaped(s) && 0 <= t < LAYERS
  {
    && s.base.Some? && s.first[t].Some? && s.second[t].Some?
    && var j, stop := Offset(s.base.value, s.first[t].value) + 1, Offset(s.base.value, s.second[t].value);
    && r.Measured? && r.frames == |RunOf(s.received, j, stop, t)| >= MinFrames(t)
    && r.ticks == Sub32(LastTs(s.received, j, stop, t, s.first[t].value.ts), s.first[t].value.ts)
  }

  lemma {:induction false} RatesSound(s: State, n: nat, t: int)
    requires Shaped(s) && n <= LAYERS && 0 <= t < LAYERS
    ensures var r := SettleAll(s, n).rates[t]; r == s.rates[t] || SoundRate(s, t, r)
  {
    if n > 0 {
      RatesSound(s, n - 1, t);
      hide SoundRate, Measure;
      if n - 1 == t && s.base.Some? && s.first[t].Some? && s.second[t].Some? && Measure(s, t).Some? {
        MeasureSound(s, t);
      }
    }
  }

  lemma MeasureSound(s: State, t: int)
    requires Shaped(s) && 0 <= t < LAYERS && s.base.Some? && s.first[t].Some? && s.second[t].Some?
    requires Measure(s, t).Some?
    ensures SoundRate(s, t, Measure(s, t).value)
  {
    hide CountRun, LastTs, RunOf;
    CountIsSize(s.received, Offset(s.base.value, s.first[t].value) + 1, Offset(s.base.value, s.second[t].value), t);
  }

  /** The layer's rate was known, or is measured now. */
  predicate Rated(s: State, t: int)
    requires Shaped(s) && 0 <= t < LAYERS
  {
    Positive(s.rates[t]) || (s.base.Some? && s.first[t].Some? && s.second[t].Some? && Measure(s, t).Some?)
  }

  /** A layer without any frames is settled as well once a lower one is rated. */
  ghost predicate Settled(s: State, t: int)
    requires Shaped(s) && 0 <= t < LAYERS
  {
    Rated(s, t) || (s.first[t] == None && exists u :: 0 <= u < t && Rated(s, u))
  }

  lemma SettleCounts(s: State, p: Progress, t: int)
    requires Shaped(s) && 0 <= t < LAYERS && |p.rates| == LAYERS && p.rates[t] == s.rates[t]
    requires p.settled > 0 <==> exists u :: 0 <= u < t && Rated(s, u)
    ensures Settle(s, p, t).settled == p.settled + (if Settled(s, t) then 1 else 0)
    ensures forall u :: 0 <= u < LAYERS && u != t ==> Settle(s, p, t).rates[u] == p.rates[u]
  {
  }

  lemma {:induction false} SettledCounts(s: State, n: nat)
    requires Shaped(s) && n <= LAYERS
    ensures SettleAll(s, n).settled > 0 <==> exists u :: 0 <= u < n && Rated(s, u)
    ensures SettleAll(s, n).settled == n <==> forall u :: 0 <= u < n ==> Settled(s, u)
    ensures forall u :: n <= u < LAYERS ==> SettleAll(s, n).rates[u] == s.rates[u]
  {
    if n > 0 {
      SettledCounts(s, n - 1);
      SettleCounts(s, SettleAll(s, n - 1), n - 1);
      hide Settle, Rated;
    }
  }

  /** The calculator completes exactly when every layer is settled. */
  lemma CompletesExactly(s: State)
    requires Shaped(s) && !s.completed
    ensures Calc(s).completed <==> forall t :: 0 <= t < LAYERS ==> Settled(s, t)
  {
    SettledCounts(s, LAYERS);
  }

  /** The base was set by packet b and has stood since. */
  ghost predicate BaseSince(ps: seq<Packet>, b: nat) {
    && b < |ps| && Run(ps[..b]).base == None
    && forall k :: b < k <= |ps| ==> Run(ps[..k]).base.Some?
  }

  predicate Counts(p: Packet) {
    p.hasVP8 && p.temporal < LAYERS
  }

  /** A packet at distance d from the base came after it. */
  ghost predicate Seen(ps: seq<Packet>, b: nat, d: int)
    requires b < |ps|
  {
    exists k :: b < k < |ps| && Counts(ps[k]) && Sub16(ps[k].pictureID, ps[b].pictureID) == d
  }

  lemma SeenStep(ps: seq<Packet>, b: nat, d: int)
    requires b < |ps| - 1
    ensures var n := |ps| - 1;
            Seen(ps, b, d) <==>
            Seen(ps[..n], b, d) || (Counts(ps[n]) && Sub16(ps[n].pictureID, ps[b].pictureID) == d)
  {
    hide Counts, Sub16;
    var before := ps[..|ps| - 1];
    if k :| b < k < |ps| && Counts(ps[k]) && Sub16(ps[k].pictureID, ps[b].pictureID) == d {
      assert k < |ps| - 1 ==> before[k] == ps[k];
    }
    if k :| b < k < |before| && Counts(before[k]) && Sub16(before[k].pictureID, before[b].pictureID) == d {
      assert before[k] == ps[k];
    }
  }

  lemma BaseBefore(ps: seq<Packet>, b: nat)
    requires BaseSince(ps, b) && b < |ps| - 1
    ensures BaseSince(ps[..|ps| - 1], b) && Run(ps).base.Some?
  {
    hide Run;
    var before := ps[..|ps| - 1];
    assert ps[..|ps|] == ps;
    assert forall k :: 0 <= k <= |before| ==> before[..k] == ps[..k];
  }

  /** While a base stands, the window holds a frame number exactly when a packet with it came
      after the base: nothing is lost from it and nothing else gets in. */
  lemma {:induction false} WindowExact(ps: seq<Packet>, b: nat, d: int)
    requires BaseSince(ps, b) && 0 < d < WINDOW
    ensures Run(ps).base.Some? && Run(ps).base.value.fn == ps[b].pictureID
    ensures Run(ps).received[d].Some? <==> Seen(ps, b, d)
    decreases |ps|
  {
    hide Sub16, SettleAll, Inv, Recv, Seen;
    var n := |ps| - 1;
    var before := ps[..n];
    RunInv(before);
    if n > b {
      BaseBefore(ps, b);
      WindowExact(before, b, d);
      RecvStores(Run(before), ps[n], d);
      SeenStep(ps, b, d);
    } else {
      assert before == ps[..b] && ps[..|ps|] == ps;
      RecvBase(Run(before), ps[b], d);
      NoneSeen(ps, b, d);
    }
  }

  lemma RecvBase(s: State, p: Packet, d: int)
    requires Inv(s) && s.base == None && Recv(s, p).base.Some? && 0 < d < WINDOW
    ensures Recv(s, p).base.value.fn == p.pictureID && Recv(s, p).received[d] == None
  {
  }

  lemma NoneSeen(ps: seq<Packet>, b: nat, d: int)
    requires b == |ps| - 1
    ensures !Seen(ps, b, d)
  {
  }

  lemma RecvStores(s: State, p: Packet, d: int)
    requires Inv(s) && s.base.Some? && Recv(s, p).base.Some? && 0 < d < WINDOW
    ensures Recv(s, p).base == s.base
    ensures Recv(s, p).received[d].Some? <==>
            s.received[d].Some? || (Counts(p) && Sub16(p.pictureID, s.base.value.fn) == d)
  {
    hide Sub16, SettleAll;
  }

  // ------------------------------------------------------------ what stays put

  /** Once complete, the calculator ignores whatever follows. */
  lemma {:induction false} CompletionPermanent(ps: seq<Packet>, n: nat)
    requires n <= |ps| && Run(ps[..n]).completed
    ensures Run(ps) == Run(ps[..n])
    decreases |ps|
  {
    if n == |ps| {
      assert ps[..n] == ps;
    } else {
      var before := ps[..|ps| - 1];
      assert before[..n] == ps[..n];
      CompletionPermanent(before, n);
    }
  }

  /** A frame number that is the base's, or that was seen since, changes nothing. */
  lemma DuplicateIgnored(ps: seq<Packet>, b: nat, p: Packet)
    requires BaseSince(ps, b)
    requires var d := Sub16(p.pictureID, ps[b].pictureID); d == 0 || (d < WINDOW && Seen(ps, b, d))
    ensures Recv(Run(ps), p) == Run(ps)
  {
    var d := Sub16(p.pictureID, ps[b].pictureID);
    WindowExact(ps, b, if d == 0 then 1 else d);
    hide Sub16, Seen, Run, Calc;
  }

  lemma {:induction false} SettledStick(s: State, n: nat, t: int)
    requires Shaped(s) && n <= LAYERS && 0 <= t < LAYERS && Positive(s.rates[t])
    ensures SettleAll(s, n).rates[t] == s.rates[t]
  {
    if n > 0 {
      SettledStick(s, n - 1, t);
    }
  }

  lemma RecvSticks(s: State, p: Packet, t: int)
    requires Shaped(s) && 0 <= t < LAYERS
    ensures s.completed ==> Recv(s, p).completed
    ensures Positive(s.rates[t]) ==> Recv(s, p).rates[t] == s.rates[t]
  {
    hide SettleAll, Settle;
    if Enters(s, p) && Positive(s.rates[t]) {
      SettledStick(Insert(s, p), LAYERS, t);
    }
  }

  /** A rate, once measured, is not measured again; only completion may still adjust layer 1. */
  lemma {:induction false} RatesStick(ps: seq<Packet>, n: nat, t: int)
    requires n <= |ps| && 0 <= t < LAYERS && Positive(Run(ps[..n]).rates[t])
    requires t == 1 ==> !Run(ps).completed
    ensures Run(ps).rates[t] == Run(ps[..n]).rates[t]
    decreases |ps|
  {
    if n == |ps| {
      assert ps[..n] == ps;
    } else {
      var before, p := ps[..|ps| - 1], ps[|ps| - 1];
      hide Recv, Shaped;
      assert before[..n] == ps[..n];
      RecvSticks(Run(before), p, t);
      RatesStick(before, n, t);
    }
  }

  // --------------------------------------------------------------- the class

  class FrameRateCalculatorVP8 {
    const frameRates: array<Rate>
    const firstFrames: array<Option<Frame>>
    const secondFrames: array<Option<Frame>>
    const fnReceived: array<Option<Frame>>
    var baseFrame: Option<Frame>
    var completed: bool

    ghost function View(): State
      reads this, frameRates, firstFrames, secondFrames, fnReceived
    {
      State(frameRates[..], firstFrames[..], secondFrames[..], fnReceived[..], baseFrame, completed)
    }

    ghost predicate Valid()
      reads this, frameRates, firstFrames, secondFrames, fnReceived
    {
      Inv(View()) && firstFrames != secondFrames && firstFrames != fnReceived && secondFrames != fnReceived
    }

    constructor ()
      ensures Valid() && View() == Initial()
      ensures fresh(frameRates) && fresh(firstFrames) && fresh(secondFrames) && fresh(fnReceived)
    {
      frameRates := new Rate[LAYERS](_ => Unknown);
      firstFrames := new Option<Frame>[LAYERS](_ => None);
      secondFrames := new Option<Frame>[LAYERS](_ => None);
      fnReceived := new Option<Frame>[WINDOW](_ => None);
      baseFrame := None;
      completed := false;
    }

    method Clear()
      requires Shaped(View())
      requires firstFrames != secondFrames && firstFrames != fnReceived && secondFrames != fnReceived
      modifies this`baseFrame, firstFrames, secondFrames, fnReceived
      ensures View() == Reset(old(View()))
    {
      for i := 0 to firstFrames.Length
        invariant forall k :: 0 <= k < i ==> firstFrames[k] == None && secondFrames[k] == None
      {
        firstFrames[i] := None;
        secondFrames[i] := None;
      }
      for i := 0 to fnReceived.Length
        invariant forall k :: 0 <= k < i ==> fnReceived[k] == None
        invariant forall k :: 0 <= k < LAYERS ==> firstFrames[k] == None && secondFrames[k] == None
      {
        fnReceived[i] := None;
      }
      baseFrame := None;
      assert firstFrames[..] == Nothing(LAYERS) && secondFrames[..] == Nothing(LAYERS);
      assert fnReceived[..] == Nothing(WINDOW);
    }

    /** Counts the frames of one layer; every index stays within the 64 slots. */
    method MeasureLayer(t: int) returns (frameCount: nat, ticks: uint32)
      requires Valid() && 0 <= t < LAYERS && firstFrames[t].Some? && secondFrames[t].Some?
      ensures Measure(View(), t) == if frameCount >= MinFrames(t) then Some(Measured(frameCount, ticks)) else None
    {
      var ff, sf, base := firstFrames[t].value, secondFrames[t].value, baseFrame.value;
      ghost var received := fnReceived[..];
      frameCount := 0;
      var lastTs := ff.ts;
      var j := Offset(base, ff) + 1;
      var stop := Offset(base, sf);
      ghost var start := j;
      while j < stop + 1
        invariant start <= j <= stop + 1 <= WINDOW
        invariant frameCount + CountRun(received, j, stop, t) == CountRun(received, start, stop, t)
        invariant LastTs(received, j, stop, t, lastTs) == LastTs(received, start, stop, t, ff.ts)
      {
        var f := fnReceived[j];
        if f == None {
          break;
        }
        if f.value.temporal <= t {
          frameCount := frameCount + 1;
          lastTs := f.value.ts;
        }
        j := j + 1;
      }
      ticks := Sub32(lastTs, ff.ts);
    }

    /** One layer: settled by its rate, by having no frames, or by a measurement now */
    method RateLayer(t: int, rateCounter: nat, ghost s: State, ghost p: Progress) returns (counter: nat)
      requires Valid() && !completed && Inv(s) && 0 <= t < LAYERS && |p.rates| == LAYERS
      requires View() == s.(rates := p.rates) && rateCounter == p.settled
      modifies frameRates
      ensures View() == s.(rates := Settle(s, p, t).rates) && counter == Settle(s, p, t).settled
    {
      assert Shaped(s) && Shaped(View()) && (s.first[t].Some? ==> s.base.Some?);
      hide Inv, Measure;
      counter := rateCounter;
      if Positive(frameRates[t]) || (rateCounter > 0 && firstFrames[t] == None) {
        counter := rateCounter + 1;
      } else if firstFrames[t].Some? && secondFrames[t].Some? {
        MeasureApart(s, p.rates, t);
        var frameCount, ticks := MeasureLayer(t);
        if frameCount >= MinFrames(t) {
          frameRates[t] := Measured(frameCount, ticks);
          counter := rateCounter + 1;
        }
      }
    }

    method UpdateRates() returns (done: bool)
      requires Valid() && !completed
      modifies this, frameRates, firstFrames, secondFrames, fnReceived
      ensures View() == Calc(old(View())) && done == completed
    {
      hide Settle, Measure;
      ghost var s := View();
      var rateCounter := 0;
      for t := 0 to LAYERS
        invariant View() == s.(rates := SettleAll(s, t).rates) && rateCounter == SettleAll(s, t).settled
      {
        RatesApart(s, SettleAll(s, t).rates);
        rateCounter := RateLayer(t, rateCounter, s, SettleAll(s, t));
      }
      if rateCounter == LAYERS {
        completed := true;
        Clear();
        return true;
      }
      return false;
    }

    method RecvPacket(p: Packet) returns (done: bool)
      requires Valid()
      modifies this, frameRates, firstFrames, secondFrames, fnReceived
      ensures Valid() && View() == Recv(old(View()), p)
      ensures done == completed
    {
      ghost var s := View();
      RecvKeepsInv(s, p);
      if completed {
        return true;
      }
      if !p.hasVP8 {
        return false;
      }
      if p.temporal >= LAYERS {
        return false;
      }
      var temporal := if p.temporal < 0 then 0 else p.temporal;
      if baseFrame == None {
        baseFrame := Some(Frame(p.ts, p.pictureID, 0));
        fnReceived[0] := baseFrame;
        firstFrames[temporal] := baseFrame;
        return false;
      }
      var baseDiff := Sub16(p.pictureID, baseFrame.value.fn);
      if baseDiff == 0 || baseDiff > MAX_DIFF {
        return false;
      }
      if baseDiff >= WINDOW {
        Clear();
        return false;
      }
      if fnReceived[baseDiff].Some? {
        return false;
      }
      InsertKeepsInv(s, p);
      StoreFrame(p, temporal, baseDiff);
      done := UpdateRates();
    }

    method StoreFrame(p: Packet, temporal: int, baseDiff: int)
      requires Valid() && Enters(View(), p)
      requires temporal == Layer(p) && baseDiff == Offset(baseFrame.value, FrameOf(p))
      modifies firstFrames, secondFrames, fnReceived
      ensures View() == Insert(old(View()), p)
    {
      assert Shaped(View());
      if firstFrames[temporal].Some? {
        SameOrApart(p.pictureID, firstFrames[temporal].value.fn);
      }
      hide Inv, Sub16;
      var fi := Some(FrameOf(p));
      fnReceived[baseDiff] := fi;
      var firstFrame, secondFrame := firstFrames[temporal], secondFrames[temporal];
      if firstFrame == None {
        firstFrames[temporal] := fi;
      } else if (secondFrame == None || secondFrame.value.fn < p.pictureID) && p.pictureID != firstFrame.value.fn &&
                Sub16(p.pictureID, firstFrame.value.fn) < MAX_DIFF {
        secondFrames[temporal] := fi;
      }
    }
  }

  lemma SameOrApart(a: uint16, b: uint16)
    ensures Sub16(a, b) == 0 <==> a == b
  {
  }

  lemma RatesApart(s: State, rates: seq<Rate>)
    requires Inv(s) && |rates| == LAYERS
    ensures Inv(s.(rates := rates))
  {
  }

  lemma MeasureApart(s: State, rates: seq<Rate>, t: int)
    requires Shaped(s) && 0 <= t < LAYERS && s.base.Some? && s.first[t].Some? && s.second[t].Some?
    requires |rates| == LAYERS
    ensures Measure(s.(rates := rates), t) == Measure(s, t)
  {
  }
}
