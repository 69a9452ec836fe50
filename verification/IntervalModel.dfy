/** Interval reports of pkg/buffer/rtpstats.go: what the walk over the ring counts between
    two 16-bit numbers, and what that is in terms of the numbers that were accepted. */
module IntervalModel {
  import opened SeqNum
  import opened StreamModel

  /** Result of a walk; notFound counts the numbers that have no slot any more. */
  datatype Walk = Walk(stats: IntervalStats, notFound: nat) {
    function Plus(w: Walk): Walk {
      Walk(stats.Plus(w.stats), notFound + w.notFound)
    }
  }

  const NO_STEPS := Walk(ZERO, 0)

  /** One step: a number is taken to be the nearest one at or behind the head. */
  function Step(m: Model, sn: int): Walk {
    var back := Mod16(m.head - sn);
    if back >= WINDOW then Walk(ZERO, 1) else Walk(One(m.got, m.head - back), 0)
  }

  /** n steps from sn on */
  function Steps(m: Model, sn: int, n: nat): Walk {
    if n == 0 then NO_STEPS else Steps(m, sn, n - 1).Plus(Step(m, sn + n - 1))
  }

  /** The walk from startInclusive to endExclusive; equal ends mean a full cycle from 0. */
  function WalkOf(m: Model, startInclusive: uint16, endExclusive: uint16): Walk {
    if startInclusive == endExclusive then Steps(m, 0, MOD16)
    else Steps(m, startInclusive, Sub16(endExclusive, startInclusive))
  }

  lemma WalkPlusAssociates(s: Walk, t: Walk, u: Walk)
    ensures s.Plus(t).Plus(u) == s.Plus(t.Plus(u))
  {
    PlusAssociates(s.stats, t.stats, u.stats);
  }

  lemma {:induction false} StepsSplit(m: Model, sn: int, n: nat, k: nat)
    ensures Steps(m, sn, n + k) == Steps(m, sn, n).Plus(Steps(m, sn + n, k))
    decreases k
  {
    hide Step, IntervalStats.Plus;
    if k == 0 {
      PlusZero(Steps(m, sn, n).stats);
    } else {
      StepsSplit(m, sn, n, k - 1);
      assert sn + n + k - 1 == sn + (n + k) - 1;
      WalkPlusAssociates(Steps(m, sn, n), Steps(m, sn + n, k - 1), Step(m, sn + n + k - 1));
    }
  }

  lemma {:induction false} StepsPeriodic(m: Model, sn: int, sn': int, n: nat)
    requires Mod16(sn - sn') == 0
    ensures Steps(m, sn, n) == Steps(m, sn', n)
    decreases n
  {
    hide Step;
    if n > 0 {
      StepsPeriodic(m, sn, sn', n - 1);
      StepPeriodic(m, sn + n - 1, sn' + n - 1);
    }
  }

  lemma StepPeriodic(m: Model, sn: int, sn': int)
    requires Mod16(sn - sn') == 0
    ensures Step(m, sn) == Step(m, sn')
  {
    assert Mod16(m.head - sn) == Mod16(m.head - sn');
    hide One, Mod16;
  }

  /** A full cycle counts the same wherever it begins. */
  lemma FullCycle(m: Model, a: int)
    ensures Steps(m, 0, MOD16) == Steps(m, a, MOD16)
  {
    hide Steps, Step, IntervalStats.Plus;
    var k := Mod16(a);
    assert Mod16(k - a) == 0 && Mod16(MOD16 - 0) == 0;
    hide Mod16;
    StepsSplit(m, 0, k, MOD16 - k);
    StepsSplit(m, k, MOD16 - k, k);
    StepsPeriodic(m, MOD16, 0, k);
    StepsPeriodic(m, k, a, MOD16);
    WalkPlusCommutes(Steps(m, 0, k), Steps(m, k, MOD16 - k));
  }

  lemma WalkPlusCommutes(s: Walk, t: Walk)
    ensures s.Plus(t) == t.Plus(s)
  {
  }

  /** A step over a number up to the head reads the accepted set. */
  lemma StepAt(m: Model, e: int)
    requires m.head - MOD16 < e <= m.head
    ensures Step(m, e) == if e <= m.head - WINDOW then Walk(ZERO, 1) else Walk(One(m.got, e), 0)
  {
    Mod16Near(m.head - e);
    hide Mod16, One;
  }

  /** Numbers 2048 or more behind the head are not found. */
  lemma {:induction false} StepsForgotten(m: Model, a: int, n: nat)
    requires m.head - MOD16 < a && a + n <= m.head + 1 - WINDOW
    ensures Steps(m, a, n) == Walk(ZERO, n)
    decreases n
  {
    hide Step, Mod16, IntervalStats.Plus;
    PlusZero(ZERO);
    if n > 0 {
      StepsForgotten(m, a, n - 1);
      StepAt(m, a + n - 1);
    }
  }

  /** The last 2048 numbers are tallied. */
  lemma {:induction false} StepsTally(m: Model, a: int, n: nat)
    requires m.head - WINDOW < a && a + n <= m.head + 1
    ensures Steps(m, a, n) == Walk(Tally(m.got, a, a + n), 0)
    decreases n
  {
    hide Step, Tally, One, IntervalStats.Plus;
    if n > 0 {
      StepsTally(m, a, n - 1);
      StepAt(m, a + n - 1);
      TallyLast(m.got, a, a + n - 1);
    } else {
      TallyEmpty(m.got, a);
    }
  }

  lemma WalkIsSteps(m: Model, a: int)
    requires 1 <= m.head + 1 - a <= MOD16
    ensures WalkOf(m, Mod16(a), Mod16(m.head + 1)) == Steps(m, a, m.head + 1 - a)
  {
    hide Steps;
    var n := m.head + 1 - a;
    SubOfMods(m.head + 1, a);
    Mod16Near(n);
    assert Mod16(Mod16(a) - a) == 0;
    hide Mod16, Sub16;
    if n == MOD16 {
      FullCycle(m, a);
    } else {
      StepsPeriodic(m, Mod16(a), a, n);
    }
  }

  /** The walk is exact: over a span of 1 to 65536 numbers that ends at the head, it finds the
      last 2048 of them, and counts each as accepted or lost exactly as the set has it. */
  lemma SpanExact(m: Model, a: int)
    requires 1 <= m.head + 1 - a <= MOD16
    ensures var cut := Max(a, m.head + 1 - WINDOW);
            WalkOf(m, Mod16(a), Mod16(m.head + 1)) == Walk(Tally(m.got, cut, m.head + 1), cut - a)
  {
    hide Steps, WalkOf, Tally, Mod16, IntervalStats.Plus;
    var low := m.head + 1 - WINDOW;
    WalkIsSteps(m, a);
    if a < low {
      StepsForgotten(m, a, low - a);
      StepsTally(m, low, WINDOW);
      StepsSplit(m, a, low - a, WINDOW);
      PlusZero(Tally(m.got, low, m.head + 1));
    } else {
      StepsTally(m, a, m.head + 1 - a);
    }
  }

  /** Packets, padding, lost and not found add up to the length of the span. */
  lemma SpanConserves(m: Model, a: int)
    requires 1 <= m.head + 1 - a <= MOD16
    ensures var w := WalkOf(m, Mod16(a), Mod16(m.head + 1));
            w.stats.packets + w.stats.packetsPadding + w.stats.packetsLost + w.notFound == m.head + 1 - a
  {
    SpanExact(m, a);
    TallyCounts(m.got, Max(a, m.head + 1 - WINDOW), m.head + 1);
  }

  /** While the whole stream fits in the ring the walk and the running counters agree. */
  lemma WalkMatchesTotals(m: Model)
    requires Inv(m) && m.started && m.head - m.start < WINDOW
    ensures WalkOf(m, Mod16(m.start), Mod16(m.head + 1)) == Walk(Totals(m), 0)
  {
    SpanExact(m, m.start);
  }

  // ----------------------------------------------------------------- reports

  /** Numbers of the span [a, head + 1) below this one are forgotten by the ring. */
  function Cut(m: Model, a: int): int {
    Max(a, m.head + 1 - WINDOW)
  }

  /** What a report on [a, head + 1) can still see: the last 2048 numbers of it at most */
  function SpanStats(m: Model, a: int): IntervalStats {
    Tally(m.got, Cut(m, a), m.head + 1)
  }

  /** 256 * lost / expected, rounded down */
  function FractionLost(lost: nat, expected: nat): int
    requires expected > 0
  {
    256 * lost / expected
  }

  /** A span that ends at the head lost fewer packets than it has numbers: the head itself was
      accepted. So the fraction lost of RFC 3550 section 6.4.1 fits its byte. */
  lemma FractionFits(m: Model, a: int)
    requires Inv(m) && m.started && a <= m.head
    ensures SpanStats(m, a).packetsLost < m.head + 1 - a
    ensures 0 <= FractionLost(SpanStats(m, a).packetsLost, m.head + 1 - a) <= 255
  {
    hide Tally;
    var cut := Max(a, m.head + 1 - WINDOW);
    TallyCounts(m.got, cut, m.head + 1);
    assert m.head in Within(m.got, cut, m.head + 1);
    RatioBelowOne(SpanStats(m, a).packetsLost, m.head + 1 - a);
  }

  lemma RatioBelowOne(lost: nat, expected: nat)
    requires lost < expected
    ensures 0 <= 256 * lost / expected <= 255
  {
    var q := 256 * lost / expected;
    assert (q - 256) * expected < 0;
  }

  /** The whole span [a, head + 1), whatever the ring still remembers of it */
  function TrueStats(m: Model, a: int): IntervalStats {
    Tally(m.got, a, m.head + 1)
  }

  lemma SpanParts(m: Model, a: int)
    ensures TrueStats(m, a) == Tally(m.got, a, Cut(m, a)).Plus(SpanStats(m, a))
  {
    hide Tally, IntervalStats.Plus;
    if a <= m.head + 1 {
      TallySplit(m.got, a, Cut(m, a), m.head + 1);
    } else {
      EmptyRange(m.got, a, m.head + 1);
      EmptyRange(m.got, a, a);
      PlusZero(ZERO);
    }
  }

  lemma EmptyRange(got: map<int, SnInfo>, a: int, b: int)
    requires b <= a
    ensures Tally(got, a, b) == ZERO
  {
  }

  /** Every number of [a, b) was accepted. */
  ghost predicate AllAccepted(got: map<int, SnInfo>, a: int, b: int) {
    forall e :: a <= e < b ==> e in got
  }

  /** No number of [a, b) was accepted as padding. */
  ghost predicate NoPadding(got: map<int, SnInfo>, a: int, b: int) {
    forall e :: a <= e < b && e in got ==> !got[e].isPaddingOnly
  }

  lemma {:induction false} TallyPartition(got: map<int, SnInfo>, a: int, b: int)
    requires a <= b
    ensures var t := Tally(got, a, b);
            && t.packets + t.packetsPadding + t.packetsLost == b - a
            && (t.packetsLost == 0 <==> AllAccepted(got, a, b))
            && (t.packetsPadding == 0 <==> NoPadding(got, a, b))
    decreases b - a
  {
    hide Tally;
    if a < b {
      TallyPartition(got, a, b - 1);
      TallyStep(got, a, b);
    } else {
      TallyEmpty(got, a);
    }
  }

  /** A report sees its whole span if and only if that has at most 2048 numbers. */
  lemma SpanSeen(m: Model, a: int)
    ensures SpanStats(m, a) == TrueStats(m, a) <==> m.head + 1 - a <= WINDOW
  {
    SpanParts(m, a);
    TallyPartition(m.got, a, Cut(m, a));
    hide Tally, AllAccepted, NoPadding;
  }

  /** The loss of a report is that of its span if and only if every number it cannot see any more
      was accepted; otherwise it is too low. */
  lemma SpanLossExact(m: Model, a: int)
    ensures SpanStats(m, a).packetsLost <= TrueStats(m, a).packetsLost
    ensures SpanStats(m, a).packetsLost == TrueStats(m, a).packetsLost <==> AllAccepted(m.got, a, Cut(m, a))
  {
    SpanParts(m, a);
    TallyPartition(m.got, a, Cut(m, a));
    hide Tally, AllAccepted, NoPadding;
  }

  /** Numbers of the span less the padding that is seen: these are the packets of the span if and
      only if nothing in it was lost and no padding is out of sight; otherwise it is too many. */
  lemma SpanPacketsExact(m: Model, a: int)
    requires a <= m.head + 1
    ensures var packets := m.head + 1 - a - SpanStats(m, a).packetsPadding;
            && packets >= TrueStats(m, a).packets
            && (packets == TrueStats(m, a).packets <==>
                  AllAccepted(m.got, a, m.head + 1) && NoPadding(m.got, a, Cut(m, a)))
  {
    hide Tally, AllAccepted, NoPadding;
    SpanParts(m, a);
    TallyPartition(m.got, a, Cut(m, a));
    TallyPartition(m.got, a, m.head + 1);
  }

  /** Numbers 0 and 3000 arrive, nothing else: a report on all 3001 numbers shows 2047 of 2999 lost
      packets, and 3001 packets instead of 2. */
  lemma LongSpan()
    ensures var m := Run([Packet(0, 12, 100, 0, false), Packet(3000, 12, 100, 0, false)]);
            && m.start == 0 && m.head == 3000
            && SpanStats(m, 0).packetsLost == 2047 && TrueStats(m, 0).packetsLost == 2999
            && 3001 - SpanStats(m, 0).packetsPadding == 3001 && TrueStats(m, 0).packets == 2
  {
    hide Tally, OneOf;
    var a: Packet, b: Packet := Packet(0, 12, 100, 0, false), Packet(3000, 12, 100, 0, false);
    assert [a, b][..1] == [a] && [a][..0] == [];
    assert Run([]) == EMPTY;
    assert Run([a]) == Receive(EMPTY, a);
    assert Extend(0, 3000) == 3000;
    var m := Run([a, b]);
    assert m == Receive(Run([a]), b) && m.got.Keys == {0, 3000};
    TallyCounts(m.got, 0, 3001);
    TallyCounts(m.got, 953, 3001);
    assert Within(m.got, 0, 3001) == {0, 3000} && Within(m.got, 953, 3001) == {3000};
    TallyPartition(m.got, 0, 3001);
    TallyPartition(m.got, 953, 3001);
    hide Run, Receive, Within;
  }

  function Fraction24(j: int): real {
    j as real / 16777216.0
  }

  /** Computing the ratio in floating point does not change the byte: any rounding that is
      monotone and exact on the multiples of 2^-24 between 0 and 1, as rounding to single
      precision is, gives the same integer part. */
  lemma RoundingHarmless(lost: nat, expected: nat, round: real -> real)
    requires lost < expected <= MOD16
    requires forall x, y :: 0.0 <= x <= y <= 1.0 ==> round(x) <= round(y)
    requires forall j :: 0 <= j <= 0x100_0000 ==> round(Fraction24(j)) == Fraction24(j)
    ensures (round(lost as real / expected as real) * 256.0).Floor == FractionLost(lost, expected)
  {
    var q := 256 * lost / expected;
    var r := round(lost as real / expected as real);
    RatioBelowOne(lost, expected);
    QuotientBounds(256 * lost, expected);
    RealBounds(lost, expected, q);
    var below, above := Fraction24(q * 65536), Fraction24((q + 1) * 65536 - 1);
    assert round(below) == below && round(above) == above;
    assert below <= r <= above;
    assert q as real == below * 256.0 && above * 256.0 < (q + 1) as real;
  }

  lemma QuotientBounds(a: nat, b: nat)
    requires b > 0
    ensures a / b * b <= a <= (a / b + 1) * b - 1
  {
  }

  lemma RealBounds(lost: nat, expected: nat, q: nat)
    requires 0 < expected <= MOD16 && q * expected <= 256 * lost <= (q + 1) * expected - 1
    ensures Fraction24(q * 65536) <= lost as real / expected as real
    ensures lost as real / expected as real <= Fraction24((q + 1) * 65536 - 1)
  {
    var l, n, k := lost as real, expected as real, q as real;
    assert (q * expected) as real == k * n;
    assert ((q + 1) * expected) as real == (k + 1.0) * n;
    QuotientWithin(l, n, k);
  }

  lemma QuotientWithin(l: real, n: real, k: real)
    requires 0.0 < n <= 65536.0 && k * n <= 256.0 * l <= (k + 1.0) * n - 1.0
    ensures k / 256.0 <= l / n <= (k + 1.0) / 256.0 - 1.0 / 16777216.0
  {
    var x := l / n;
    assert x * n == l;
    ScaledWithin(256.0 * x, n, k, 256.0 * l);
  }

  lemma ScaledWithin(y: real, n: real, k: real, m: real)
    requires 0.0 < n <= 65536.0 && y * n == m && k * n <= m <= (k + 1.0) * n - 1.0
    ensures k <= y <= k + 1.0 - 1.0 / 65536.0
  {
    Cancel(k, y, n);
    assert (k + 1.0 - 1.0 / 65536.0) * n >= (k + 1.0) * n - 1.0;
    Cancel(y, k + 1.0 - 1.0 / 65536.0, n);
  }

  lemma Cancel(a: real, b: real, n: real)
    requires n > 0.0 && a * n <= b * n
    ensures a <= b
  {
    assert (b - a) * n >= 0.0;
  }
}
