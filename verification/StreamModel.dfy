/** Reference model of the receive statistics kept by pkg/buffer/rtpstats.go.

    The model has no ring, no 16-bit arithmetic and no loss counter: it is a map
    from the extended numbers that were accepted to what is remembered about
    them, an extended start and an extended head. Lost packets are simply the
    numbers between start and head that the map does not have. */
module StreamModel {
  import opened SeqNum

  /** What the ring remembers about one sequence number; size 0 means "lost". */
  datatype SnInfo = SnInfo(pktSize: nat, hdrSize: nat, isPaddingOnly: bool, marker: bool)

  const LOST := SnInfo(0, 0, false, false)

  /** Size of the ring, and so how far back single packets are remembered. */
  const WINDOW: int := 2048

  datatype RawPacket = Packet(sn: uint16, hdrSize: nat, payloadSize: nat, paddingSize: nat, marker: bool) {
    function Size(): nat {
      hdrSize + payloadSize + paddingSize
    }
  }

  /** Packets as they come from a UDP socket: a 12-byte fixed header at least,
      and fewer than 65536 bytes in all. */
  type Packet = p: RawPacket | 12 <= p.hdrSize && p.Size() <= 0xFFFF
    witness Packet(0, 12, 0, 0, false)

  function InfoOf(p: Packet): SnInfo {
    SnInfo(p.Size(), p.hdrSize, p.payloadSize == 0, p.marker)
  }

  // ---------------------------------------------------------------- tallies

  /** Counters over a range of extended numbers (IntervalStats in the code). */
  datatype IntervalStats = IntervalStats(
    packets: nat, bytes: nat, headerBytes: nat,
    packetsPadding: nat, bytesPadding: nat, headerBytesPadding: nat,
    packetsLost: nat, frames: nat)
  {
    function Plus(s: IntervalStats): IntervalStats {
      IntervalStats(packets + s.packets, bytes + s.bytes, headerBytes + s.headerBytes,
                    packetsPadding + s.packetsPadding, bytesPadding + s.bytesPadding,
                    headerBytesPadding + s.headerBytesPadding,
                    packetsLost + s.packetsLost, frames + s.frames)
    }
  }

  const ZERO := IntervalStats(0, 0, 0, 0, 0, 0, 0, 0)

  function LostN(n: nat): IntervalStats {
    ZERO.(packetsLost := n)
  }

  /** Contribution of one accepted packet */
  function OneOf(i: SnInfo): IntervalStats {
    var f := if i.marker then 1 else 0;
    if i.isPaddingOnly then IntervalStats(0, 0, 0, 1, i.pktSize, i.hdrSize, 0, f)
    else IntervalStats(1, i.pktSize, i.hdrSize, 0, 0, 0, 0, f)
  }

  /** Contribution of one extended number */
  function One(got: map<int, SnInfo>, e: int): IntervalStats {
    if e in got then OneOf(got[e]) else LostN(1)
  }

  /** Sum over the extended numbers in [a, b) */
  function Tally(got: map<int, SnInfo>, a: int, b: int): IntervalStats
    decreases b - a
  {
    if a >= b then ZERO else Tally(got, a, b - 1).Plus(One(got, b - 1))
  }

  lemma PlusZero(s: IntervalStats)
    ensures s.Plus(ZERO) == s && ZERO.Plus(s) == s
  {
  }

  lemma {:induction false} TallyEmpty(got: map<int, SnInfo>, a: int)
    ensures Tally(got, a, a) == ZERO
  {
  }

  lemma {:induction false} TallyStep(got: map<int, SnInfo>, a: int, b: int)
    requires a < b
    ensures Tally(got, a, b) == Tally(got, a, b - 1).Plus(One(got, b - 1))
  {
  }

  lemma PlusAssociates(s: IntervalStats, t: IntervalStats, u: IntervalStats)
    ensures s.Plus(t).Plus(u) == s.Plus(t.Plus(u))
  {
  }

  lemma {:induction false} TallySplit(got: map<int, SnInfo>, a: int, b: int, c: int)
    requires a <= b <= c
    ensures Tally(got, a, c) == Tally(got, a, b).Plus(Tally(got, b, c))
    decreases c - b
  {
    hide Tally, One, IntervalStats.Plus;
    if b < c {
      TallySplit(got, a, b, c - 1);
      TallyStep(got, a, c);
      TallyStep(got, b, c);
      PlusAssociates(Tally(got, a, b), Tally(got, b, c - 1), One(got, c - 1));
    } else {
      TallyEmpty(got, b);
      PlusZero(Tally(got, a, b));
    }
  }

  lemma {:induction false} TallyMiddle(got: map<int, SnInfo>, a: int, b: int, e: int)
    requires a <= e < b
    ensures Tally(got, a, b) == Tally(got, a, e).Plus(One(got, e)).Plus(Tally(got, e + 1, b))
  {
    TallyStep(got, a, e + 1);
    TallySplit(got, a, e + 1, b);
  }

  lemma {:induction false} TallyFrame(got: map<int, SnInfo>, got': map<int, SnInfo>, a: int, b: int)
    requires forall e :: a <= e < b ==> One(got, e) == One(got', e)
    ensures Tally(got, a, b) == Tally(got', a, b)
    decreases b - a
  {
    if a < b {
      TallyFrame(got, got', a, b - 1);
      assert One(got, b - 1) == One(got', b - 1);
    }
  }

  lemma {:induction false} TallyGap(got: map<int, SnInfo>, a: int, b: int)
    requires a <= b
    requires forall e :: a <= e < b ==> e !in got
    ensures Tally(got, a, b) == LostN(b - a)
    decreases b - a
  {
    if a < b {
      TallyGap(got, a, b - 1);
    }
  }

  lemma FillSum(n: IntervalStats, n': IntervalStats, x: IntervalStats, y: IntervalStats,
                s: IntervalStats, t: IntervalStats)
    requires n == x.Plus(s).Plus(y) && n' == x.Plus(t).Plus(y)
    ensures n'.Plus(s) == n.Plus(t)
  {
  }

  /** A late packet turns one lost number into an accepted one. */
  lemma TallyFill(got: map<int, SnInfo>, a: int, b: int, e: int, i: SnInfo)
    requires a <= e < b && e !in got
    ensures Tally(got[e := i], a, b).Plus(LostN(1)) == Tally(got, a, b).Plus(OneOf(i))
  {
    var got' := got[e := i];
    TallyFrame(got, got', a, e);
    TallyFrame(got, got', e + 1, b);
    TallyMiddle(got, a, b, e);
    TallyMiddle(got', a, b, e);
    FillSum(Tally(got, a, b), Tally(got', a, b), Tally(got, a, e), Tally(got, e + 1, b), LostN(1), OneOf(i));
  }

  lemma TallyPadBack(got: map<int, SnInfo>, a: int, b: int, c: int)
    requires a <= b <= c && forall e :: b <= e < c ==> e !in got
    ensures Tally(got, a, c) == Tally(got, a, b).Plus(LostN(c - b))
  {
    TallyGap(got, b, c);
    TallySplit(got, a, b, c);
  }

  lemma TallyPadFront(got: map<int, SnInfo>, a: int, b: int, c: int)
    requires a <= b <= c && forall e :: a <= e < b ==> e !in got
    ensures Tally(got, a, c) == LostN(b - a).Plus(Tally(got, b, c))
  {
    TallyGap(got, a, b);
    TallySplit(got, a, b, c);
  }

  lemma TallyLast(got: map<int, SnInfo>, a: int, b: int)
    requires a <= b
    ensures Tally(got, a, b + 1) == Tally(got, a, b).Plus(One(got, b))
  {
    TallyStep(got, a, b + 1);
  }

  lemma TallyFirst(got: map<int, SnInfo>, a: int, b: int)
    requires a < b
    ensures Tally(got, a, b) == One(got, a).Plus(Tally(got, a + 1, b))
  {
    TallyStep(got, a, a + 1);
    TallyEmpty(got, a);
    PlusZero(One(got, a));
    TallySplit(got, a, a + 1, b);
  }

  lemma JumpSum(n: IntervalStats, one: IntervalStats, gap: IntervalStats, rest: IntervalStats, m: IntervalStats)
    requires n == m.Plus(one) && m == rest.Plus(gap)
    ensures n == rest.Plus(gap).Plus(one)
  {
  }

  /** A packet ahead of h adds the numbers it skips as lost, and itself. */
  lemma TallyJump(got: map<int, SnInfo>, a: int, h: int, e: int, i: SnInfo)
    requires a - 1 <= h < e && forall k :: k in got ==> k <= h
    ensures Tally(got[e := i], a, e + 1) == Tally(got, a, h + 1).Plus(LostN(e - h - 1)).Plus(OneOf(i))
  {
    hide Tally, OneOf, LostN, IntervalStats.Plus;
    var got' := got[e := i];
    TallyFrame(got, got', a, h + 1);
    TallyPadBack(got', a, h + 1, e);
    TallyLast(got', a, e);
    JumpSum(Tally(got', a, e + 1), OneOf(i), LostN(e - h - 1), Tally(got, a, h + 1), Tally(got', a, e));
  }

  lemma BelowSum(n: IntervalStats, one: IntervalStats, gap: IntervalStats, rest: IntervalStats, m: IntervalStats)
    requires n == one.Plus(m) && m == gap.Plus(rest)
    ensures n == rest.Plus(gap).Plus(one)
  {
  }

  /** A packet below the start a does the same at the other end. */
  lemma TallyBelow(got: map<int, SnInfo>, a: int, b: int, e: int, i: SnInfo)
    requires e < a <= b && forall k :: k in got ==> a <= k
    ensures Tally(got[e := i], e, b) == Tally(got, a, b).Plus(LostN(a - e - 1)).Plus(OneOf(i))
  {
    var got' := got[e := i];
    TallyFrame(got, got', a, b);
    TallyPadFront(got', e + 1, a, b);
    TallyFirst(got', e, b);
    BelowSum(Tally(got', e, b), OneOf(i), LostN(a - e - 1), Tally(got, a, b), Tally(got', e + 1, b));
  }

  ghost function Within(got: map<int, SnInfo>, a: int, b: int): set<int> {
    set e | e in got.Keys && a <= e < b
  }

  /** The tally counts sets: accepted numbers and missing numbers of the range. */
  lemma {:induction false} TallyCounts(got: map<int, SnInfo>, a: int, b: int)
    requires a <= b
    ensures var t := Tally(got, a, b);
            && t.packets + t.packetsPadding == |Within(got, a, b)|
            && t.packetsLost == b - a - |Within(got, a, b)|
    decreases b - a
  {
    if a < b {
      TallyCounts(got, a, b - 1);
      var w, w' := Within(got, a, b - 1), Within(got, a, b);
      if b - 1 in got {
        assert w' == w + {b - 1};
      } else {
        assert w' == w;
      }
    } else {
      assert Within(got, a, b) == {};
    }
  }

  // ---------------------------------------------- what the counters of a tally are

  predicate IsPayload(i: SnInfo) { !i.isPaddingOnly }
  predicate IsPadding(i: SnInfo) { i.isPaddingOnly }
  predicate IsMarked(i: SnInfo) { i.marker }

  /** The accepted numbers of a range with a property */
  ghost function Picked(got: map<int, SnInfo>, a: int, b: int, pick: SnInfo -> bool): set<int> {
    set e | e in got.Keys && a <= e < b && pick(got[e])
  }

  /** Total size of the accepted packets of a range, of padding or of all others */
  function SizeSum(got: map<int, SnInfo>, a: int, b: int, padding: bool): nat
    decreases b - a
  {
    if a >= b then 0
    else (if a in got && got[a].isPaddingOnly == padding then got[a].pktSize else 0) + SizeSum(got, a + 1, b, padding)
  }

  /** Total size of their headers */
  function HeaderSum(got: map<int, SnInfo>, a: int, b: int, padding: bool): nat
    decreases b - a
  {
    if a >= b then 0
    else (if a in got && got[a].isPaddingOnly == padding then got[a].hdrSize else 0) + HeaderSum(got, a + 1, b, padding)
  }

  lemma PickedLast(got: map<int, SnInfo>, a: int, b: int, pick: SnInfo -> bool)
    requires a < b
    ensures |Picked(got, a, b, pick)| ==
            |Picked(got, a, b - 1, pick)| + if b - 1 in got && pick(got[b - 1]) then 1 else 0
  {
    var w, w' := Picked(got, a, b - 1, pick), Picked(got, a, b, pick);
    if b - 1 in got && pick(got[b - 1]) {
      assert w' == w + {b - 1};
    } else {
      assert w' == w;
    }
  }

  lemma {:induction false} SumsLast(got: map<int, SnInfo>, a: int, b: int, padding: bool)
    requires a < b
    ensures SizeSum(got, a, b, padding) == SizeSum(got, a, b - 1, padding) +
            if b - 1 in got && got[b - 1].isPaddingOnly == padding then got[b - 1].pktSize else 0
    ensures HeaderSum(got, a, b, padding) == HeaderSum(got, a, b - 1, padding) +
            if b - 1 in got && got[b - 1].isPaddingOnly == padding then got[b - 1].hdrSize else 0
    decreases b - a
  {
    if a < b - 1 {
      SumsLast(got, a + 1, b, padding);
    }
  }

  /** Every counter of a tally, told from the accepted numbers of the range: packets, padding and frames
      count those with payload, without, and with a marker; bytes and header bytes are their sums. */
  lemma {:induction false} TallyFields(got: map<int, SnInfo>, a: int, b: int)
    requires a <= b
    ensures var t := Tally(got, a, b);
            && t.packets == |Picked(got, a, b, IsPayload)| && t.packetsPadding == |Picked(got, a, b, IsPadding)|
            && t.frames == |Picked(got, a, b, IsMarked)|
            && t.packetsLost == b - a - |Within(got, a, b)|
            && t.bytes == SizeSum(got, a, b, false) && t.bytesPadding == SizeSum(got, a, b, true)
            && t.headerBytes == HeaderSum(got, a, b, false) && t.headerBytesPadding == HeaderSum(got, a, b, true)
    decreases b - a
  {
    hide Tally, Picked, SizeSum, HeaderSum;
    TallyCounts(got, a, b);
    if a < b {
      TallyFields(got, a, b - 1);
      TallyStep(got, a, b);
      PickedLast(got, a, b, IsPayload);
      PickedLast(got, a, b, IsPadding);
      PickedLast(got, a, b, IsMarked);
      SumsLast(got, a, b, false);
      SumsLast(got, a, b, true);
    } else {
      TallyEmpty(got, a);
      NothingPicked(got, a);
    }
  }

  lemma NothingPicked(got: map<int, SnInfo>, a: int)
    ensures |Picked(got, a, a, IsPayload)| == |Picked(got, a, a, IsPadding)| == |Picked(got, a, a, IsMarked)| == 0
    ensures SizeSum(got, a, a, false) == SizeSum(got, a, a, true) == 0
    ensures HeaderSum(got, a, a, false) == HeaderSum(got, a, a, true) == 0
  {
    assert Picked(got, a, a, IsPayload) == Picked(got, a, a, IsPadding) == Picked(got, a, a, IsMarked) == {};
  }

  // ------------------------------------------------------------------ model

  /** reported maps a snapshot id to the extended number one past the last number
      it has reported; an id outside it has not reported yet. */
  datatype Model = Model(
    started: bool, ended: bool, start: int, head: int, got: map<int, SnInfo>,
    late: nat, dups: nat, dupBytes: nat, dupHeaderBytes: nat,
    reported: map<nat, int>)

  const EMPTY := Model(false, false, 0, 0, map[], 0, 0, 0, 0, map[])

  /** What a packet turns out to be */
  datatype Verdict = First | Jump | BelowStart | Fill | Duplicate | TooOld

  function Judge(m: Model, sn: uint16): Verdict {
    if !m.started then First
    else
      var e := Extend(m.head, sn);
      if e > m.head then Jump
      else if e < m.start then BelowStart
      else if e in m.got then Duplicate
      else if m.head - e >= WINDOW then TooOld
      else Fill
  }

  function ExtOf(m: Model, sn: uint16): int {
    if m.started then Extend(m.head, sn) else sn
  }

  function Receive(m: Model, p: Packet): Model {
    if m.ended then m
    else
      var e := ExtOf(m, p.sn);
      var late := if m.started && e < m.head then m.late + 1 else m.late;
      match Judge(m, p.sn)
      case First => m.(started := true, start := e, head := e, got := map[e := InfoOf(p)])
      case Jump => m.(head := e, got := m.got[e := InfoOf(p)])
      case BelowStart => m.(start := e, got := m.got[e := InfoOf(p)], late := late)
      case Fill => m.(got := m.got[e := InfoOf(p)], late := late)
      case Duplicate => CountDuplicate(m, p, late)
      case TooOld => CountDuplicate(m, p, late)
  }

  function CountDuplicate(m: Model, p: Packet, late: nat): Model {
    m.(dups := m.dups + 1, dupBytes := m.dupBytes + p.Size(),
       dupHeaderBytes := m.dupHeaderBytes + p.hdrSize, late := late)
  }

  /** First number a snapshot id still has to report */
  function ReportFrom(m: Model, id: nat): int {
    if id in m.reported then m.reported[id] else m.start
  }

  /** getAndResetSnapshot: the span [ReportFrom, head + 1) is reported */
  function Report(m: Model, id: nat): Model {
    if m.started then m.(reported := m.reported[id := m.head + 1]) else m
  }

  function Totals(m: Model): IntervalStats {
    if m.started then Tally(m.got, m.start, m.head + 1) else ZERO
  }

  /** The extended start is stored as a bare 16-bit number and the number of
      expected packets in 32 bits; this is when both fit. */
  predicate Representable(m: Model) {
    m.started ==> 0 <= m.start && m.head - m.start + 1 < MOD32
  }

  ghost predicate Inv(m: Model) {
    if m.started then
      && m.start <= m.head < m.start + HALF16 * |m.got|
      && m.head - m.start <= HALF16 * (|m.got| - 1)
      && m.start in m.got && m.head in m.got
      && (forall e :: e in m.got ==> m.start <= e <= m.head && m.got[e].pktSize > 0)
      && (forall id :: id in m.reported ==> m.start < m.reported[id] <= m.head + 1)
    else
      m.got == map[] && m.reported == map[] && m.late == m.dups == m.dupBytes == m.dupHeaderBytes == 0
  }

  lemma ReceiveKeepsInv(m: Model, p: Packet)
    requires Inv(m)
    ensures Inv(Receive(m, p))
  {
    var m' := Receive(m, p);
    if !m.ended && Judge(m, p.sn) !in {Duplicate, TooOld} {
      var e := ExtOf(m, p.sn);
      assert e !in m.got;
      assert m'.got == m.got[e := InfoOf(p)];
      assert |m'.got| == |m.got| + 1;
    }
  }

  lemma ReportKeepsInv(m: Model, id: nat)
    requires Inv(m)
    ensures Inv(Report(m, id))
  {
  }

  /** Accepted and missing numbers partition the span from start to head. */
  lemma Accounting(m: Model)
    requires Inv(m) && m.started
    ensures m.head - m.start + 1 == Totals(m).packetsLost + |m.got|
    ensures |m.got| == Totals(m).packets + Totals(m).packetsPadding
  {
    TallyCounts(m.got, m.start, m.head + 1);
    assert Within(m.got, m.start, m.head + 1) == m.got.Keys;
  }

  /** How one packet moves the totals, case by case. */
  lemma ReceiveTotals(m: Model, p: Packet)
    requires Inv(m) && !m.ended
    ensures var t, t', one := Totals(m), Totals(Receive(m, p)), OneOf(InfoOf(p));
            var e := ExtOf(m, p.sn);
            match Judge(m, p.sn)
            case First => t' == one
            case Jump => t' == t.Plus(LostN(e - m.head - 1)).Plus(one)
            case BelowStart => t' == t.Plus(LostN(m.start - e - 1)).Plus(one)
            case Fill => t'.Plus(LostN(1)) == t.Plus(one)
            case Duplicate => t' == t
            case TooOld => t' == t
  {
    var e, i := ExtOf(m, p.sn), InfoOf(p);
    match Judge(m, p.sn) {
      case First =>
        TallyStep(map[e := i], e, e + 1);
        TallyEmpty(map[e := i], e);
        PlusZero(OneOf(i));
      case Jump => TallyJump(m.got, m.start, m.head, e, i);
      case BelowStart => TallyBelow(m.got, m.start, m.head + 1, e, i);
      case Fill => TallyFill(m.got, m.start, m.head + 1, e, i);
      case Duplicate =>
      case TooOld =>
    }
  }

  /** Same traffic, loss aside */
  predicate SamePayload(s: IntervalStats, t: IntervalStats) {
    s == t.(packetsLost := s.packetsLost)
  }

  /** An accepted packet is counted once, a duplicate not at all. */
  lemma ReceivePayload(m: Model, p: Packet)
    requires Inv(m) && !m.ended
    ensures var t, t' := Totals(m), Totals(Receive(m, p));
            if Judge(m, p.sn) in {Duplicate, TooOld} then t' == t
            else SamePayload(t', t.Plus(OneOf(InfoOf(p))))
  {
    ReceiveTotals(m, p);
    hide Tally;
  }

  /** A caller can tell beforehand whether a packet keeps the state representable:
      it must not be a late packet that moves the start below extended number 0,
      nor a jump that makes the span reach 2^32 numbers. */
  lemma StaysRepresentable(m: Model, p: Packet)
    requires Inv(m) && Representable(m) && m.start < MOD16 && !m.ended
    ensures Representable(Receive(m, p)) <==>
            match Judge(m, p.sn)
            case BelowStart => p.sn < m.start && m.head - Extend(m.head, p.sn) + 1 < MOD32
            case Jump => m.head - m.start + 1 + Sub16(p.sn, m.head) < MOD32
            case _ => true
    ensures Representable(Receive(m, p)) ==> Receive(m, p).start < MOD16
  {
  }

  /** Representable, or one packet away from it */
  predicate Near(m: Model) {
    m.started ==>
      && -HALF16 < m.start < MOD16 && m.head - m.start + 1 <= MOD32 + HALF16
      && (m.start < 0 ==> m.head - m.start + 1 <= HALF16)
  }

  /** A packet leaves a representable state by half a cycle at most. */
  lemma StaysClose(m: Model, p: Packet)
    requires Inv(m) && Representable(m) && (m.started ==> m.start < MOD16)
    ensures Near(Receive(m, p))
  {
  }

  // ------------------------------------------------------------ whole runs

  function Run(ps: seq<Packet>): Model {
    if |ps| == 0 then EMPTY else Receive(Run(ps[..|ps| - 1]), ps[|ps| - 1])
  }

  lemma {:induction false} RunInv(ps: seq<Packet>)
    ensures Inv(Run(ps)) && (Run(ps).started <==> |ps| > 0) && !Run(ps).ended
  {
    if |ps| > 0 {
      RunInv(ps[..|ps| - 1]);
      ReceiveKeepsInv(Run(ps[..|ps| - 1]), ps[|ps| - 1]);
    }
  }

  lemma ReceiveCountsOne(m: Model, p: Packet)
    requires Inv(m) && !m.ended
    ensures |Receive(m, p).got| + Receive(m, p).dups == |m.got| + m.dups + 1
  {
    var e, m' := ExtOf(m, p.sn), Receive(m, p);
    if Judge(m, p.sn) !in {Duplicate, TooOld} {
      assert e !in m.got && m'.got == m.got[e := InfoOf(p)];
    }
  }

  /** Every packet is either accepted, under a number of its own, or counted as a duplicate. */
  lemma {:induction false} RunConserves(ps: seq<Packet>)
    ensures |Run(ps).got| + Run(ps).dups == |ps|
  {
    hide Receive, Inv;
    if |ps| > 0 {
      RunConserves(ps[..|ps| - 1]);
      RunInv(ps[..|ps| - 1]);
      ReceiveCountsOne(Run(ps[..|ps| - 1]), ps[|ps| - 1]);
    }
  }

  /** Total size, and total header size, of all packets that arrived */
  function ArrivedBytes(ps: seq<Packet>): nat {
    if |ps| == 0 then 0
    else
      var p := ps[|ps| - 1];
      ArrivedBytes(ps[..|ps| - 1]) + p.hdrSize + p.payloadSize + p.paddingSize
  }

  function ArrivedHeaders(ps: seq<Packet>): nat {
    if |ps| == 0 then 0 else ArrivedHeaders(ps[..|ps| - 1]) + ps[|ps| - 1].hdrSize
  }

  lemma ReceiveBytes(m: Model, p: Packet)
    requires Inv(m) && !m.ended
    ensures var m' := Receive(m, p);
            var t, t' := Totals(m), Totals(m');
            && t'.bytes + t'.bytesPadding + m'.dupBytes ==
               t.bytes + t.bytesPadding + m.dupBytes + p.hdrSize + p.payloadSize + p.paddingSize
            && t'.headerBytes + t'.headerBytesPadding + m'.dupHeaderBytes ==
               t.headerBytes + t.headerBytesPadding + m.dupHeaderBytes + p.hdrSize
  {
    hide Tally, Totals, Inv, Extend;
    ReceivePayload(m, p);
  }

  /** No byte is lost or counted twice: payload, padding and duplicates add up to what arrived. */
  lemma {:induction false} RunBytes(ps: seq<Packet>)
    ensures var m, t := Run(ps), Totals(Run(ps));
            && t.bytes + t.bytesPadding + m.dupBytes == ArrivedBytes(ps)
            && t.headerBytes + t.headerBytesPadding + m.dupHeaderBytes == ArrivedHeaders(ps)
  {
    hide Receive, Inv, Tally;
    if |ps| > 0 {
      RunBytes(ps[..|ps| - 1]);
      RunInv(ps[..|ps| - 1]);
      ReceiveBytes(Run(ps[..|ps| - 1]), ps[|ps| - 1]);
    }
  }

  function MaxOf(ts: seq<int>): int
    requires |ts| > 0
  {
    if |ts| == 1 then ts[0] else Max(MaxOf(ts[..|ts| - 1]), ts[|ts| - 1])
  }

  function MinOf(ts: seq<int>): int
    requires |ts| > 0
  {
    if |ts| == 1 then ts[0] else Min(MinOf(ts[..|ts| - 1]), ts[|ts| - 1])
  }

  /** The network delivers the numbers ts in this order: the first one lies in the
      first cycle, and none is half a cycle or more behind the highest so far, or
      more than half a cycle ahead of it. */
  ghost predicate Deliverable(ts: seq<int>) {
    && |ts| > 0 && 0 <= ts[0] < MOD16
    && forall k :: 0 < k < |ts| ==>
         MaxOf(ts[..k]) - HALF16 < ts[k] <= MaxOf(ts[..k]) + HALF16
  }

  /** The k-th arrival is remembered: it extends the stream at either end, or is
      less than 2048 behind the highest number so far. */
  ghost predicate InTime(ts: seq<int>, k: nat)
    requires k < |ts|
  {
    k == 0 || ts[k] < MinOf(ts[..k]) || ts[k] > MaxOf(ts[..k]) - WINDOW
  }

  ghost predicate Carries(ps: seq<Packet>, ts: seq<int>) {
    |ps| == |ts| && forall k :: 0 <= k < |ts| ==> ps[k].sn == Mod16(ts[k])
  }

  /** The numbers of which some arrival was in time */
  ghost function Remembered(ts: seq<int>): set<int> {
    set k | 0 <= k < |ts| && InTime(ts, k) :: ts[k]
  }

  lemma PrefixInTime(ts: seq<int>, n: nat, k: nat)
    requires k < n <= |ts|
    ensures InTime(ts[..n], k) == InTime(ts, k)
  {
    assert ts[..n][..k] == ts[..k];
  }

  lemma RememberedStep(ts: seq<int>)
    requires |ts| > 1
    ensures var n := |ts| - 1;
            Remembered(ts) == if InTime(ts, n) then Remembered(ts[..n]) + {ts[n]} else Remembered(ts[..n])
  {
    hide MaxOf, MinOf, InTime;
    var n := |ts| - 1;
    var before := ts[..n];
    forall k | 0 <= k < n ensures InTime(before, k) == InTime(ts, k) {
      PrefixInTime(ts, n, k);
    }
    forall t | t in Remembered(before) ensures t in Remembered(ts) {
      var k :| 0 <= k < n && InTime(before, k) && before[k] == t;
      assert InTime(ts, k) && ts[k] == t;
    }
    forall t | t in Remembered(ts) ensures t in Remembered(before) || (InTime(ts, n) && t == ts[n]) {
      var k :| 0 <= k < |ts| && InTime(ts, k) && ts[k] == t;
      if k < n {
        assert InTime(before, k) && before[k] == t;
      }
    }
  }

  /** From the 16-bit numbers alone, in whatever order they arrive and across any
      number of wrap-arounds, the model recovers the true highest and lowest
      number and exactly the set of numbers that arrived in time. */
  lemma {:induction false} RunRecovers(ts: seq<int>, ps: seq<Packet>)
    requires Deliverable(ts) && Carries(ps, ts)
    ensures Run(ps).started
    ensures Run(ps).head == MaxOf(ts) && Run(ps).start == MinOf(ts)
    ensures Run(ps).got.Keys == Remembered(ts)
  {
    RunInv(ps);
    var n := |ts| - 1;
    if n == 0 {
      assert Run(ps[..0]) == EMPTY;
      assert InTime(ts, 0);
      assert Remembered(ts) == {ts[0]};
    } else {
      var ts0, ps0 := ts[..n], ps[..n];
      assert forall k :: 0 <= k < n ==> ts0[..k] == ts[..k];
      RunRecovers(ts0, ps0);
      RunInv(ps0);
      RememberedStep(ts);
      ReceiveRecovers(Run(ps0), ps[n], ts[n]);
    }
  }

  lemma ReceiveRecovers(m: Model, p: Packet, t: int)
    requires Inv(m) && m.started && !m.ended
    requires m.head - HALF16 < t <= m.head + HALF16 && p.sn == Mod16(t)
    ensures var m' := Receive(m, p);
            && m'.head == Max(m.head, t) && m'.start == Min(m.start, t)
            && m'.got.Keys == if t < m.start || t > m.head - WINDOW then m.got.Keys + {t} else m.got.Keys
  {
    ExtendInverts(m.head, t);
  }

  /** The arrivals behind the highest number before them */
  ghost function Behind(ts: seq<int>): set<int> {
    set k | 0 <= k < |ts| && IsBehind(ts, k)
  }

  predicate IsBehind(ts: seq<int>, k: nat)
    requires k < |ts|
  {
    k > 0 && ts[k] < MaxOf(ts[..k])
  }

  /** Packets counted as out of order are exactly these. */
  lemma {:induction false} RunLate(ts: seq<int>, ps: seq<Packet>)
    requires Deliverable(ts) && Carries(ps, ts)
    ensures Run(ps).late == |Behind(ts)|
  {
    hide MaxOf, Mod16, Extend;
    RunInv(ps);
    var n := |ts| - 1;
    if n == 0 {
      assert Run(ps[..0]) == EMPTY && Behind(ts) == {};
    } else {
      PrefixDeliverable(ts, ps);
      RunLate(ts[..n], ps[..n]);
      RunRecovers(ts[..n], ps[..n]);
      RunInv(ps[..n]);
      BehindStep(ts);
      LateStep(Run(ps[..n]), ps[n], ts[n]);
      hide Deliverable, Receive, Inv, Behind, MinOf, Remembered;
    }
  }

  lemma LateStep(m: Model, p: Packet, t: int)
    requires m.started && !m.ended && m.head - HALF16 < t <= m.head + HALF16 && p.sn == Mod16(t)
    ensures Receive(m, p).late == if t < m.head then m.late + 1 else m.late
  {
    ExtendInverts(m.head, t);
  }

  lemma BehindStep(ts: seq<int>)
    requires |ts| > 1
    ensures var n := |ts| - 1;
            |Behind(ts)| == |Behind(ts[..n])| + if ts[n] < MaxOf(ts[..n]) then 1 else 0
  {
    hide IsBehind, MaxOf;
    var n := |ts| - 1;
    var before := ts[..n];
    BehindAt(ts, n, n);
    forall k | 0 <= k < n ensures IsBehind(before, k) == IsBehind(ts, k) {
      BehindAt(ts, n, k);
    }
    if IsBehind(ts, n) {
      assert Behind(ts) == Behind(before) + {n};
    } else {
      assert Behind(ts) == Behind(before);
    }
  }

  lemma BehindAt(ts: seq<int>, n: nat, k: nat)
    requires 0 < n < |ts| && k <= n
    ensures k < n ==> IsBehind(ts[..n], k) == IsBehind(ts, k)
    ensures IsBehind(ts, n) <==> ts[n] < MaxOf(ts[..n])
  {
    hide MaxOf;
    assert k < n ==> ts[..n][..k] == ts[..k];
  }

  lemma ReceiveKeepsGot(m: Model, p: Packet, e: int)
    requires Inv(m) && e in m.got
    ensures e in Receive(m, p).got && Receive(m, p).got[e] == m.got[e]
  {
  }

  lemma PrefixDeliverable(ts: seq<int>, ps: seq<Packet>)
    requires Deliverable(ts) && Carries(ps, ts) && |ts| > 1
    ensures Deliverable(ts[..|ts| - 1]) && Carries(ps[..|ts| - 1], ts[..|ts| - 1])
  {
    hide MaxOf, Mod16;
    assert forall j :: 0 <= j < |ts| ==> ts[..|ts| - 1][..j] == ts[..j];
  }

  /** What is remembered of a number is its first arrival that was in time: nothing that arrives
      later overwrites it. */
  lemma {:induction false} RunStoresFirst(ts: seq<int>, ps: seq<Packet>, k: nat)
    requires Deliverable(ts) && Carries(ps, ts) && k < |ts| && InTime(ts, k)
    requires forall j :: 0 <= j < k && ts[j] == ts[k] ==> !InTime(ts, j)
    ensures ts[k] in Run(ps).got
    ensures var p := ps[k];
            Run(ps).got[ts[k]] ==
            SnInfo(p.hdrSize + p.payloadSize + p.paddingSize, p.hdrSize, p.payloadSize == 0, p.marker)
  {
    hide InTime, Deliverable, Remembered, Receive, Inv, MaxOf, MinOf, Mod16;
    var n := |ts| - 1;
    var ts0, ps0 := ts[..n], ps[..n];
    RunRecovers(ts, ps);
    RememberedNow(ts, k);
    if n == 0 {
      assert Run(ps0) == EMPTY;
      ReceiveStores(EMPTY, ps[n], ts[k]);
    } else {
      PrefixDeliverable(ts, ps);
      RunInv(ps0);
      if k < n {
        forall j | 0 <= j <= k ensures InTime(ts0, j) == InTime(ts, j) {
          PrefixInTime(ts, n, j);
        }
        RunStoresFirst(ts0, ps0, k);
        ReceiveKeepsGot(Run(ps0), ps[n], ts[k]);
      } else {
        RunRecovers(ts0, ps0);
        NotYetRemembered(ts);
        ReceiveStores(Run(ps0), ps[n], ts[k]);
      }
    }
  }

  lemma RememberedNow(ts: seq<int>, k: nat)
    requires k < |ts| && InTime(ts, k)
    ensures ts[k] in Remembered(ts)
  {
    hide InTime;
  }

  lemma NotYetRemembered(ts: seq<int>)
    requires |ts| > 1
    requires var n := |ts| - 1; forall j :: 0 <= j < n && ts[j] == ts[n] ==> !InTime(ts, j)
    ensures ts[|ts| - 1] !in Remembered(ts[..|ts| - 1])
  {
    var n := |ts| - 1;
    forall j | 0 <= j < n ensures InTime(ts[..n], j) == InTime(ts, j) {
      PrefixInTime(ts, n, j);
    }
    hide InTime;
  }

  lemma ReceiveStores(m: Model, p: Packet, e: int)
    requires e !in m.got && e in Receive(m, p).got
    ensures Receive(m, p).got[e] == InfoOf(p)
  {
  }

  /** When nothing arrives 2048 or more behind the head the statistics are exact:
      lost is the number of numbers never seen between the lowest and the highest,
      and every repetition, and nothing else, is a duplicate. */
  lemma RunExact(ts: seq<int>, ps: seq<Packet>)
    requires Deliverable(ts) && Carries(ps, ts)
    requires forall k :: 0 <= k < |ts| ==> InTime(ts, k)
    ensures Run(ps).got.Keys == set t | t in ts
    ensures Totals(Run(ps)).packetsLost == MaxOf(ts) - MinOf(ts) + 1 - |set t | t in ts|
    ensures Run(ps).dups == |ts| - |set t | t in ts|
  {
    RunRecovers(ts, ps);
    RunInv(ps);
    RunConserves(ps);
    var seen := set t | t in ts;
    assert Remembered(ts) == seen by {
      assert forall k :: 0 <= k < |ts| ==> ts[k] in Remembered(ts);
    }
    Accounting(Run(ps));
  }

  /** Some arrival of t was in time. */
  ghost predicate Timely(ts: seq<int>, t: int) {
    exists k :: 0 <= k < |ts| && ts[k] == t && InTime(ts, k)
  }

  /** In general the loss is too high by the numbers of which no arrival was in time; so it is
      exact if and only if every number that arrived was in time at least once. */
  lemma LossExact(ts: seq<int>, ps: seq<Packet>)
    requires Deliverable(ts) && Carries(ps, ts)
    ensures var seen, lost := (set t | t in ts), Totals(Run(ps)).packetsLost;
            && lost == MaxOf(ts) - MinOf(ts) + 1 - |seen| + |set t | t in ts && !Timely(ts, t)|
            && (lost == MaxOf(ts) - MinOf(ts) + 1 - |seen| <==> forall t :: t in ts ==> Timely(ts, t))
  {
    hide Timely, Remembered, MaxOf, MinOf, Run, Totals, Deliverable, Carries;
    RunRecovers(ts, ps);
    RunInv(ps);
    Accounting(Run(ps));
    TimelyIsRemembered(ts);
    var seen, kept, never := (set t | t in ts), Remembered(ts), (set t | t in ts && !Timely(ts, t));
    forall t | t in kept ensures t in seen {
      assert t in ts;
    }
    assert never == seen - kept;
    PartsCount(seen, kept);
    assert |Run(ps).got.Keys| == |Run(ps).got|;
    assert never != {} <==> exists t :: t in ts && !Timely(ts, t) by {
      assert forall t :: t in never <==> t in ts && !Timely(ts, t);
    }
  }

  lemma PartsCount(all: set<int>, kept: set<int>)
    requires kept <= all
    ensures |all| == |kept| + |all - kept| && (|all - kept| == 0 <==> all - kept == {})
  {
    assert all == kept + (all - kept);
  }

  lemma TimelyIsRemembered(ts: seq<int>)
    ensures forall t :: t in Remembered(ts) <==> Timely(ts, t)
    ensures forall t :: t in Remembered(ts) ==> t in ts
  {
    hide InTime;
  }

  /** A single packet 2500 behind the head makes the loss one too high: of the numbers from 0 to
      3000, 0, 3000 and 500 arrived, and 2999 are counted as lost. */
  lemma LateIsLost()
    ensures var ps := [Packet(0, 12, 100, 0, false), Packet(3000, 12, 100, 0, false), Packet(500, 12, 100, 0, false)];
            Totals(Run(ps)).packetsLost == 2999 && Run(ps).dups == 1
  {
    hide Tally, OneOf;
    var a: Packet, b: Packet := Packet(0, 12, 100, 0, false), Packet(3000, 12, 100, 0, false);
    var c: Packet := Packet(500, 12, 100, 0, false);
    var ps := [a, b, c];
    assert ps[..2] == [a, b] && [a, b][..1] == [a] && [a][..0] == [];
    assert Run([]) == EMPTY;
    assert Run([a]) == Receive(EMPTY, a);
    assert Run([a, b]) == Receive(Run([a]), b);
    assert Extend(0, 3000) == 3000 && Extend(3000, 500) == 500;
    assert Run([a, b]).got.Keys == {0, 3000};
    assert Judge(Run([a, b]), 500) == TooOld;
    RunInv(ps);
    Accounting(Run(ps));
  }
}
