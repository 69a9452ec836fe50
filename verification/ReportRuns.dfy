/** Runs that mix packets with reports (pkg/buffer/rtpstats.go, getAndResetSnapshot). */
module ReportRuns {
  import opened SeqNum
  import opened StreamModel
  import opened RtpStats

  datatype Op = Arrive(p: Packet) | Take(id: nat) | Halt

  function Apply(m: Model, op: Op): Model {
    match op
    case Arrive(p) => Receive(m, p)
    case Take(id) => Report(m, id)
    case Halt => m.(ended := true)
  }

  lemma ApplyKeepsInv(m: Model, op: Op)
    requires Inv(m)
    ensures Inv(Apply(m, op))
  {
    match op {
      case Arrive(p) => ReceiveKeepsInv(m, p);
      case Take(id) => ReportKeepsInv(m, id);
      case Halt =>
    }
  }

  /** A half-open span of extended numbers */
  datatype Span = Span(from: int, to: int)

  /** The spans reported to one snapshot id during a run */
  function Spans(m: Model, ops: seq<Op>, id: nat): seq<Span>
    decreases |ops|
  {
    if |ops| == 0 then []
    else
      var rest := Spans(Apply(m, ops[0]), ops[1..], id);
      if ops[0] == Take(id) && m.started then [Span(ReportFrom(m, id), m.head + 1)] + rest else rest
  }

  /** The start of the stream when the id reports for the first time */
  function StartAtFirstReport(m: Model, ops: seq<Op>, id: nat): int
    decreases |ops|
  {
    if |ops| == 0 || (ops[0] == Take(id) && m.started) then m.start
    else StartAtFirstReport(Apply(m, ops[0]), ops[1..], id)
  }

  function TotalLength(spans: seq<Span>): int {
    if |spans| == 0 then 0 else spans[0].to - spans[0].from + TotalLength(spans[1..])
  }

  ghost predicate Contiguous(spans: seq<Span>) {
    && (forall i :: 0 <= i < |spans| ==> spans[i].from <= spans[i].to)
    && (forall i :: 0 < i < |spans| ==> spans[i - 1].to == spans[i].from)
  }

  lemma ReportFromBelowHead(m: Model, id: nat)
    requires Inv(m) && m.started
    ensures m.start <= ReportFrom(m, id) <= m.head + 1
  {
  }

  /** A packet moves the next span of an id only if the id has not reported yet. */
  lemma ApplyKeepsReported(m: Model, op: Op, id: nat)
    requires Inv(m) && id in m.reported && !(op == Take(id) && m.started)
    ensures id in Apply(m, op).reported && Apply(m, op).reported[id] == m.reported[id]
  {
  }

  lemma ApplyKeepsUnreported(m: Model, op: Op, id: nat)
    requires Inv(m) && id !in m.reported && !(op == Take(id) && m.started)
    ensures id !in Apply(m, op).reported
  {
  }

  /** Whatever arrives between reports and however far the start moves, the spans one id
      reports follow one another without gap or overlap; the first begins at the start the
      stream had then. */
  lemma {:induction false} SpansContiguous(m: Model, ops: seq<Op>, id: nat)
    requires Inv(m)
    ensures Contiguous(Spans(m, ops, id))
    ensures var spans := Spans(m, ops, id);
            |spans| > 0 ==>
              spans[0].from == if id in m.reported then m.reported[id] else StartAtFirstReport(m, ops, id)
    decreases |ops|
  {
    hide Inv, Receive;
    if |ops| > 0 {
      var m' := Apply(m, ops[0]);
      ApplyKeepsInv(m, ops[0]);
      SpansContiguous(m', ops[1..], id);
      if ops[0] == Take(id) && m.started {
        ReportFromBelowHead(m, id);
      } else if id in m.reported {
        ApplyKeepsReported(m, ops[0], id);
      } else {
        ApplyKeepsUnreported(m, ops[0], id);
      }
    }
  }

  lemma {:induction false} Telescopes(spans: seq<Span>)
    requires Contiguous(spans) && |spans| > 0
    ensures TotalLength(spans) == spans[|spans| - 1].to - spans[0].from
  {
    if |spans| > 1 {
      var rest := spans[1..];
      assert forall i :: 0 < i < |rest| ==> rest[i - 1] == spans[i] && rest[i] == spans[i + 1];
      Telescopes(rest);
    }
  }

  /** The expected counts reported to an id add up to one past the head at its last report,
      minus the start at its first. */
  lemma SpansTelescope(ops: seq<Op>, id: nat)
    requires |Spans(EMPTY, ops, id)| > 0
    ensures var spans := Spans(EMPTY, ops, id);
            TotalLength(spans) == spans[|spans| - 1].to - StartAtFirstReport(EMPTY, ops, id)
  {
    SpansContiguous(EMPTY, ops, id);
    Telescopes(Spans(EMPTY, ops, id));
  }

  /** Number of packets that arrive before the statistics are stopped */
  function Arrivals(m: Model, ops: seq<Op>): nat
    decreases |ops|
  {
    if |ops| == 0 then 0
    else (if ops[0].Arrive? && !m.ended then 1 else 0) + Arrivals(Apply(m, ops[0]), ops[1..])
  }

  function RunOps(m: Model, ops: seq<Op>): Model
    decreases |ops|
  {
    if |ops| == 0 then m else RunOps(Apply(m, ops[0]), ops[1..])
  }

  /** Over any mix of packets, reports and a stop, accepted packets and duplicates add up to
      the packets that arrived before the stop: what a sender report counts. */
  lemma {:induction false} RunConservesPackets(m: Model, ops: seq<Op>)
    requires Inv(m)
    ensures var m' := RunOps(m, ops); |m'.got| + m'.dups == |m.got| + m.dups + Arrivals(m, ops)
    decreases |ops|
  {
    hide Inv, Receive;
    if |ops| > 0 {
      ApplyKeepsInv(m, ops[0]);
      RunConservesPackets(Apply(m, ops[0]), ops[1..]);
      if ops[0].Arrive? && !m.ended {
        ReceiveCountsOne(m, ops[0].p);
      } else {
        ApplyUncounted(m, ops[0]);
      }
    }
  }

  lemma ApplyUncounted(m: Model, op: Op)
    requires !(op.Arrive? && !m.ended)
    ensures Apply(m, op).got == m.got && Apply(m, op).dups == m.dups
  {
  }

  /** A stream that begins with number 5 and then receives the late packet 65530: the true start
      is -6, which the code cannot represent. */
  lemma CrossingZero()
    ensures var ps := [Packet(5, 12, 100, 0, false), Packet(65530, 12, 100, 0, false)];
            Run(ps).start == -6 && Run(ps).head == 5 && !Representable(Run(ps))
  {
    var a: Packet, b: Packet := Packet(5, 12, 100, 0, false), Packet(65530, 12, 100, 0, false);
    var ps := [a, b];
    assert ps[..1] == [a] && [a][..0] == [];
    assert Run([]) == EMPTY;
    assert Run([a]) == Receive(EMPTY, a);
    assert Extend(5, 65530) == -6;
  }

  /** The same stream received by the statistics themselves: two packets, counted as 4294901762. */
  method CrossingStream() returns (primary: uint32, stats: RTPStats)
    ensures stats.m.got.Keys == {5, -6} && stats.m.dups == 0
    ensures primary == stats.GetTotalPacketsPrimary() == 4294901762
  {
    hide Receive, Inv, Totals, RTPStats.Valid, RTPStats.WellFormed, RTPStats.Carried, Representable,
         RTPStats.GetTotalPacketsPrimary, PrimaryFits, FlowOf;
    var a: Packet, b: Packet := Packet(5, 12, 100, 0, false), Packet(65530, 12, 100, 0, false);
    TwoPackets(a, b);
    stats := new RTPStats();
    Agreed(stats);
    var _ := stats.Update(a);
    var _ := stats.Update(b);
    stats.PrimaryRight();
    primary := stats.GetTotalPacketsPrimary();
  }

  lemma Agreed(stats: RTPStats)
    requires stats.Valid()
    ensures stats.WellFormed() && stats.Tracked()
  {
  }

  lemma TwoPackets(a: Packet, b: Packet)
    requires a.sn == 5 && b.sn == 65530 && a.payloadSize > 0 && b.payloadSize > 0
    ensures var m, m' := Receive(EMPTY, a), Receive(Receive(EMPTY, a), b);
            && Representable(m) && !m.ended && !m'.ended
            && Totals(m').packets == 2 && m'.start == -6 && m'.got.Keys == {5, -6} && m'.dups == 0
  {
    assert Extend(5, 65530) == -6;
    ReceiveTotals(EMPTY, a);
    ReceiveTotals(Receive(EMPTY, a), b);
    hide Tally;
  }

  /** One more late packet makes the loss counter underflow: of the numbers from -2 to 0 none is lost,
      and 4294967295 are counted. */
  method UnderflowStream() returns (lost: uint32, stats: RTPStats)
    ensures stats.m.got.Keys == {0, -1, -2} && Totals(stats.m).packetsLost == 0
    ensures lost == stats.packetsLost == 0xFFFF_FFFF
  {
    hide Receive, Inv, Totals, RTPStats.Valid, RTPStats.WellFormed, RTPStats.Carried, RTPStats.Tracked, Representable,
         RTPStats.NextLost, FlowOf;
    var a: Packet, b: Packet := Packet(0, 12, 100, 0, false), Packet(65535, 12, 100, 0, false);
    var c: Packet := Packet(65534, 12, 100, 0, false);
    ThreePackets(a, b, c);
    stats := new RTPStats();
    Agreed(stats);
    var _ := stats.Update(a);
    Agreed(stats);
    NotOverwritten(stats, b);
    var _ := stats.Update(b);
    stats.CarriedFields();
    assert Extend(0, 65534) == -2;
    stats.LostExactly(65534);
    CrossedState(stats, c);
    var _ := stats.Update(c);
    lost := stats.packetsLost;
  }

  lemma NotOverwritten(stats: RTPStats, b: Packet)
    requires stats.WellFormed() && stats.m == Receive(EMPTY, Packet(0, 12, 100, 0, false)) && b.sn == 65535
    ensures !stats.Overwrites(b)
  {
    hide RTPStats.WellFormed;
    assert Extend(0, 65535) == -1;
  }

  lemma CrossedState(stats: RTPStats, c: Packet)
    requires stats.WellFormed() && stats.initialized && stats.IsSnInfoLost(65534)
    requires stats.highestSN == stats.cycles == 0 && stats.extStartSN == 65535 && stats.packetsLost == 0
    requires c.sn == 65534
    ensures stats.NextLost(c) == 0xFFFF_FFFF
  {
    hide RTPStats.IsSnInfoLost, Inv;
  }

  lemma ThreePackets(a: Packet, b: Packet, c: Packet)
    requires a.sn == 0 && b.sn == 65535 && c.sn == 65534
    ensures var m, m' := Receive(EMPTY, a), Receive(Receive(EMPTY, a), b);
            var m'' := Receive(m', c);
            && Representable(m) && !m.ended && !m'.ended && !m''.ended
            && m'.started && m'.head == 0 && m'.start == -1 && m'.got.Keys == {0, -1}
            && Totals(m').packetsLost == 0 == Totals(m'').packetsLost && m''.got.Keys == {0, -1, -2}
  {
    var m := Receive(EMPTY, a);
    var m' := Receive(m, b);
    ReceiveKeepsInv(EMPTY, a);
    ReceiveKeepsInv(m, b);
    NextBelow(m, b, -1);
    NextBelow(m', c, -2);
    hide Receive, Inv, Tally;
    ReceiveTotals(EMPTY, a);
  }

  /** A packet that takes the place just below the start adds itself and nothing lost. */
  lemma NextBelow(m: Model, p: Packet, e: int)
    requires Inv(m) && m.started && !m.ended && Extend(m.head, p.sn) == e == m.start - 1
    ensures var m' := Receive(m, p);
            && m'.started && !m'.ended && m'.start == e && m'.head == m.head && m'.got.Keys == m.got.Keys + {e}
            && Totals(m').packetsLost == Totals(m).packetsLost
  {
    hide Extend, Tally;
    ReceiveTotals(m, p);
  }
}
