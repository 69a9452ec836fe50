/** The receive statistics of pkg/buffer/rtpstats.go: 16-bit head and cycle
    counter, running counters, and a ring of 2048 slots addressed from the write
    pointer. The class refines StreamModel. */
module RtpStats {
  import opened SeqNum
  import opened StreamModel
  import opened IntervalModel
  import opened Wrappers

  /** x & SnInfoMask */
  function Mask(x: int): (s: int)
    ensures 0 <= s < WINDOW
  {
    x % 2048
  }

  // -------------------------------------------------------------------- ring

  lemma MaskSucc(x: int)
    ensures Mask(Mask(x) + 1) == Mask(x + 1)
  {
  }

  /** Slot of the number `back` behind the head (SnInfoMask arithmetic) */
  function Slot(w: int, back: int): (s: int)
    ensures 0 <= s < WINDOW
  {
    Mask(w - back - 1)
  }

  function InfoAt(got: map<int, SnInfo>, e: int): SnInfo {
    if e in got then got[e] else LOST
  }

  /** Ring/set agreement: each of the last 2048 numbers has a slot, and that slot holds
      exactly what was accepted for it, or size 0 if nothing was. */
  ghost predicate RingHolds(ring: seq<SnInfo>, w: int, head: int, got: map<int, SnInfo>) {
    && |ring| == WINDOW && 0 <= w < WINDOW
    && forall back :: 0 <= back < WINDOW ==> ring[Slot(w, back)] == InfoAt(got, head - back)
  }

  lemma SlotsDiffer(w: int, back: int, back': int)
    requires 0 <= back < WINDOW && 0 <= back' < WINDOW && back != back'
    ensures Slot(w, back) != Slot(w, back')
  {
  }

  lemma SlotShifts(w: int, back: int)
    ensures Slot(Mask(w + 1), back + 1) == Slot(w, back)
  {
  }

  lemma SlotOfHead(w: int)
    requires 0 <= w < WINDOW
    ensures Slot(Mask(w + 1), 0) == w
  {
  }

  /** Writing the slot under the write pointer and advancing it moves the window up by one. */
  lemma RingAdvance(ring: seq<SnInfo>, w: int, head: int, got: map<int, SnInfo>, got': map<int, SnInfo>)
    requires RingHolds(ring, w, head, got)
    requires forall e :: e <= head ==> InfoAt(got', e) == InfoAt(got, e)
    ensures RingHolds(ring[w := InfoAt(got', head + 1)], Mask(w + 1), head + 1, got')
  {
    hide Slot, Mask, InfoAt;
    var ring' := ring[w := InfoAt(got', head + 1)];
    var w' := Mask(w + 1);
    SlotOfHead(w);
    forall back | 0 <= back < WINDOW
      ensures ring'[Slot(w', back)] == InfoAt(got', head + 1 - back)
    {
      if back > 0 {
        SlotShifts(w, back - 1);
        SlotsDiffer(w', back, 0);
        assert ring[Slot(w, back - 1)] == InfoAt(got, head - (back - 1));
      }
    }
  }

  /** Writing the slot of a number in the window changes what is known of that number only. */
  lemma RingFill(ring: seq<SnInfo>, w: int, head: int, got: map<int, SnInfo>, back: int, i: SnInfo)
    requires RingHolds(ring, w, head, got) && 0 <= back < WINDOW
    ensures RingHolds(ring[Slot(w, back) := i], w, head, got[head - back := i])
  {
    var ring' := ring[Slot(w, back) := i];
    forall b | 0 <= b < WINDOW
      ensures ring'[Slot(w, b)] == InfoAt(got[head - back := i], head - b)
    {
      if b != back {
        SlotsDiffer(w, b, back);
      }
    }
  }

  lemma RingForgets(ring: seq<SnInfo>, w: int, head: int, got: map<int, SnInfo>, back: int, i: SnInfo)
    requires RingHolds(ring, w, head, got) && back >= WINDOW
    ensures RingHolds(ring, w, head, got[head - back := i])
  {
  }

  /** The ring after clearing n slots from the write pointer on */
  function Cleared(ring: seq<SnInfo>, w: int, n: nat): (r: seq<SnInfo>)
    requires |ring| == WINDOW
    ensures |r| == WINDOW
  {
    if n == 0 then ring else Cleared(ring, w, n - 1)[Mask(w + n - 1) := LOST]
  }

  /** Clearing any number of slots, even many times round the ring, moves the window
      over numbers that were never accepted. */
  lemma {:induction false} RingClear(ring: seq<SnInfo>, w: int, head: int, got: map<int, SnInfo>, n: nat)
    requires RingHolds(ring, w, head, got)
    requires forall e :: head < e <= head + n ==> e !in got
    ensures RingHolds(Cleared(ring, w, n), Mask(w + n), head + n, got)
  {
    assert |ring| == WINDOW && Mask(w) == w;
    hide RingHolds;
    if n > 0 {
      RingClear(ring, w, head, got, n - 1);
      RingClearStep(Cleared(ring, w, n - 1), w, head, got, n);
    }
  }

  lemma RingClearStep(r: seq<SnInfo>, w: int, head: int, got: map<int, SnInfo>, n: nat)
    requires n > 0 && RingHolds(r, Mask(w + n - 1), head + n - 1, got) && head + n !in got
    ensures RingHolds(r[Mask(w + n - 1) := LOST], Mask(w + n), head + n, got)
  {
    hide RingHolds;
    RingAdvance(r, Mask(w + n - 1), head + n - 1, got, got);
    MaskSucc(w + n - 1);
  }

  /** In a started stream, a late number in the window has size 0 in its slot exactly
      when no packet was accepted for it. */
  lemma LostIffMissing(ring: seq<SnInfo>, w: int, m: Model, back: int)
    requires Inv(m) && m.started && RingHolds(ring, w, m.head, m.got) && 0 <= back < WINDOW
    ensures ring[Slot(w, back)].pktSize == 0 <==> m.head - back !in m.got
  {
  }

  /** A late packet leaves the write pointer alone; the ring agrees with the model again
      once its slot, if it still has one, holds it. */
  lemma LateKeepsRing(m: Model, p: Packet, ring: seq<SnInfo>, w: int)
    requires Inv(m) && m.started && !m.ended && RingHolds(ring, w, m.head, m.got)
    requires Extend(m.head, p.sn) <= m.head
    ensures var m', back := Receive(m, p), m.head - Extend(m.head, p.sn);
            var ring' := if back < WINDOW then ring[Slot(w, back) := InfoOf(p)] else ring;
            RingHolds(if Judge(m, p.sn) in {BelowStart, Fill} then ring' else ring, w, m'.head, m'.got)
  {
    var back := m.head - Extend(m.head, p.sn);
    if back < WINDOW {
      RingFill(ring, w, m.head, m.got, back, InfoOf(p));
    } else {
      RingForgets(ring, w, m.head, m.got, back, InfoOf(p));
    }
  }

  // ---------------------------------------------------------- classification

  /** The branch conditions of Update and maybeAdjustStartSN, which see only a 16-bit head,
      a 32-bit extended head and the start, decide exactly where the packet's true
      extended number lies: ahead of the head, between start and head, or below the start. */
  lemma ClassificationExact(m: Model, sn: uint16, highestSN: uint16, ext: uint32)
    requires Inv(m) && m.started && Representable(m) && m.start < MOD16
    requires highestSN == Mod16(m.head) && ext == Mod32(m.head)
    ensures var e, diff := Extend(m.head, sn), Sub16(sn, highestSN);
            && (e > m.head <==> diff != 0 && diff <= HALF16)
            && (e > m.head ==> e == m.head + diff)
            && (e == m.head <==> diff == 0)
            && (e <= m.head ==> e == m.head - Sub16(highestSN, sn) && Sub16(highestSN, sn) < HALF16)
            && (e <= m.head ==>
                  (e < m.start <==> Mod32(ext - m.start + 1) < HALF16 && Sub16(sn, m.start) >= HALF16))
            && (e < m.start ==> e == m.start - Sub16(m.start, sn))
  {
    var e := Extend(m.head, sn);
    hide Mod16, Mod32, Sub16, Extend;
    assert Mod32(ext - m.start + 1) == m.head - m.start + 1 by {
      Mod32Absorbs(m.head, 1 - m.start);
      Mod32Absorbs(m.head - m.start + 1, 0);
    }
    Mod16Near(m.start);
    ExtendByDistance(m.head, sn);
    SubOfMods(e, m.start);
    Mod16Near(e - m.start);
    SubOfMods(m.start, e);
    Mod16Near(m.start - e);
  }

  // --------------------------------------------------------------- the class

  /** What happens to the 32-bit loss counter is what happens to the number of missing numbers. */
  lemma LateLoss(m: Model, p: Packet, packetsLost: uint32)
    requires Inv(m) && m.started && !m.ended && Extend(m.head, p.sn) <= m.head
    requires packetsLost == Mod32(Totals(m).packetsLost)
    ensures var e, lost' := Extend(m.head, p.sn), Mod32(Totals(Receive(m, p)).packetsLost);
            match Judge(m, p.sn)
            case BelowStart => lost' == Add32(packetsLost, m.start - e - 1)
            case Fill => lost' == Sub32(packetsLost, 1)
            case _ => lost' == packetsLost
  {
    hide Mod32, Add32, Sub32, Tally, Totals;
    ReceiveTotals(m, p);
    Mod32Adds(Totals(m).packetsLost, m.start - Extend(m.head, p.sn) - 1);
    Mod32Adds(Totals(m).packetsLost, 1);
  }

  /** A snapshot that has not reported yet follows the start; a snapshot that has
      stays where its last report ended. */
  ghost predicate Follow(snapshots: map<nat, Snapshot>, m: Model) {
    && (forall id :: id in m.reported ==> id in snapshots)
    && (forall id :: id in snapshots ==> snapshots[id].extStartSN == Mod32(ReportFrom(m, id)))
  }

  lemma ReportFollows(m: Model, snapshots: map<nat, Snapshot>, id: nat)
    requires m.started && Follow(snapshots, m)
    ensures Follow(snapshots[id := Snapshot(Mod32(m.head + 1))], Report(m, id))
    ensures (if id in snapshots then snapshots[id].extStartSN else Mod32(m.start)) == Mod32(ReportFrom(m, id))
  {
  }

  /** Moving the snapshots that stand at the old start moves exactly those that have not
      reported yet: a reported one stands above the start. */
  lemma MovedFollows(m: Model, p: Packet, snapshots: map<nat, Snapshot>)
    requires Inv(m) && m.started && !m.ended && Representable(m) && m.start < MOD16
    requires Extend(m.head, p.sn) <= m.head && Follow(snapshots, m)
    ensures var m' := Receive(m, p);
            if Judge(m, p.sn) == BelowStart then
              m'.start >= 0 ==> Follow(Moved(snapshots, m.start, p.sn), m')
            else Follow(snapshots, m')
  {
    var m' := Receive(m, p);
    if Judge(m, p.sn) == BelowStart && m'.start >= 0 {
      Mod16Near(m'.start);
      Mod32Absorbs(m'.start, 0);
      Mod32Absorbs(m.start, 0);
      forall id | id in m.reported ensures Mod32(m.reported[id]) != m.start {
        Mod32Separates(m.reported[id], m.start);
      }
    }
  }

  /** The cycle counter steps exactly when the 16-bit head wraps. */
  lemma HeadAdvances(head: int, diff: int, cycles: uint16)
    requires 0 < diff <= HALF16 && cycles * 0x1_0000 + Mod16(head) == Mod32(head)
    ensures var sn := Mod16(head + diff);
            (if sn < Mod16(head) then Add16(cycles, 1) else cycles) * 0x1_0000 + sn == Mod32(head + diff)
  {
    Mod16Absorbs(head, diff);
    Mod32Absorbs(head, diff);
    hide Mod16, Mod32;
    WrapCarries(Mod16(head), cycles, diff);
  }

  /** The slots of the skipped numbers are cleared and the next one takes the packet. */
  lemma RingJump(ring: seq<SnInfo>, w: int, head: int, got: map<int, SnInfo>, gap: nat, i: SnInfo)
    requires RingHolds(ring, w, head, got) && forall e :: e in got ==> e <= head
    ensures RingHolds(Cleared(ring, w, gap)[Mask(w + gap) := i], Mask(w + gap + 1),
                      head + gap + 1, got[head + gap + 1 := i])
  {
    RingClear(ring, w, head, got, gap);
    hide RingHolds, Mask;
    MaskSucc(w + gap);
    RingAdvance(Cleared(ring, w, gap), Mask(w + gap), head + gap, got, got[head + gap + 1 := i]);
  }

  /** What a packet ahead of the head must leave behind for the fields to agree again. */
  lemma JumpFacts(m: Model, p: Packet, ring: seq<SnInfo>, w: int, highestSN: uint16, cycles: uint16, lost: uint32)
    requires Inv(m) && m.started && !m.ended
    requires highestSN == Mod16(m.head) && cycles * 0x1_0000 + highestSN == Mod32(m.head)
    requires Extend(m.head, p.sn) > m.head && RingHolds(ring, w, m.head, m.got)
    ensures var m', gap := Receive(m, p), Sub16(p.sn, highestSN) - 1;
            && gap >= 0
            && RingHolds(Cleared(ring, w, gap)[Mask(w + gap) := InfoOf(p)], Mask(w + gap + 1), m'.head, m'.got)
            && (lost == Mod32(Totals(m).packetsLost) ==> Mod32(Totals(m').packetsLost) == Add32(lost, gap))
            && (if p.sn < highestSN then Add16(cycles, 1) else cycles) * 0x1_0000 + p.sn == Mod32(m'.head)
            && p.sn == Mod16(m'.head)
  {
    ExtendByDistance(m.head, p.sn);
    ReceiveTotals(m, p);
    hide RingHolds, Mod16, Mod32, Extend, Sub16, Mask, Cleared, Tally;
    var gap := Sub16(p.sn, highestSN) - 1;
    HeadAdvances(m.head, gap + 1, cycles);
    Mod32Adds(Totals(m).packetsLost, gap);
    RingJump(ring, w, m.head, m.got, gap, InfoOf(p));
  }

  /** How the traffic counters move for an accepted packet */
  lemma CountedOnce(t: IntervalStats, t': IntervalStats, p: Packet)
    requires SamePayload(t', t.Plus(OneOf(InfoOf(p))))
    ensures if p.payloadSize == 0 then
              && Mod32(t'.packetsPadding) == Add32(Mod32(t.packetsPadding), 1)
              && t'.bytesPadding == t.bytesPadding + p.Size()
              && t'.headerBytesPadding == t.headerBytesPadding + p.hdrSize
              && t'.bytes == t.bytes && t'.headerBytes == t.headerBytes
            else
              && t'.bytes == t.bytes + p.Size() && t'.headerBytes == t.headerBytes + p.hdrSize
              && t'.packetsPadding == t.packetsPadding
              && t'.bytesPadding == t.bytesPadding && t'.headerBytesPadding == t.headerBytesPadding
  {
    Mod32Adds(t.packetsPadding, 1);
    hide Mod32, Add32;
  }

  lemma FirstFacts(m: Model, p: Packet, ring: seq<SnInfo>, w: int)
    requires Inv(m) && !m.started && !m.ended
    requires |ring| == WINDOW && 0 <= w < WINDOW && forall i :: 0 <= i < |ring| ==> ring[i] == LOST
    ensures var m' := Receive(m, p);
            && RingHolds(Cleared(ring, w, 0)[Mask(w) := InfoOf(p)], Mask(w + 1), m'.head, m'.got)
            && Totals(m') == OneOf(InfoOf(p))
  {
    assert Mask(w) == w;
    hide Mask, Tally, Totals, Mod16, Extend;
    ReceiveTotals(m, p);
    RingAdvance(ring, w, p.sn - 1, map[], Receive(m, p).got);
  }

  datatype FlowState = FlowState(hasLoss: bool, lossStartInclusive: uint16, lossEndExclusive: uint16)

  const NO_LOSS := FlowState(false, 0, 0)

  /** The loss a packet reveals: the numbers strictly between the old head and it. */
  function FlowOf(m: Model, sn: uint16): FlowState {
    if !m.ended && m.started && Extend(m.head, sn) > m.head + 1
    then FlowState(true, Mod16(m.head + 1), sn)
    else NO_LOSS
  }

  const FIRST_SNAPSHOT_ID := 1

  datatype ReceptionReport = ReceptionReport(fractionLost: int, totalLost: int, lastSequenceNumber: uint32)

  datatype Snapshot = Snapshot(extStartSN: uint32)

  class RTPStats {
    var initialized: bool
    var ended: bool

    var extStartSN: uint32
    var highestSN: uint16
    var cycles: uint16

    var bytes: nat
    var headerBytes: nat
    var bytesDuplicate: nat
    var headerBytesDuplicate: nat
    var bytesPadding: nat
    var headerBytesPadding: nat
    var packetsDuplicate: uint32
    var packetsPadding: uint32
    var packetsOutOfOrder: uint32
    var packetsLost: uint32

    const snInfos: array<SnInfo>
    var snInfoWritePtr: int

    var nextSnapshotId: nat
    var snapshots: map<nat, Snapshot>

    /** What the fields stand for */
    ghost var m: Model

    /** Holds in every reachable state */
    ghost predicate WellFormed()
      reads this
    {
      && snInfos.Length == WINDOW && 0 <= snInfoWritePtr < WINDOW
      && Inv(m) && initialized == m.started && ended == m.ended
      && (if initialized then highestSN == Mod16(m.head) else snapshots == map[])
    }

    ghost predicate Position(mm: Model)
      reads `highestSN, `cycles, `extStartSN
    {
      && highestSN == Mod16(mm.head) && GetExtHighestSN() == Mod32(mm.head)
      && extStartSN == mm.start < MOD16 && Representable(mm)
    }

    ghost predicate Lost(t: IntervalStats)
      reads `packetsLost
    {
      packetsLost == Mod32(t.packetsLost)
    }

    ghost predicate Payload(t: IntervalStats)
      reads `bytes, `headerBytes, `packetsPadding, `bytesPadding, `headerBytesPadding
    {
      && bytes == t.bytes && headerBytes == t.headerBytes
      && packetsPadding == Mod32(t.packetsPadding)
      && bytesPadding == t.bytesPadding && headerBytesPadding == t.headerBytesPadding
    }

    ghost predicate Duplicates(mm: Model)
      reads `packetsOutOfOrder, `packetsDuplicate, `bytesDuplicate, `headerBytesDuplicate
    {
      && packetsOutOfOrder == Mod32(mm.late) && packetsDuplicate == Mod32(mm.dups)
      && bytesDuplicate == mm.dupBytes && headerBytesDuplicate == mm.dupHeaderBytes
    }

    ghost predicate Ring(mm: Model)
      reads `snInfoWritePtr, snInfos
    {
      RingHolds(snInfos[..], snInfoWritePtr, mm.head, mm.got)
    }

    /** Everything but the traffic counters agrees, and positions do if they can be represented. */
    ghost predicate Placed(mm: Model)
      reads this, snInfos
    {
      && Lost(Totals(mm)) && Duplicates(mm) && Ring(mm)
      && GetExtHighestSN() == Mod32(mm.head) && extStartSN == Mod16(mm.start)
      && (Representable(mm) ==> Position(mm) && Follow(snapshots, mm))
    }

    /** Ring and head agree, whatever has become of start and counters. */
    ghost predicate Tracks(mm: Model)
      reads this, snInfos
    {
      Ring(mm) && GetExtHighestSN() == Mod32(mm.head)
    }

    ghost predicate Tracked()
      reads this, snInfos
    {
      && WellFormed()
      && if initialized then Tracks(m)
         else
           && extStartSN == highestSN == cycles == 0 && packetsLost == 0
           && forall i :: 0 <= i < snInfos.Length ==> snInfos[i] == LOST
    }

    /** The code takes a late packet to be below the start. */
    predicate Adjusts(p: Packet)
      reads this
    {
      Expected() < HALF16 && Sub16(p.sn, extStartSN) >= HALF16
    }

    /** What the loss counter becomes */
    function LateLost(p: Packet): uint32
      requires snInfos.Length == WINDOW
      reads this, snInfos
    {
      if Adjusts(p) then Add32(packetsLost, Sub16(extStartSN, p.sn) - 1)
      else if IsSnInfoLost(p.sn) then Sub32(packetsLost, 1)
      else packetsLost
    }

    function NextLost(p: Packet): uint32
      requires snInfos.Length == WINDOW
      reads this, snInfos
    {
      var diff := Sub16(p.sn, highestSN);
      if !initialized then packetsLost
      else if diff == 0 || diff > HALF16 then LateLost(p)
      else Add32(packetsLost, diff - 1)
    }

    /** The one late packet whose slot is overwritten although it was accepted before: the code takes
        it to be below the start, which it is not. */
    ghost predicate Overwrites(p: Packet)
      requires WellFormed()
      reads this
    {
      initialized && Extend(m.head, p.sn) <= m.head && Adjusts(p) && Judge(m, p.sn) == Duplicate
    }

    /** What a packet carries over from agreement whether or not positions can still be represented:
        lost, duplicates, traffic and ring agree, and positions do as far as they fit. */
    ghost predicate Carried()
      reads this, snInfos
    {
      WellFormed() && m.started && Placed(m) && Payload(Totals(m)) && Near(m)
    }

    /** The fields agree with the model in every respect. */
    ghost predicate Valid()
      reads this, snInfos
    {
      && WellFormed()
      && Lost(Totals(m)) && Payload(Totals(m)) && Duplicates(m)
      && if initialized then Position(m) && Follow(snapshots, m) && Ring(m)
         else
           && extStartSN == highestSN == cycles == 0 && snapshots == map[]
           && forall i :: 0 <= i < snInfos.Length ==> snInfos[i] == LOST
    }

    function GetExtHighestSN(): uint32
      reads `cycles, `highestSN
    {
      cycles * 0x1_0000 + highestSN
    }

    /** Packets expected, as the code computes it in 32 bits */
    function Expected(): uint32
      reads this
    {
      Mod32(GetExtHighestSN() - extStartSN + 1)
    }

    constructor ()
      ensures Valid() && m == EMPTY && fresh(snInfos)
    {
      initialized, ended := false, false;
      extStartSN, highestSN, cycles := 0, 0, 0;
      bytes, headerBytes, bytesDuplicate, headerBytesDuplicate := 0, 0, 0, 0;
      bytesPadding, headerBytesPadding := 0, 0;
      packetsDuplicate, packetsPadding, packetsOutOfOrder, packetsLost := 0, 0, 0, 0;
      snInfos := new SnInfo[WINDOW](_ => LOST);
      snInfoWritePtr := 0;
      nextSnapshotId, snapshots := FIRST_SNAPSHOT_ID, map[];
      m := EMPTY;
    }

    // ------------------------------------------------------------ ring access

    function GetSnInfoOutOfOrderPtr(sn: uint16): int
      reads this
    {
      var offset := Sub16(sn, highestSN);
      if 0 < offset < HALF16 then -1
      else
        var back := Sub16(highestSN, sn);
        if back >= WINDOW then -1 else Slot(snInfoWritePtr, back)
    }

    method SetSnInfo(sn: uint16, info: SnInfo)
      requires snInfos.Length == WINDOW && 0 <= snInfoWritePtr < WINDOW
      modifies this`snInfoWritePtr, snInfos
      ensures var w, back := old(snInfoWritePtr), Sub16(highestSN, sn);
              if Sub16(sn, highestSN) <= HALF16 then
                snInfos[..] == old(snInfos[..])[w := info] && snInfoWritePtr == Mask(w + 1)
              else if back < WINDOW then
                snInfos[..] == old(snInfos[..])[Slot(w, back) := info] && snInfoWritePtr == w
              else
                snInfos[..] == old(snInfos[..]) && snInfoWritePtr == w
    {
      var writePtr: int;
      if Sub16(sn, highestSN) <= HALF16 {
        writePtr := snInfoWritePtr;
        snInfoWritePtr := Mask(writePtr + 1);
      } else {
        writePtr := GetSnInfoOutOfOrderPtr(sn);
        if writePtr < 0 {
          return;
        }
      }
      snInfos[writePtr] := info;
    }

    method ClearSnInfos(startInclusive: uint16, endExclusive: uint16)
      requires snInfos.Length == WINDOW && 0 <= snInfoWritePtr < WINDOW
      modifies this`snInfoWritePtr, snInfos
      ensures var n := Sub16(endExclusive, startInclusive);
              && snInfos[..] == Cleared(old(snInfos[..]), old(snInfoWritePtr), n)
              && snInfoWritePtr == Mask(old(snInfoWritePtr) + n)
    {
      ghost var n: nat, total := 0, Sub16(endExclusive, startInclusive);
      assert Mask(snInfoWritePtr) == snInfoWritePtr && Mod16(startInclusive) == startInclusive;
      hide Mask, Mod16, Add16, Sub16;
      var sn := startInclusive;
      while sn != endExclusive
        invariant n <= total && sn == Mod16(startInclusive + n)
        invariant 0 <= snInfoWritePtr < WINDOW && snInfoWritePtr == Mask(old(snInfoWritePtr) + n)
        invariant snInfos[..] == Cleared(old(snInfos[..]), old(snInfoWritePtr), n)
        decreases total - n
      {
        CountsUp(startInclusive, endExclusive, n);
        MaskSucc(old(snInfoWritePtr) + n);
        Mod16Succ(startInclusive + n);
        snInfos[snInfoWritePtr] := LOST;
        snInfoWritePtr := Mask(snInfoWritePtr + 1);
        sn := Add16(sn, 1);
        n := n + 1;
      }
      CountsUp(startInclusive, endExclusive, n);
    }

    predicate IsSnInfoLost(sn: uint16)
      requires snInfos.Length == WINDOW
      reads this, snInfos
    {
      var readPtr := GetSnInfoOutOfOrderPtr(sn);
      readPtr >= 0 && snInfos[readPtr].pktSize == 0
    }

    // ----------------------------------------------------------------- update

    /** Snapshots that stand at the old start follow the start. */
    method MoveSnapshots(beforeAdjust: uint32)
      modifies this`snapshots
      ensures snapshots == Moved(old(snapshots), beforeAdjust, extStartSN)
    {
      var ids := snapshots.Keys;
      while ids != {}
        invariant ids <= snapshots.Keys == old(snapshots).Keys
        invariant forall id :: id in ids ==> snapshots[id] == old(snapshots)[id]
        invariant forall id :: id in snapshots && id !in ids ==>
                    snapshots[id] == Moved(old(snapshots), beforeAdjust, extStartSN)[id]
        decreases ids
      {
        var id :| id in ids;
        if snapshots[id].extStartSN == beforeAdjust {
          snapshots := snapshots[id := Snapshot(extStartSN)];
        }
        ids := ids - {id};
      }
    }

    /** True, and the start moves, exactly when the packet is below the start. */
    method MaybeAdjustStartSN(p: Packet) returns (adjusted: bool)
      requires snInfos.Length == WINDOW && 0 <= snInfoWritePtr < WINDOW
      modifies this`packetsLost, this`extStartSN, this`snapshots, this`snInfoWritePtr, snInfos
      ensures adjusted <==> old(Expected()) < HALF16 && Sub16(p.sn, old(extStartSN)) >= HALF16
      ensures !adjusted ==>
                && packetsLost == old(packetsLost) && extStartSN == old(extStartSN) && snapshots == old(snapshots)
                && snInfos[..] == old(snInfos[..]) && snInfoWritePtr == old(snInfoWritePtr)
      ensures adjusted ==>
                && extStartSN == p.sn
                && packetsLost == Add32(old(packetsLost), Sub16(old(extStartSN), p.sn) - 1)
                && snapshots == Moved(old(snapshots), old(extStartSN), p.sn)
      ensures adjusted ==> Stored(p, old(snInfos[..]), old(snInfoWritePtr))
    {
      if Expected() >= HALF16 {
        return false;
      }
      if Sub16(p.sn, extStartSN) < HALF16 {
        return false;
      }
      packetsLost := Add32(packetsLost, Sub16(extStartSN, p.sn) - 1);
      var beforeAdjust := extStartSN;
      extStartSN := p.sn;
      SetSnInfo(p.sn, InfoOf(p));

      MoveSnapshots(beforeAdjust);
      return true;
    }

    /** The duplicate test is exact for the numbers the ring still remembers; an older
        number always counts as a duplicate. */
    lemma LostExactly(sn: uint16)
      requires WellFormed() && initialized && Ring(m) && Extend(m.head, sn) <= m.head
      ensures var e := Extend(m.head, sn);
              IsSnInfoLost(sn) <==> m.head - e < WINDOW && e !in m.got
    {
      var e := Extend(m.head, sn);
      ExtendByDistance(m.head, sn);
      if m.head - e < WINDOW {
        LostIffMissing(snInfos[..], snInfoWritePtr, m, m.head - e);
      }
    }

    method FillOrDrop(p: Packet) returns (isDuplicate: bool)
      requires WellFormed() && initialized
      modifies this`packetsLost, snInfos, this`snInfoWritePtr,
               this`bytesDuplicate, this`headerBytesDuplicate, this`packetsDuplicate
      ensures isDuplicate <==> !old(IsSnInfoLost(p.sn))
      ensures isDuplicate ==>
                && bytesDuplicate == old(bytesDuplicate) + p.Size()
                && headerBytesDuplicate == old(headerBytesDuplicate) + p.hdrSize
                && packetsDuplicate == Add32(old(packetsDuplicate), 1)
                && packetsLost == old(packetsLost)
                && snInfos[..] == old(snInfos[..]) && snInfoWritePtr == old(snInfoWritePtr)
      ensures !isDuplicate ==>
                && bytesDuplicate == old(bytesDuplicate) && headerBytesDuplicate == old(headerBytesDuplicate)
                && packetsDuplicate == old(packetsDuplicate)
                && packetsLost == Sub32(old(packetsLost), 1)
                && Stored(p, old(snInfos[..]), old(snInfoWritePtr))
    {
      if !IsSnInfoLost(p.sn) {
        bytesDuplicate := bytesDuplicate + p.Size();
        headerBytesDuplicate := headerBytesDuplicate + p.hdrSize;
        packetsDuplicate := Add32(packetsDuplicate, 1);
        return true;
      }
      packetsLost := Sub32(packetsLost, 1);
      SetSnInfo(p.sn, InfoOf(p));
      return false;
    }

    /** The branch conditions of the code tell the verdicts on a late packet apart. */
    lemma LateBranches(p: Packet)
      requires Valid() && initialized && Extend(m.head, p.sn) <= m.head
      ensures var v := Judge(m, p.sn);
              && v in {BelowStart, Fill, Duplicate, TooOld}
              && (v == BelowStart <==> Expected() < HALF16 && Sub16(p.sn, extStartSN) >= HALF16)
              && (v != BelowStart ==> (v == Fill <==> IsSnInfoLost(p.sn)))
              && (v in {BelowStart, Fill} ==> Sub16(p.sn, highestSN) > HALF16)
    {
      ClassificationExact(m, p.sn, highestSN, GetExtHighestSN());
      LostExactly(p.sn);
      hide Sub16, Mod16, Mod32, Extend, RingHolds;
    }

    /** What each branch must leave behind for the fields to agree with the model again: loss and ring, */
    lemma LateOutcome(p: Packet)
      requires Valid() && initialized && !ended && Extend(m.head, p.sn) <= m.head
      ensures var m', v, back := Receive(m, p), Judge(m, p.sn), Sub16(highestSN, p.sn);
              var ring := snInfos[..];
              && m'.head == m.head && m'.started
              && Mod32(Totals(m').packetsLost) == (
                   match v
                   case BelowStart => Add32(packetsLost, Sub16(extStartSN, p.sn) - 1)
                   case Fill => Sub32(packetsLost, 1)
                   case _ => packetsLost)
              && RingHolds(if v in {BelowStart, Fill} && back < WINDOW
                           then ring[Slot(snInfoWritePtr, back) := InfoOf(p)] else ring,
                           snInfoWritePtr, m'.head, m'.got)
    {
      hide Sub16, Add32, Sub32, RingHolds, Mod16, Mod32, Mask, Tally, Extend, Totals, InfoOf, Slot, Follow, Inv;
      ClassificationExact(m, p.sn, highestSN, GetExtHighestSN());
      LateKeepsRing(m, p, snInfos[..], snInfoWritePtr);
      LateLoss(m, p, packetsLost);
    }

    /** and start and snapshots. */
    lemma LateStart(p: Packet)
      requires Valid() && initialized && !ended && Extend(m.head, p.sn) <= m.head
      ensures var m', v := Receive(m, p), Judge(m, p.sn);
              && Mod16(m'.start) == (if v == BelowStart then p.sn else extStartSN)
              && (m'.start >= 0 ==> m'.start < MOD16 && m'.start == Mod16(m'.start))
              && (if v == BelowStart then m'.start >= 0 ==> Follow(Moved(snapshots, extStartSN, p.sn), m')
                  else Follow(snapshots, m'))
    {
      hide Add32, Sub32, RingHolds, Mod32, Mask, Tally, Totals, InfoOf, Slot, Follow, Moved;
      ClassificationExact(m, p.sn, highestSN, GetExtHighestSN());
      MovedFollows(m, p, snapshots);
      Mod16Near(m.start);
      Mod16Near(m.start - Sub16(m.start, p.sn));
      hide Sub16, Mod16, Extend;
    }

    lemma LateCounts(p: Packet)
      requires Valid() && initialized && !ended && Extend(m.head, p.sn) <= m.head
      ensures var m', v := Receive(m, p), Judge(m, p.sn);
              && Mod32(m'.late) == (if Sub16(p.sn, highestSN) != 0 then Add32(packetsOutOfOrder, 1)
                                    else packetsOutOfOrder)
              && (if v in {Duplicate, TooOld} then
                    && Mod32(m'.dups) == Add32(packetsDuplicate, 1)
                    && m'.dupBytes == bytesDuplicate + p.Size()
                    && m'.dupHeaderBytes == headerBytesDuplicate + p.hdrSize
                  else
                    && Mod32(m'.dups) == packetsDuplicate
                    && m'.dupBytes == bytesDuplicate && m'.dupHeaderBytes == headerBytesDuplicate)
    {
      ClassificationExact(m, p.sn, highestSN, GetExtHighestSN());
      Mod32Adds(m.late, 1);
      Mod32Adds(m.dups, 1);
      hide Sub16, Add32, Mod16, Mod32, Extend, RingHolds, Tally;
    }

    /** What a late packet must leave in the ring */
    lemma LateTracks(p: Packet)
      requires Tracked() && initialized && !ended && Extend(m.head, p.sn) <= m.head && !Overwrites(p)
      ensures var m', back, stores := Receive(m, p), Sub16(highestSN, p.sn), Adjusts(p) || IsSnInfoLost(p.sn);
              && m'.head == m.head
              && (stores ==> Sub16(p.sn, highestSN) > HALF16)
              && RingHolds(if stores && back < WINDOW then snInfos[..][Slot(snInfoWritePtr, back) := InfoOf(p)]
                           else snInfos[..], snInfoWritePtr, m'.head, m'.got)
    {
      ExtendByDistance(m.head, p.sn);
      LostExactly(p.sn);
      LateKeepsRing(m, p, snInfos[..], snInfoWritePtr);
      hide Sub16, Mod16, Mod32, Extend, RingHolds, Slot, RTPStats.IsSnInfoLost, RTPStats.Adjusts;
    }

    /** A packet at or behind the head: it moves the start, fills a hole, or is a duplicate. */
    method LatePacket(p: Packet) returns (isDuplicate: bool)
      requires WellFormed() && initialized && !ended && Extend(m.head, p.sn) <= m.head
      modifies this, snInfos
      ensures unchanged(`m, `ended, `packetsPadding, `bytesPadding, `headerBytesPadding, `bytes, `headerBytes)
      ensures unchanged(`initialized, `highestSN, `cycles)
      ensures 0 <= snInfoWritePtr < WINDOW && packetsLost == old(LateLost(p))
      ensures old(Valid()) ==>
                (isDuplicate <==> Judge(m, p.sn) in {Duplicate, TooOld}) && Placed(Receive(m, p))
      ensures old(Tracked() && !Overwrites(p)) ==> Tracks(Receive(m, p))
    {
      hide Sub16, Add32, Sub32, RingHolds, Mod16, Mod32, Slot, Receive, Judge, Totals, Extend, Inv, Follow, Moved;
      if Tracked() && !Overwrites(p) {
        LateTracks(p);
      }
      if Valid() {
        LateBranches(p);
        LateOutcome(p);
        LateStart(p);
        LateCounts(p);
      }
      if Sub16(p.sn, highestSN) != 0 {
        packetsOutOfOrder := Add32(packetsOutOfOrder, 1);
      }
      isDuplicate := Settle(p);
    }

    /** Moves the start, fills a hole or counts a duplicate, by what the fields say. */
    method Settle(p: Packet) returns (isDuplicate: bool)
      requires WellFormed() && initialized
      modifies this, snInfos
      ensures unchanged(`m, `ended, `packetsPadding, `bytesPadding, `headerBytesPadding, `bytes, `headerBytes)
      ensures unchanged(`initialized, `highestSN, `cycles, `packetsOutOfOrder)
      ensures isDuplicate <==> !old(Adjusts(p)) && !old(IsSnInfoLost(p.sn))
      ensures packetsLost == old(LateLost(p))
      ensures if isDuplicate then
                && bytesDuplicate == old(bytesDuplicate) + p.Size()
                && headerBytesDuplicate == old(headerBytesDuplicate) + p.hdrSize
                && packetsDuplicate == Add32(old(packetsDuplicate), 1)
                && snInfos[..] == old(snInfos[..]) && snInfoWritePtr == old(snInfoWritePtr)
              else
                && unchanged(`bytesDuplicate, `headerBytesDuplicate, `packetsDuplicate)
                && Stored(p, old(snInfos[..]), old(snInfoWritePtr))
      ensures if old(Adjusts(p)) then
                extStartSN == p.sn && snapshots == Moved(old(snapshots), old(extStartSN), p.sn)
              else unchanged(`extStartSN, `snapshots)
    {
      hide Sub16, Add32, Sub32, Inv, Moved, Stored, Mod16, Mod32;
      isDuplicate := false;
      var adjusted := MaybeAdjustStartSN(p);
      if !adjusted {
        isDuplicate := FillOrDrop(p);
      }
    }

    /** A packet ahead of the head, by at most half a cycle */
    method InOrderPacket(p: Packet, first: bool) returns (flow: FlowState)
      requires snInfos.Length == WINDOW && 0 <= snInfoWritePtr < WINDOW
      requires 0 < Sub16(p.sn, highestSN) <= HALF16
      modifies this`packetsLost, this`cycles, this`highestSN, this`snInfoWritePtr, snInfos
      ensures 0 <= snInfoWritePtr < WINDOW
      ensures flow == if Sub16(p.sn, old(highestSN)) > 1
                      then FlowState(true, Add16(old(highestSN), 1), p.sn) else NO_LOSS
      ensures packetsLost == Add32(old(packetsLost), Sub16(p.sn, old(highestSN)) - 1)
      ensures highestSN == p.sn
      ensures cycles == if p.sn < old(highestSN) && !first then Add16(old(cycles), 1) else old(cycles)
      ensures snInfos[..] == Cleared(old(snInfos[..]), old(snInfoWritePtr), Sub16(p.sn, old(highestSN)) - 1)
                             [Mask(old(snInfoWritePtr) + Sub16(p.sn, old(highestSN)) - 1) := InfoOf(p)]
      ensures snInfoWritePtr == Mask(old(snInfoWritePtr) + Sub16(p.sn, old(highestSN)))
    {
      hide Sub16, Add16, Add32, Mod16, Mask, Cleared, Slot;
      OneCloser(highestSN, p.sn);
      var diff := Sub16(p.sn, highestSN);
      flow := NO_LOSS;
      if diff > 1 {
        flow := FlowState(true, Add16(highestSN, 1), p.sn);
      }
      ClearSnInfos(Add16(highestSN, 1), p.sn);
      MaskSucc(old(snInfoWritePtr) + diff - 1);
      packetsLost := Add32(packetsLost, diff - 1);
      SetSnInfo(p.sn, InfoOf(p));
      if p.sn < highestSN && !first {
        cycles := Add16(cycles, 1);
      }
      highestSN := p.sn;
    }

    method CountPayload(p: Packet, isDuplicate: bool, ghost t: IntervalStats, ghost m': Model)
      requires snInfos.Length == WINDOW && 0 <= snInfoWritePtr < WINDOW
      requires Inv(m') && initialized == m'.started == true && ended == m'.ended && highestSN == Mod16(m'.head)
      modifies this`packetsPadding, this`bytesPadding, this`headerBytesPadding, this`bytes, this`headerBytes, this`m
      ensures m == m' && WellFormed() && (old(Tracks(m')) ==> Tracked())
      ensures old(Placed(m')) && old(Payload(t)) && Representable(m') &&
              (if isDuplicate then Totals(m') == t else SamePayload(Totals(m'), t.Plus(OneOf(InfoOf(p)))))
              ==> Valid()
      ensures old(Placed(m')) && old(Payload(t)) &&
              (if isDuplicate then Totals(m') == t else SamePayload(Totals(m'), t.Plus(OneOf(InfoOf(p)))))
              ==> Placed(m) && Payload(Totals(m))
    {
      hide Inv, RingHolds, Totals, Follow, Lost, Duplicates, Ring, Position, Mod16, Mod32, Add32, OneOf, InfoOf,
           SamePayload, IntervalStats.Plus, RawPacket.Size;
      if !isDuplicate {
        if SamePayload(Totals(m'), t.Plus(OneOf(InfoOf(p)))) {
          CountedOnce(t, Totals(m'), p);
        }
        if p.payloadSize == 0 {
          packetsPadding := Add32(packetsPadding, 1);
          bytesPadding := bytesPadding + p.Size();
          headerBytesPadding := headerBytesPadding + p.hdrSize;
        } else {
          bytes := bytes + p.Size();
          headerBytes := headerBytes + p.hdrSize;
        }
      }
      m := m';
    }

    /** Head and loss indication need the 16-bit head only. */
    lemma HeadFacts(p: Packet)
      requires WellFormed() && !ended
      ensures var m', diff := Receive(m, p), Sub16(p.sn, highestSN);
              && m'.started && !m'.ended
              && (if !initialized then
                    && Sub16(p.sn, Sub16(p.sn, 1)) == 1
                    && Mod16(m'.head) == p.sn && FlowOf(m, p.sn) == NO_LOSS
                  else if diff == 0 || diff > HALF16 then
                    Extend(m.head, p.sn) <= m.head && m'.head == m.head && FlowOf(m, p.sn) == NO_LOSS
                  else
                    && Extend(m.head, p.sn) > m.head && Mod16(m'.head) == p.sn
                    && FlowOf(m, p.sn) == if diff > 1 then FlowState(true, Add16(highestSN, 1), p.sn) else NO_LOSS)
    {
      ExtendByDistance(m.head, p.sn);
      Mod16Succ(m.head);
      FirstDistance(p.sn);
      hide Mod16, Sub16, Add16, Extend;
    }

    /** What the first packet must leave behind for the fields to agree with the model. */
    lemma FirstAgrees(p: Packet)
      requires Valid() && !ended && !initialized
      ensures var m' := Receive(m, p);
              && Judge(m, p.sn) == First && m'.head == m'.start == p.sn == Mod16(p.sn) && m'.reported == map[]
              && RingHolds(Cleared(snInfos[..], snInfoWritePtr, 0)[Mask(snInfoWritePtr) := InfoOf(p)],
                           Mask(snInfoWritePtr + 1), m'.head, m'.got)
              && Totals(m').packetsLost == 0 == Add32(packetsLost, 0) && Duplicates(m') && Representable(m')
    {
      ReceiveTotals(m, p);
      FirstFacts(m, p, snInfos[..], snInfoWritePtr);
      hide Tally, RingHolds;
    }

    /** What a packet ahead of the head must leave behind. */
    lemma JumpAgrees(p: Packet)
      requires Valid() && !ended && initialized && Extend(m.head, p.sn) > m.head
      ensures var m', gap := Receive(m, p), Sub16(p.sn, highestSN) - 1;
              && Judge(m, p.sn) == Jump && gap >= 0
              && RingHolds(Cleared(snInfos[..], snInfoWritePtr, gap)[Mask(snInfoWritePtr + gap) := InfoOf(p)],
                           Mask(snInfoWritePtr + gap + 1), m'.head, m'.got)
              && Mod32(Totals(m').packetsLost) == Add32(packetsLost, gap)
              && (if p.sn < highestSN then Add16(cycles, 1) else cycles) * 0x1_0000 + p.sn == Mod32(m'.head)
              && Duplicates(m') && m'.start == m.start == Mod16(m.start) && Follow(snapshots, m')
    {
      JumpFacts(m, p, snInfos[..], snInfoWritePtr, highestSN, cycles, packetsLost);
      Mod16Near(m.start);
      hide Tally, RingHolds, Sub16, Mask, Cleared, Mod16, Mod32, Add16, Add32;
    }

    lemma TrafficAgrees(p: Packet)
      requires WellFormed() && !ended
      ensures var m', t := Receive(m, p), Totals(m);
              && Inv(m') && m'.started && !m'.ended
              && (Valid() ==> Payload(t))
              && if Judge(m, p.sn) in {Duplicate, TooOld} then Totals(m') == t
                 else SamePayload(Totals(m'), t.Plus(OneOf(InfoOf(p))))
    {
      ReceiveKeepsInv(m, p);
      ReceivePayload(m, p);
      hide Tally, RingHolds;
    }

    lemma FirstTracks(p: Packet)
      requires Tracked() && !initialized && !ended
      ensures var m' := Receive(m, p);
              && Mod32(m'.head) == p.sn
              && RingHolds(Cleared(snInfos[..], snInfoWritePtr, 0)[Mask(snInfoWritePtr) := InfoOf(p)],
                           Mask(snInfoWritePtr + 1), m'.head, m'.got)
    {
      FirstFacts(m, p, snInfos[..], snInfoWritePtr);
      hide RingHolds;
    }

    lemma JumpTracks(p: Packet)
      requires Tracked() && initialized && !ended && Extend(m.head, p.sn) > m.head
      ensures var m', gap := Receive(m, p), Sub16(p.sn, highestSN) - 1;
              && gap >= 0
              && RingHolds(Cleared(snInfos[..], snInfoWritePtr, gap)[Mask(snInfoWritePtr + gap) := InfoOf(p)],
                           Mask(snInfoWritePtr + gap + 1), m'.head, m'.got)
              && (if p.sn < highestSN then Add16(cycles, 1) else cycles) * 0x1_0000 + p.sn == Mod32(m'.head)
    {
      JumpFacts(m, p, snInfos[..], snInfoWritePtr, highestSN, cycles, packetsLost);
      hide Tally, RingHolds, Sub16, Mask, Cleared, Mod16, Mod32, Add16, Add32;
    }

    method Initialize(sn: uint16)
      requires snapshots == map[]
      modifies this`initialized, this`highestSN, this`extStartSN, this`cycles, this`snapshots
      ensures initialized && highestSN == Sub16(sn, 1) && extStartSN == sn && cycles == 0
      ensures forall id :: id in snapshots ==> snapshots[id].extStartSN == sn
    {
      initialized := true;
      highestSN := Sub16(sn, 1);
      extStartSN := sn;
      cycles := 0;
      InitSnapshots();
    }

    method InitSnapshots()
      requires snapshots == map[]
      modifies this`snapshots
      ensures forall id :: id in snapshots ==> snapshots[id].extStartSN == extStartSN
    {
      var i := FIRST_SNAPSHOT_ID;
      while i < nextSnapshotId
        invariant forall id :: id in snapshots ==> snapshots[id].extStartSN == extStartSN
      {
        snapshots := snapshots[i := Snapshot(extStartSN)];
        i := i + 1;
      }
    }

    /** The first packet: the head is set just behind it, and it is then in order. */
    method FirstPacket(p: Packet) returns (flow: FlowState)
      requires WellFormed() && !initialized && !ended
      modifies this, snInfos
      ensures unchanged(`m, `ended, `packetsPadding, `bytesPadding, `headerBytesPadding, `bytes, `headerBytes)
      ensures 0 <= snInfoWritePtr < WINDOW && initialized && highestSN == p.sn
      ensures flow == FlowOf(m, p.sn)
      ensures packetsLost == old(packetsLost)
      ensures old(Valid()) ==> Judge(m, p.sn) == First && Placed(Receive(m, p))
      ensures old(Tracked()) ==> Tracks(Receive(m, p))
    {
      hide Receive, Judge, Extend, Inv, RingHolds, Totals, Sub16, Add16, Add32, Mask, Cleared, FlowOf;
      HeadFacts(p);
      if Tracked() {
        FirstTracks(p);
      }
      Mod32Near(packetsLost);
      Mod32Adds(packetsLost, 0);
      if Valid() {
        FirstAgrees(p);
      }
      Initialize(p.sn);
      flow := InOrderPacket(p, true);
    }

    /** A packet ahead of the head of a started stream */
    method JumpPacket(p: Packet) returns (flow: FlowState)
      requires WellFormed() && initialized && !ended
      requires 0 < Sub16(p.sn, highestSN) <= HALF16 && Extend(m.head, p.sn) > m.head
      modifies this, snInfos
      ensures unchanged(`m, `ended, `packetsPadding, `bytesPadding, `headerBytesPadding, `bytes, `headerBytes)
      ensures unchanged(`initialized)
      ensures 0 <= snInfoWritePtr < WINDOW && highestSN == p.sn
      ensures flow == FlowOf(m, p.sn)
      ensures packetsLost == Add32(old(packetsLost), Sub16(p.sn, old(highestSN)) - 1)
      ensures old(Valid()) ==> Judge(m, p.sn) == Jump && Placed(Receive(m, p))
      ensures old(Tracked()) ==> Tracks(Receive(m, p))
    {
      hide Receive, Judge, Extend, Inv, RingHolds, Totals, Sub16, Add16, Add32, Mask, Cleared, FlowOf, Follow;
      HeadFacts(p);
      if Tracked() {
        JumpTracks(p);
      }
      if Valid() {
        JumpAgrees(p);
      }
      flow := InOrderPacket(p, false);
    }

    /** The switch of Update: everything but the traffic counters */
    method Place(p: Packet) returns (flow: FlowState, isDuplicate: bool)
      requires WellFormed() && !ended
      modifies this, snInfos
      ensures unchanged(`m, `ended, `packetsPadding, `bytesPadding, `headerBytesPadding, `bytes, `headerBytes)
      ensures 0 <= snInfoWritePtr < WINDOW && initialized
      ensures highestSN == Mod16(Receive(m, p).head) && flow == FlowOf(m, p.sn)
      ensures packetsLost == old(NextLost(p))
      ensures old(Valid()) ==>
                (isDuplicate <==> Judge(m, p.sn) in {Duplicate, TooOld}) && Placed(Receive(m, p))
      ensures old(Tracked() && !Overwrites(p)) ==> Tracks(Receive(m, p))
    {
      HeadFacts(p);
      hide Receive, Judge, Extend, Inv, Sub16, Mod16, FlowOf, Valid, Placed, Tracked, Tracks, LateLost, Add32;
      flow := NO_LOSS;
      isDuplicate := false;
      var diff := Sub16(p.sn, highestSN);
      if !initialized {
        flow := FirstPacket(p);
      } else if diff == 0 || diff > HALF16 {
        isDuplicate := LatePacket(p);
      } else {
        flow := JumpPacket(p);
      }
    }

    /** Whatever arrives, the head and the loss indication follow the model. If the fields
        agreed with the model in every respect they still do, as long as the start and the
        length of the stream can be represented. */
    method Update(p: Packet) returns (flow: FlowState)
      requires WellFormed()
      modifies this, snInfos
      ensures WellFormed() && m == Receive(old(m), p)
      ensures flow == FlowOf(old(m), p.sn)
      ensures old(Valid()) && Representable(m) ==> Valid()
      ensures old(Valid()) && !m.ended ==> Carried() && (Expected() == packetsLost + |m.got| <==> Representable(m))
      ensures packetsLost == if m.ended then old(packetsLost) else old(NextLost(p))
      ensures old(Tracked() && !Overwrites(p)) ==> Tracked()
    {
      if ended {
        return NO_LOSS;
      }
      hide Receive, Judge, Inv, RingHolds, Totals, Mod16, Mod32, FlowOf, OneOf, Follow, Placed, Payload, Valid, InfoOf,
           Representable, Near, RTPStats.GetExtHighestSN, RTPStats.NextLost, RTPStats.Overwrites, RTPStats.Tracks;
      ghost var was := Valid();
      if was {
        ValidStaysClose(p);
      }
      TrafficAgrees(p);
      ghost var m', t := Receive(m, p), Totals(m);
      var isDuplicate: bool;
      flow, isDuplicate := Place(p);
      CountPayload(p, isDuplicate, t, m');
      if was {
        BalanceExact();
      }
    }

    /** Whether the loss counter stays right, told before the call from the packet and the state. A
        packet ahead of the head never harms. A late one does unless the code takes it for what it is:
        below the start, in the right place, or not below it; or unless the two errors happen to be
        the same, for numbers next to the start. */
    ghost predicate LossStays(p: Packet)
      requires WellFormed()
      reads this
    {
      var e := Extend(m.head, p.sn);
      match Judge(m, p.sn)
      case First => true
      case Jump => true
      case BelowStart =>
        if Adjusts(p) then Sub16(extStartSN, p.sn) == m.start - e else m.head - e >= WINDOW && e == m.start - 1
      case Fill => !Adjusts(p)
      case Duplicate => Adjusts(p) ==> Sub16(extStartSN, p.sn) == 1
      case TooOld => Adjusts(p) ==> Sub16(extStartSN, p.sn) == 1
    }

    /** In every state whose ring, head and loss are right, start crossed or not, the loss counter is
        right after the next packet exactly when LossStays held before. */
    lemma LossStaysRight(p: Packet)
      requires Tracked() && !ended && Lost(Totals(m))
      ensures NextLost(p) == Mod32(Totals(Receive(m, p)).packetsLost) <==> LossStays(p)
    {
      hide Tally, RingHolds, Mod16, Mod32, Extend, Add32, Sub32, Inv;
      ReceiveTotals(m, p);
      if initialized {
        ExtendByDistance(m.head, p.sn);
        if Extend(m.head, p.sn) > m.head {
          Mod32Adds(Totals(m).packetsLost, Sub16(p.sn, highestSN) - 1);
        } else {
          LostExactly(p.sn);
          LateLossExact(p);
        }
      } else {
        FirstLoss(p);
      }
    }

    /** After the start has crossed 0, for as long as fewer than 65536 numbers are spanned, that is: the
        loss stays right unless a number below the start arrives, save the one next to it when it is
        too old to be remembered. */
    lemma CrossedLoss(p: Packet)
      requires Tracked() && initialized && !ended && Lost(Totals(m))
      requires -MOD16 <= m.start < 0 && extStartSN == m.start + MOD16 && m.head - m.start + 1 < MOD16
      ensures NextLost(p) == Mod32(Totals(Receive(m, p)).packetsLost) <==>
              (Extend(m.head, p.sn) < m.start ==>
                 m.head - Extend(m.head, p.sn) >= WINDOW && Extend(m.head, p.sn) == m.start - 1)
    {
      hide Tally, RingHolds, Mod16, Mod32, Extend, Inv, Sub16, RTPStats.NextLost, RTPStats.Ring;
      StartBelowHead();
      LossStaysRight(p);
      Mod32Absorbs(m.head, 1 - extStartSN);
      Mod32Near(m.head + 1 - extStartSN);
    }

    lemma FirstLoss(p: Packet)
      requires Tracked() && !initialized && !ended
      ensures Totals(Receive(m, p)).packetsLost == 0 && NextLost(p) == 0 == Mod32(0)
    {
      ReceiveTotals(m, p);
      hide Tally;
    }

    lemma LateLossExact(p: Packet)
      requires Tracked() && initialized && !ended && Lost(Totals(m)) && Extend(m.head, p.sn) <= m.head
      ensures LateLost(p) == Mod32(Totals(Receive(m, p)).packetsLost) <==> LossStays(p)
    {
      hide Tally, RingHolds, Mod16, Mod32, Extend, Add32, Sub32, Inv, Sub16, RTPStats.IsSnInfoLost;
      StartBelowHead();
      ReceiveTotals(m, p);
      LostExactly(p.sn);
      ExtendRange(m.head, p.sn);
      Sub16Turns(p.sn, extStartSN);
      LossMoves(Totals(m).packetsLost, if Adjusts(p) then Sub16(extStartSN, p.sn) else 0,
                m.start - Extend(m.head, p.sn));
    }

    lemma StartBelowHead()
      requires WellFormed() && initialized
      ensures m.start <= m.head && forall e :: e < m.start ==> e !in m.got
    {
    }

    lemma ValidStaysClose(p: Packet)
      requires Valid()
      ensures Near(Receive(m, p))
    {
      hide RingHolds, Tally, Mod32;
      StaysClose(m, p);
    }

    /** The number of packets expected, as the code computes it, is the number lost plus the
        number accepted exactly when start and length of the stream can be represented. */
    lemma BalanceExact()
      requires Carried()
      ensures Expected() == packetsLost + |m.got| <==> Representable(m)
    {
      Accounting(m);
      var lost, span := Totals(m).packetsLost, m.head - m.start + 1;
      Mod16Near(m.start);
      Mod32Absorbs(m.head, 1 - extStartSN);
      Mod32Near(m.head + 1 - extStartSN);
      Mod32Near(lost);
      hide Mod16, Mod32, Tally;
    }

    /** The slot of p.sn holds p, if that number still has a slot; or p was written
        under the write pointer when p.sn is not behind the head. */
    ghost predicate Stored(p: Packet, ring: seq<SnInfo>, w: int)
      reads this, snInfos
    {
      var back := Sub16(highestSN, p.sn);
      && |ring| == WINDOW && 0 <= w < WINDOW
      && if Sub16(p.sn, highestSN) <= HALF16 then
           snInfos[..] == ring[w := InfoOf(p)] && snInfoWritePtr == Mask(w + 1)
         else if back < WINDOW then
           snInfos[..] == ring[Slot(w, back) := InfoOf(p)] && snInfoWritePtr == w
         else
           snInfos[..] == ring && snInfoWritePtr == w
    }

    // ---------------------------------------------------------------- reports

    /** The slot read for a number holds what was accepted for it. */
    lemma SlotReads(sn: uint16)
      requires WellFormed() && initialized && Ring(m)
      ensures var ptr, back := GetSnInfoOutOfOrderPtr(sn), Mod16(m.head - sn);
              if back >= WINDOW then ptr < 0
              else 0 <= ptr < snInfos.Length && snInfos[ptr] == InfoAt(m.got, m.head - back)
    {
      SubOfMods(m.head, sn);
      SubOfMods(sn, m.head);
      Mod16Near(sn);
      NegatedMod(m.head - sn);
      hide Mod16, Sub16, Slot;
      var back := Mod16(m.head - sn);
      if back < WINDOW {
        assert snInfos[..][Slot(snInfoWritePtr, back)] == InfoAt(m.got, m.head - back);
      }
    }

    method ProcessSN(w: Walk, sn: uint16) returns (w': Walk)
      requires Valid() && initialized
      ensures w' == w.Plus(Step(m, sn))
    {
      SlotReads(sn);
      hide Mod16, Sub16, Slot, RingHolds, Tally;
      var readPtr := GetSnInfoOutOfOrderPtr(sn);
      if readPtr < 0 {
        return Walk(w.stats, w.notFound + 1);
      }
      var snInfo, s := snInfos[readPtr], w.stats;
      if snInfo.pktSize == 0 {
        s := s.(packetsLost := s.packetsLost + 1);
      } else if snInfo.isPaddingOnly {
        s := s.(packetsPadding := s.packetsPadding + 1,
                bytesPadding := s.bytesPadding + snInfo.pktSize,
                headerBytesPadding := s.headerBytesPadding + snInfo.hdrSize);
      } else {
        s := s.(packets := s.packets + 1,
                bytes := s.bytes + snInfo.pktSize,
                headerBytes := s.headerBytes + snInfo.hdrSize);
      }
      if snInfo.marker {
        s := s.(frames := s.frames + 1);
      }
      return Walk(s, w.notFound);
    }

    method GetIntervalStats(startInclusive: uint16, endExclusive: uint16)
      returns (stats: IntervalStats, packetsNotFound: nat)
      requires Valid() && initialized
      ensures Walk(stats, packetsNotFound) == WalkOf(m, startInclusive, endExclusive)
    {
      hide Step, Mod16, Add16, Sub16, Valid;
      var w := NO_STEPS;
      if startInclusive == endExclusive {
        var sn := 0;
        while sn < MOD16
          invariant 0 <= sn <= MOD16 && w == Steps(m, 0, sn)
        {
          w := ProcessSN(w, sn);
          sn := sn + 1;
        }
      } else {
        ghost var n: nat, total := 0, Sub16(endExclusive, startInclusive);
        var sn := startInclusive;
        Mod16Near(startInclusive);
        while sn != endExclusive
          invariant n <= total && sn == Mod16(startInclusive + n)
          invariant w == Steps(m, startInclusive, n)
          decreases total - n
        {
          CountsUp(startInclusive, endExclusive, n);
          Mod16Succ(startInclusive + n);
          ModOfMod(startInclusive + n);
          StepPeriodic(m, sn, startInclusive + n);
          w := ProcessSN(w, sn);
          sn := Add16(sn, 1);
          n := n + 1;
        }
        CountsUp(startInclusive, endExclusive, n);
      }
      return w.stats, w.notFound;
    }

    /** A report leaves everything but the snapshots as it was. */
    lemma ReportAgrees(id: nat)
      requires Valid() && initialized
      ensures var m' := Report(m, id);
              && Inv(m') && m'.started && m'.ended == m.ended && m'.head == m.head && Totals(m') == Totals(m)
              && Duplicates(m') && Position(m') && Ring(m')
      ensures var after := Snapshot(Add32(GetExtHighestSN(), 1));
              && after.extStartSN == Mod32(m.head + 1)
              && Follow(snapshots[id := after], Report(m, id))
              && (if id in snapshots then snapshots[id].extStartSN else extStartSN) == Mod32(ReportFrom(m, id))
    {
      ReportKeepsInv(m, id);
      ReportFollows(m, snapshots, id);
      Mod32Absorbs(m.head, 1);
      Mod32Near(m.start);
      hide Mod32, RingHolds, Tally, Inv, Follow, ReportFrom;
    }

    /** The span a snapshot id reports next: it begins where the last one ended. */
    method GetAndResetSnapshot(id: nat) returns (span: Option<(uint32, uint32)>)
      requires Valid()
      modifies this`snapshots, this`m
      ensures Valid() && m == Report(old(m), id)
      ensures span == if m.started then Some((Mod32(ReportFrom(old(m), id)), Mod32(m.head + 1))) else None
    {
      hide Mod32, Add32, Inv, Totals, Follow, ReportFrom, Lost, Payload, Duplicates, Position, Ring;
      assert !m.started ==> Report(m, id) == m;
      hide Report;
      if !initialized {
        return None;
      }
      ReportAgrees(id);
      var before := if id in snapshots then snapshots[id] else Snapshot(extStartSN);
      var after := Snapshot(Add32(GetExtHighestSN(), 1));
      snapshots := snapshots[id := after];
      m := Report(m, id);
      return Some((before.extStartSN, after.extStartSN));
    }

    method NewSnapshotId() returns (id: nat)
      requires Valid()
      modifies this`snapshots, this`nextSnapshotId
      ensures id == old(nextSnapshotId) && nextSnapshotId == id + 1
      ensures old(id !in m.reported) ==> Valid()
    {
      Mod32Absorbs(m.start, 0);
      hide Mod32, RingHolds, Tally, Totals, Inv;
      id := nextSnapshotId;
      if initialized {
        snapshots := snapshots[id := Snapshot(extStartSN)];
      }
      nextSnapshotId := id + 1;
    }

    method Stop()
      requires WellFormed()
      modifies this`ended, this`m
      ensures WellFormed() && m == old(m).(ended := true)
      ensures old(Valid()) ==> Valid()
    {
      hide RingHolds, Tally;
      ended := true;
      m := m.(ended := true);
    }

    /** packetsExpected - packetsLost - packetsPadding, guarded as in the code */
    function GetTotalPacketsPrimary(): uint32
      reads this
    {
      PrimaryOf(Expected(), packetsLost, packetsPadding)
    }

    /** PacketCount of a sender report */
    function PacketCount(): uint32
      reads this
    {
      Add32(Add32(GetTotalPacketsPrimary(), packetsDuplicate), packetsPadding)
    }

    /** The guards never fire: in a started stream the primary count is the number of accepted
        packets with payload, and a sender report counts every packet, accepted or duplicate. */
    lemma PrimaryExact()
      requires Valid() && initialized
      ensures packetsLost <= Expected() && packetsPadding <= Expected() - packetsLost
      ensures GetTotalPacketsPrimary() == Totals(m).packets == |m.got| - packetsPadding
      ensures PacketCount() == Mod32(|m.got| + m.dups)
    {
      hide Mod32, Add32, Tally, RingHolds, Follow;
      Accounting(m);
      Mod32Absorbs(m.head, 1 - m.start);
      Mod32Near(m.head + 1 - m.start);
      Mod32Near(Totals(m).packetsLost);
      Mod32Near(Totals(m).packetsPadding);
      AddCommutes32(Totals(m).packets, packetsDuplicate);
      Mod32Adds(m.dups, Totals(m).packets);
      Mod32Adds(m.dups + Totals(m).packets, packetsPadding);
    }

    /** Before the first packet the primary count is 1, although nothing was received. */
    lemma PrimaryBeforeStart()
      requires Valid() && !initialized
      ensures GetTotalPacketsPrimary() == 1 && |m.got| == 0
    {
      hide Tally;
    }

    lemma CarriedFields()
      requires Carried()
      ensures WellFormed() && initialized && Ring(m) && Lost(Totals(m))
      ensures extStartSN == Mod16(m.start) && highestSN == Mod16(m.head) && GetExtHighestSN() == Mod32(m.head)
    {
    }

    /** In a started stream the primary count is right exactly when position and length fit, or,
        past 2^32 numbers, when there is nothing but padding to speak of. */
    lemma PrimaryRight()
      requires Carried()
      ensures var t := Totals(m);
              && (GetTotalPacketsPrimary() == t.packets <==>
                    PrimaryFits(m.start, m.head - m.start + 1, t.packets, t.packetsPadding))
              && (m.start < 0 ==> GetTotalPacketsPrimary() == MOD32 - MOD16 + t.packets)
    {
      hide Mod16, Mod32, Tally, RingHolds, Follow, Representable;
      Accounting(m);
      var t := Totals(m);
      Mod32Absorbs(m.head, 1 - Mod16(m.start));
      PrimaryArithmetic(m.start, m.head - m.start + 1, t.packetsLost, t.packets, t.packetsPadding);
    }

    /** A sender report's packet count, taken in 32 bits, is right under the same condition, or when
        2^32 packets with payload were accepted. */
    lemma SenderCountRight()
      requires Carried()
      ensures var t := Totals(m);
              PacketCount() == Mod32(|m.got| + m.dups) <==>
                PrimaryFits(m.start, m.head - m.start + 1, t.packets, t.packetsPadding) ||
                (m.start >= 0 && t.packets >= MOD32)
    {
      hide Mod16, Mod32, Add32, Tally, RingHolds, Follow, Representable, PrimaryFits;
      Accounting(m);
      var t := Totals(m);
      Mod32Absorbs(m.head, 1 - Mod16(m.start));
      PrimaryArithmetic(m.start, m.head - m.start + 1, t.packetsLost, t.packets, t.packetsPadding);
      SumsAgree(GetTotalPacketsPrimary(), t.packets, m.dups, t.packetsPadding);
    }

    /** The span an id reports next, its length and what the walk over it counts; nothing
        before the first packet or when the span has more than 65536 numbers. */
    method TakeInterval(id: nat) returns (interval: Option<(uint32, uint32, IntervalStats)>)
      requires Valid()
      modifies this`snapshots, this`m
      ensures Valid() && m == Report(old(m), id)
      ensures var m0 := old(m);
              var from, expected := ReportFrom(m0, id), m0.head + 1 - ReportFrom(m0, id);
              if !m0.started || expected > MOD16 then interval == None
              else interval == Some((Mod32(m0.head + 1), expected, SpanStats(m0, from)))
    {
      ghost var from := ReportFrom(m, id);
      if m.started {
        SpanFacts(id);
      }
      hide Mod16, Mod32, Sub32, Tally, RingHolds, WalkOf, Inv, Valid, Totals, Follow;
      var span := GetAndResetSnapshot(id);
      if span == None {
        return None;
      }
      var (before, after) := span.value;
      var packetsExpected := Sub32(after, before);
      if packetsExpected > MOD16 {
        return None;
      }
      if packetsExpected == 0 {
        return Some((after, 0, ZERO));
      }
      var stats, _ := GetIntervalStats(Mod16(before), Mod16(after));
      return Some((after, packetsExpected, stats));
    }

    /** Reception report: nothing for an empty span or one of more than 65536 numbers; else what was
        lost of the last 2048 numbers of the span as a fraction of the span, the total lost, and one
        past the highest number. */
    method SnapshotRtcpReceptionReport(proxyFracLost: int, id: nat) returns (report: Option<ReceptionReport>)
      requires Valid() && 0 <= proxyFracLost <= 255
      modifies this`snapshots, this`m
      ensures Valid() && m == Report(old(m), id)
      ensures var m0 := old(m);
              var from, expected := ReportFrom(m0, id), m0.head + 1 - ReportFrom(m0, id);
              if !m0.started || expected == 0 || expected > MOD16 then report == None
              else
                && expected > 0
                && var fraction := FractionLost(SpanStats(m0, from).packetsLost, expected);
                && 0 <= fraction <= 255
                && report == Some(ReceptionReport(Max(proxyFracLost, fraction),
                                                  m0.head - m0.start + 1 - |m0.got|, Mod32(m0.head + 1)))
    {
      hide Mod32, Inv, Valid, FractionLost, SpanStats, Report, ReportFrom;
      if m.started {
        LossFacts(id);
      }
      var interval := TakeInterval(id);
      if interval == None || interval.value.1 == 0 {
        return None;
      }
      var (after, packetsExpected, stats) := interval.value;
      var fracLost := FractionLost(stats.packetsLost, packetsExpected);
      return Some(ReceptionReport(Max(proxyFracLost, fracLost), packetsLost, after));
    }

    /** What a subscriber of the delta statistics gets: traffic of the last 2048 numbers of the span,
        and in packets every number of the whole span that is not padding among these. That is the
        number of packets in the span exactly when none was lost and no padding is forgotten. */
    method DeltaInfo(id: nat) returns (delta: Option<IntervalStats>)
      requires Valid()
      modifies this`snapshots, this`m
      ensures Valid() && m == Report(old(m), id)
      ensures var m0 := old(m);
              var from, expected := ReportFrom(m0, id), m0.head + 1 - ReportFrom(m0, id);
              if !m0.started || expected > MOD16 then delta == None
              else
                && var t := SpanStats(m0, from);
                && t.packetsPadding <= expected
                && delta == Some(t.(packets := expected - t.packetsPadding))
                && delta.value.frames == |Picked(m0.got, Cut(m0, from), m0.head + 1, IsMarked)|
                && delta.value.bytes == SizeSum(m0.got, Cut(m0, from), m0.head + 1, false)
                && (delta.value.packets == TrueStats(m0, from).packets <==>
                      AllAccepted(m0.got, from, m0.head + 1) && NoPadding(m0.got, from, Cut(m0, from)))
    {
      hide Mod32, Inv, Valid, SpanStats, Report, ReportFrom, TrueStats, AllAccepted, NoPadding, Cut, Picked, SizeSum;
      if m.started {
        LossFacts(id);
        SpanPacketsExact(m, ReportFrom(m, id));
        SpanFields(id);
      }
      var interval := TakeInterval(id);
      if interval == None {
        return None;
      }
      var (_, packetsExpected, stats) := interval.value;
      return Some(stats.(packets := packetsExpected - stats.packetsPadding));
    }

    /** The span a snapshot id reports next, in the 32-bit and 16-bit numbers of the code */
    lemma SpanFacts(id: nat)
      requires Valid() && m.started
      ensures var from, expected := ReportFrom(m, id), m.head + 1 - ReportFrom(m, id);
              && 0 <= expected == Sub32(Mod32(m.head + 1), Mod32(from))
              && (expected == 0 ==> SpanStats(m, from) == ZERO)
              && (1 <= expected <= MOD16 ==>
                    WalkOf(Report(m, id), Mod16(Mod32(from)), Mod16(Mod32(m.head + 1))).stats == SpanStats(m, from))
    {
      hide Mod16, Mod32, Sub32, Tally, RingHolds, WalkOf, Totals;
      var from := ReportFrom(m, id);
      Distance32(from, m.head + 1);
      Mod16OfMod32(from);
      Mod16OfMod32(m.head + 1);
      if 1 <= m.head + 1 - from <= MOD16 {
        SpanExact(Report(m, id), from);
      } else if from == m.head + 1 {
        TallyEmpty(m.got, from);
      }
    }

    /** Frames and bytes of such a span */
    lemma SpanFields(id: nat)
      requires Valid() && m.started
      ensures var from := ReportFrom(m, id);
              && SpanStats(m, from).frames == |Picked(m.got, Cut(m, from), m.head + 1, IsMarked)|
              && SpanStats(m, from).bytes == SizeSum(m.got, Cut(m, from), m.head + 1, false)
    {
      hide Tally, RingHolds, Picked, SizeSum, HeaderSum;
      TallyFields(m.got, Cut(m, ReportFrom(m, id)), m.head + 1);
    }

    /** Loss on such a span, and on the whole stream */
    lemma LossFacts(id: nat)
      requires Valid() && m.started
      ensures var from, expected := ReportFrom(m, id), m.head + 1 - ReportFrom(m, id);
              && packetsLost == m.head - m.start + 1 - |m.got|
              && 0 <= SpanStats(m, from).packetsPadding <= expected
              && (1 <= expected ==> 0 <= FractionLost(SpanStats(m, from).packetsLost, expected) <= 255)
    {
      hide Mod16, Mod32, Tally, RingHolds;
      var from := ReportFrom(m, id);
      Accounting(m);
      Mod32Near(Totals(m).packetsLost);
      if from <= m.head {
        FractionFits(m, from);
        TallyCounts(m.got, Max(from, m.head + 1 - WINDOW), m.head + 1);
      } else {
        TallyEmpty(m.got, from);
      }
    }
  }

  function PrimaryOf(packetsExpected: uint32, packetsLost: uint32, packetsPadding: uint32): uint32 {
    if packetsLost > packetsExpected then 0
    else
      var packetsSeen := packetsExpected - packetsLost;
      if packetsPadding > packetsSeen then 0 else packetsSeen - packetsPadding
  }

  /** The count is right when position and length can be represented; past 2^32 numbers only for
      streams of padding; and never once the start has crossed 0, where it is 2^32 - 2^16 too high. */
  predicate PrimaryFits(start: int, span: int, packets: nat, padding: nat) {
    start >= 0 && (span < MOD32 || packets == 0 || padding >= MOD32)
  }

  lemma PrimaryArithmetic(start: int, span: int, lost: nat, packets: nat, padding: nat)
    requires lost + packets + padding == span <= MOD32 + HALF16
    requires -HALF16 < start < MOD16 && (start < 0 ==> span <= HALF16) && lost < MOD32
    ensures var primary := PrimaryOf(Mod32(span + start - Mod16(start)), Mod32(lost), Mod32(padding));
            && (primary == packets <==> PrimaryFits(start, span, packets, padding))
            && (start < 0 ==> primary == MOD32 - MOD16 + packets)
            && (primary == Mod32(packets) <==>
                  PrimaryFits(start, span, packets, padding) || (start >= 0 && packets >= MOD32))
  {
    Mod32Near(packets);
    Mod16Near(start);
    Mod32Near(span);
    Mod32Near(span - MOD16);
    Mod32Near(lost);
    Mod32Near(padding);
    hide Mod16, Mod32;
  }

  lemma ExtendRange(head: int, sn: uint16)
    ensures head - HALF16 < Extend(head, sn) <= head + HALF16
  {
  }

  lemma Sub16Turns(a: int, b: int)
    ensures Sub16(a, b) >= HALF16 ==> 0 < Sub16(b, a) <= HALF16
  {
  }

  lemma SameSum32(x: int, a: int, b: int)
    requires -MOD32 < a - b < MOD32
    ensures Mod32(x + a) == Mod32(x + b) <==> a == b
  {
  }

  /** The ways the code moves the counter, by `far` to its start or for a hole, against the way it
      ought to move, by `below` to the true start */
  lemma LossMoves(lost: nat, far: int, below: int)
    requires 0 <= far <= HALF16 && below < HALF16
    ensures far > 0 ==> Add32(Mod32(lost), far - 1) != Mod32(lost - 1)
    ensures far > 0 ==> (Add32(Mod32(lost), far - 1) == Mod32(lost) <==> far == 1)
    ensures Sub32(Mod32(lost), 1) == Mod32(lost - 1)
    ensures 0 < below ==>
              && (far > 0 ==> (Add32(Mod32(lost), far - 1) == Mod32(lost + below - 1) <==> far == below))
              && Sub32(Mod32(lost), 1) != Mod32(lost + below - 1)
              && (Mod32(lost) == Mod32(lost + below - 1) <==> below == 1)
  {
    Mod32Adds(lost, far - 1);
    Mod32Adds(lost, 1);
    SameSum32(lost, far - 1, -1);
    SameSum32(lost, far - 1, 0);
    if 0 < below {
      SameSum32(lost, far - 1, below - 1);
      SameSum32(lost, -1, below - 1);
      SameSum32(lost, 0, below - 1);
    }
    hide Mod32, Add32, Sub32;
  }

  /** Adding the same two terms in 32 bits neither makes nor hides a difference. */
  lemma SumsAgree(primary: uint32, packets: nat, dups: nat, padding: nat)
    ensures Add32(Add32(primary, Mod32(dups)), Mod32(padding)) == Mod32(packets + padding + dups) <==>
            primary == Mod32(packets)
  {
    hide Mod32, Add32;
    Mod32Near(primary);
    AddMods32(primary, dups);
    AddMods32(primary + dups, padding);
    Congruent32(primary, packets, dups + padding);
  }

  lemma Congruent32(a: int, b: int, c: int)
    requires 0 <= a < MOD32
    ensures Mod32(a + c) == Mod32(b + c) <==> a == Mod32(b)
  {
  }

  function Moved(snapshots: map<nat, Snapshot>, from: uint32, to: uint32): map<nat, Snapshot> {
    map id | id in snapshots :: if snapshots[id].extStartSN == from then Snapshot(to) else snapshots[id]
  }
}
