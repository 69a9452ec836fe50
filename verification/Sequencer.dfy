/** The sequencer of pkg/rtc/sequencer.go: a ring of pointers by target number into a ring of
    records by push order. Records are recycled while pointers to them remain; the class
    refines SequencerModel, where nothing is recycled. */
module SequencerRings {
  import opened SeqNum
  import opened SequencerModel
  import opened Wrappers

  const NO_META := PacketMeta(0, 0, 0, 0, 0, 0)

  /** Slot of the number `back` behind the head, when step is the slot after the head's */
  function At(step: int, back: int, max: int): int {
    if step - 1 - back < 0 then step - 1 - back + max else step - 1 - back
  }

  /** Index of the record pushed d pushes ago */
  function RecordAt(writePtr: int, d: int, maxTrack: int): int {
    if writePtr - d < 0 then writePtr - d + maxTrack else writePtr - d
  }

  function Next(i: int, size: int): int {
    if i + 1 == size then 0 else i + 1
  }

  /** wrap: slot reduced to [0, max) by adding or subtracting max */
  function Wrap(slot: int, max: int): (s: int)
    requires max > 0
    ensures 0 <= s < max
    ensures 0 <= slot < max ==> s == slot
    ensures -max <= slot < 0 ==> s == slot + max
    decreases if slot < 0 then -slot else slot
  {
    if slot < -max then Wrap(slot + max, max)
    else if slot < 0 then slot + max
    else if slot >= max then Wrap(slot - max, max)
    else slot
  }

  lemma {:induction false} WrapNext(slot: int, max: int)
    requires max > 0 && slot >= 0
    ensures Wrap(slot + 1, max) == Next(Wrap(slot, max), max)
    decreases slot
  {
    if slot >= max {
      WrapNext(slot - max, max);
    }
  }

  /** A slot holds no pointer unless the last call about its number was a push; then it points
      at that push's record, or, once maxTrack pushes followed, at whatever replaced it. */
  ghost predicate SlotHolds(p: Option<nat>, q: Model, e: int, writePtr: int) {
    if e in q.last && q.last[e].Pushed? then
      var d := |q.log| - q.last[e].n;
      p.Some? && p.value < q.maxTrack && (d <= q.maxTrack ==> p.value == RecordAt(writePtr, d, q.maxTrack))
    else p == None
  }

  ghost predicate SlotsHold(slots: seq<Option<nat>>, step: int, head: int, q: Model, writePtr: int) {
    && |slots| == q.max > 0 && 0 <= step < q.max
    && forall back :: 0 <= back < q.max ==>
         SlotHolds(slots[At(step, back, q.max)], q, head - back, writePtr)
  }

  ghost predicate RecordsHold(meta: seq<PacketMeta>, writePtr: int, q: Model) {
    && |meta| == q.maxTrack && 0 <= writePtr < q.maxTrack
    && forall d :: 1 <= d <= q.maxTrack && d <= |q.log| ==>
         meta[RecordAt(writePtr, d, q.maxTrack)] == q.log[|q.log| - d].meta
  }

  lemma RttKeeps(q: Model, rtt: uint32, slots: seq<Option<nat>>, step: int, writePtr: int, meta: seq<PacketMeta>)
    requires Inv(q) && SlotsHold(slots, step, q.head, q, writePtr) && RecordsHold(meta, writePtr, q)
    ensures var q' := SetRtt(q, rtt);
            Inv(q') && SlotsHold(slots, step, q'.head, q', writePtr) && RecordsHold(meta, writePtr, q')
  {
    var q' := SetRtt(q, rtt);
    RttKeepsInv(q, rtt);
    hide Inv, SetRtt;
    forall back | 0 <= back < q.max
      ensures SlotHolds(slots[At(step, back, q.max)], q', q.head - back, writePtr)
    {
      assert SlotHolds(slots[At(step, back, q.max)], q, q.head - back, writePtr);
    }
  }

  /** Clearing the slot after the head's moves the window up by one number nobody called about. */
  lemma SlotsAdvance(slots: seq<Option<nat>>, step: int, head: int, q: Model, writePtr: int)
    requires SlotsHold(slots, step, head, q, writePtr) && head + 1 !in q.last
    ensures SlotsHold(slots[step := None], Next(step, q.max), head + 1, q, writePtr)
  {
    var slots', step' := slots[step := None], Next(step, q.max);
    forall back | 0 <= back < q.max
      ensures SlotHolds(slots'[At(step', back, q.max)], q, head + 1 - back, writePtr)
    {
      if back > 0 {
        assert At(step', back, q.max) == At(step, back - 1, q.max) != step;
        assert SlotHolds(slots[At(step, back - 1, q.max)], q, head - (back - 1), writePtr);
      }
    }
  }

  /** All slots but that of number e agree with the model. */
  ghost predicate OthersHold(slots: seq<Option<nat>>, step: int, head: int, q: Model, writePtr: int, e: int) {
    && |slots| == q.max > 0 && 0 <= step < q.max
    && forall back :: 0 <= back < q.max && head - back != e ==>
         SlotHolds(slots[At(step, back, q.max)], q, head - back, writePtr)
  }

  lemma LastAdvance(slots: seq<Option<nat>>, step: int, head: int, q: Model, writePtr: int)
    requires SlotsHold(slots, step, head, q, writePtr)
    ensures OthersHold(slots, Next(step, q.max), head + 1, q, writePtr, head + 1)
    ensures At(Next(step, q.max), 0, q.max) == step
  {
    var step' := Next(step, q.max);
    forall back | 0 < back < q.max
      ensures SlotHolds(slots[At(step', back, q.max)], q, head + 1 - back, writePtr)
    {
      assert At(step', back, q.max) == At(step, back - 1, q.max);
      assert SlotHolds(slots[At(step, back - 1, q.max)], q, head - (back - 1), writePtr);
    }
  }

  /** Storing a push: its slot points at the new record, and pointers to records that were not
      overwritten stay right. */
  lemma PushSlots(q: Model, q': Model, slots: seq<Option<nat>>, step: int, head: int, writePtr: int, e: int)
    requires Inv(q) && OthersHold(slots, step, head, q, writePtr, e) && 0 <= head - e < q.max
    requires 0 <= writePtr < q.maxTrack
    requires q'.max == q.max && q'.maxTrack == q.maxTrack && |q'.log| == |q.log| + 1
    requires q'.last == q.last[e := Pushed(|q.log|)]
    ensures SlotsHold(slots[At(step, head - e, q.max) := Some(writePtr)], step, head, q', Next(writePtr, q.maxTrack))
  {
    var slots', writePtr' := slots[At(step, head - e, q.max) := Some(writePtr)], Next(writePtr, q.maxTrack);
    forall back | 0 <= back < q.max
      ensures SlotHolds(slots'[At(step, back, q.max)], q', head - back, writePtr')
    {
      if head - back != e {
        assert At(step, back, q.max) != At(step, head - e, q.max);
        assert SlotHolds(slots[At(step, back, q.max)], q, head - back, writePtr);
      }
    }
  }

  lemma PaddingSlots(q: Model, q': Model, slots: seq<Option<nat>>, step: int, head: int, writePtr: int, e: int)
    requires OthersHold(slots, step, head, q, writePtr, e) && 0 <= head - e < q.max
    requires q'.max == q.max && q'.maxTrack == q.maxTrack && q'.log == q.log
    requires q'.last == q.last[e := Padding]
    ensures SlotsHold(slots[At(step, head - e, q.max) := None], step, head, q', writePtr)
  {
    var slots' := slots[At(step, head - e, q.max) := None];
    forall back | 0 <= back < q.max
      ensures SlotHolds(slots'[At(step, back, q.max)], q', head - back, writePtr)
    {
      if head - back != e {
        assert At(step, back, q.max) != At(step, head - e, q.max);
        assert SlotHolds(slots[At(step, back, q.max)], q, head - back, writePtr);
      }
    }
  }

  lemma PushRecords(q: Model, q': Model, meta: seq<PacketMeta>, writePtr: int, r: Rec)
    requires RecordsHold(meta, writePtr, q)
    requires q'.maxTrack == q.maxTrack && q'.log == q.log + [r]
    ensures RecordsHold(meta[writePtr := r.meta], Next(writePtr, q.maxTrack), q')
  {
    var meta', writePtr' := meta[writePtr := r.meta], Next(writePtr, q.maxTrack);
    forall d | 1 <= d <= q.maxTrack && d <= |q'.log|
      ensures meta'[RecordAt(writePtr', d, q.maxTrack)] == q'.log[|q'.log| - d].meta
    {
      if d > 1 {
        assert RecordAt(writePtr', d, q.maxTrack) == RecordAt(writePtr, d - 1, q.maxTrack) != writePtr;
        assert q'.log[|q'.log| - d] == q.log[|q.log| - (d - 1)];
      }
    }
  }

  /** Stamping a record in place stamps the push it stands for and no other. */
  lemma StampRecords(q: Model, meta: seq<PacketMeta>, writePtr: int, n: nat, now: uint32)
    requires RecordsHold(meta, writePtr, q) && n < |q.log| && |q.log| - n <= q.maxTrack
    ensures var i := RecordAt(writePtr, |q.log| - n, q.maxTrack);
            0 <= i < |meta| && RecordsHold(meta[i := Stamp(meta[i], now)], writePtr, StampAt(q, n, now))
  {
    var i, q' := RecordAt(writePtr, |q.log| - n, q.maxTrack), StampAt(q, n, now);
    var meta' := meta[i := Stamp(meta[i], now)];
    assert meta[i] == q.log[|q.log| - (|q.log| - n)].meta;
    forall d | 1 <= d <= q.maxTrack && d <= |q'.log|
      ensures meta'[RecordAt(writePtr, d, q.maxTrack)] == q'.log[|q'.log| - d].meta
    {
      assert meta[RecordAt(writePtr, d, q.maxTrack)] == q.log[|q.log| - d].meta;
      if |q.log| - d != n {
        assert RecordAt(writePtr, d, q.maxTrack) != i;
      }
    }
  }

  lemma StampSlots(q: Model, slots: seq<Option<nat>>, step: int, writePtr: int, n: nat, now: uint32)
    requires SlotsHold(slots, step, q.head, q, writePtr)
    ensures SlotsHold(slots, step, q.head, StampAt(q, n, now), writePtr)
  {
    var q' := StampAt(q, n, now);
    forall back | 0 <= back < q.max
      ensures SlotHolds(slots[At(step, back, q.max)], q', q.head - back, writePtr)
    {
      assert SlotHolds(slots[At(step, back, q.max)], q, q.head - back, writePtr);
    }
  }

  /** A pointer left behind by an old push points at a record of a later one, which stands for
      another number: comparing target numbers is what makes it harmless. */
  lemma StalePointer(q: Model, meta: seq<PacketMeta>, writePtr: int, e: int, i: nat)
    requires Inv(q) && RecordsHold(meta, writePtr, q) && i < q.maxTrack
    requires e in q.last && q.last[e].Pushed? && |q.log| - q.last[e].n > q.maxTrack && q.head - e <= HALF16
    ensures meta[i].targetSeqNo != Mod16(e)
  {
    var d := if i < writePtr then writePtr - i else writePtr - i + q.maxTrack;
    assert RecordAt(writePtr, d, q.maxTrack) == i;
    StaleDiffers(q, e, q.last[e].n, |q.log| - d);
  }

  class Sequencer {
    var init: bool
    const max: int
    const slots: array<Option<nat>>
    const meta: array<PacketMeta>
    var metaWritePtr: nat
    var step: nat
    var headSN: uint16
    var rtt: uint32

    ghost var q: Model

    ghost predicate Valid()
      reads this, slots, meta
    {
      && Inv(q) && max == q.max
      && init == q.started && (init ==> headSN == Mod16(q.head)) && rtt == q.rtt
      && SlotsHold(slots[..], step, q.head, q, metaWritePtr)
      && RecordsHold(meta[..], metaWritePtr, q)
    }

    constructor (maxTrack: int, maxPadding: int)
      requires maxTrack > 0 && maxPadding >= 0
      ensures Valid() && q == Empty(maxTrack, maxPadding)
      ensures fresh(slots) && fresh(meta)
    {
      init := false;
      max := maxTrack + maxPadding;
      slots := new Option<nat>[maxTrack + maxPadding](_ => None);
      meta := new PacketMeta[maxTrack](_ => NO_META);
      metaWritePtr, step, headSN, rtt := 0, 0, 0, DEFAULT_RTT;
      q := Empty(maxTrack, maxPadding);
    }

    method SetRTT(rtt: uint32)
      requires Valid()
      modifies this`rtt, this`q
      ensures Valid() && q == SetRtt(old(q), rtt)
    {
      RttKeeps(q, rtt, slots[..], step, metaWritePtr, meta[..]);
      hide Inv, SlotsHold, RecordsHold;
      this.rtt := if rtt == 0 then DEFAULT_RTT else rtt;
      q := SetRtt(q, rtt);
    }

    method WrapSlot(slot: int) returns (s: int)
      requires max > 0
      ensures s == Wrap(slot, max)
    {
      s := slot;
      while s < 0
        invariant Wrap(s, max) == Wrap(slot, max)
      {
        s := s + max;
      }
      while s >= max
        invariant s >= 0 && Wrap(s, max) == Wrap(slot, max)
      {
        s := s - max;
      }
    }

    lemma Sizes()
      requires Valid()
      ensures slots.Length == max == q.max > 0 && 0 <= step < max
      ensures meta.Length == q.maxTrack && metaWritePtr < meta.Length
    {
    }

    lemma SameRates()
      requires Valid()
      ensures rtt == q.rtt
    {
    }

    /** The head a call is measured against: that of the stream, or just before its first number */
    ghost function HeadFor(offSn: uint16): int
      reads this
    {
      if q.started then q.head else offSn - 1
    }

    lemma Ready(offSn: uint16)
      requires Valid()
      ensures var head, e := HeadFor(offSn), ExtOf(q, offSn);
              && slots.Length == max == q.max > 0 && 0 <= step < max
              && SlotsHold(slots[..], step, head, q, metaWritePtr)
              && OthersHold(slots[..], step, head, q, metaWritePtr, e)
              && (forall k :: k > head ==> k !in q.last)
              && Mod16(head) == (if init then headSN else Sub16(offSn, 1))
      ensures var e, head, diff, back := ExtOf(q, offSn), HeadFor(offSn), Sub16(offSn, Mod16(HeadFor(offSn))),
                                         Sub16(Mod16(HeadFor(offSn)), offSn);
              && (e > head <==> 0 < diff <= HALF16)
              && (e > head ==> e == head + diff && offSn == Mod16(e))
              && (e == head <==> diff == 0)
              && (e <= head ==> e == head - back && q.started)
    {
      FirstDistance(offSn);
      ExtendByDistance(q.head, offSn);
      hide Mod16, Sub16, Extend, RecordsHold;
    }

    /** The slot for a target number, or no slot for a repetition of the head or a number max
        or more behind it. All other slots agree with the moved head. */
    method GetSlot(offSn: uint16) returns (slot: nat, isValid: bool)
      requires Valid()
      modifies this`init, this`step, this`headSN, slots
      ensures isValid <==> Accepts(q, offSn)
      ensures isValid <==>
                !old(init) ||
                var ahead, back := Sub16(offSn, old(headSN)), Sub16(old(headSN), offSn);
                0 < ahead && (ahead <= 0x8000 || back < max)
      ensures !isValid ==> Valid()
      ensures isValid ==>
                var e := ExtOf(q, offSn);
                var head := if q.started then Max(q.head, e) else e;
                && init && headSN == Mod16(head) && 0 <= head - e < max
                && OthersHold(slots[..], step, head, q, metaWritePtr, e)
                && slot == At(step, head - e, max) < max
    {
      hide Sub16, Mod16, Extend, Inv, SlotsHold, RecordsHold, OthersHold;
      ghost var e, head := ExtOf(q, offSn), HeadFor(offSn);
      Ready(offSn);
      if !init {
        headSN := Sub16(offSn, 1);
        init := true;
      }
      var diff := Sub16(offSn, headSN);
      if diff == 0 {
        return 0, false;
      }
      if diff > HALF16 {
        var back := Sub16(headSN, offSn);
        if back >= max {
          return 0, false;
        }
        slot := WrapSlot(step - back - 1);
        return slot, true;
      }
      headSN := offSn;
      ClearBetween(diff, head);
      LastAdvance(slots[..], Wrap(step + diff - 1, max), head + diff - 1, q, metaWritePtr);
      WrapNext(step + diff - 1, max);
      slot := WrapSlot(step + diff - 1);
      step := WrapSlot(step + diff);
      isValid := true;
    }

    /** Invalidates the slots of the numbers strictly between the head and the next one. */
    method ClearBetween(diff: int, ghost head: int)
      requires 0 < diff && slots.Length == max == q.max > 0 && 0 <= step < max
      requires SlotsHold(slots[..], step, head, q, metaWritePtr)
      requires forall k :: k > head ==> k !in q.last
      modifies slots
      ensures SlotsHold(slots[..], Wrap(step + diff - 1, max), head + diff - 1, q, metaWritePtr)
    {
      hide SlotsHold;
      var idx := 0;
      while idx < diff - 1
        invariant 0 <= idx <= diff - 1
        invariant SlotsHold(slots[..], Wrap(step + idx, max), head + idx, q, metaWritePtr)
      {
        var i := WrapSlot(step + idx);
        SlotsAdvance(slots[..], i, head + idx, q, metaWritePtr);
        WrapNext(step + idx, max);
        slots[i] := None;
        idx := idx + 1;
      }
    }

    method Push(sn: uint16, offSn: uint16, timestamp: uint32, layer: int) returns (r: Option<nat>)
      requires Valid()
      modifies this, slots, meta
      ensures Valid() && q == SequencerModel.Push(old(q), sn, offSn, timestamp, layer)
      ensures r.Some? <==> Accepts(old(q), offSn)
      ensures r.Some? ==> r.value < meta.Length && meta[r.value] == PacketMeta(sn, offSn, timestamp, 0, 0, layer)
    {
      Sizes();
      hide Inv, SlotsHold, RecordsHold, OthersHold, Mod16, Extend;
      ghost var q' := SequencerModel.Push(q, sn, offSn, timestamp, layer);
      ghost var e := ExtOf(q, offSn);
      PushKeepsInv(q, sn, offSn, timestamp, layer);
      var slot, isValid := GetSlot(offSn);
      if !isValid {
        return None;
      }
      r := Some(metaWritePtr);
      StoreRecord(slot, PacketMeta(sn, offSn, timestamp, 0, 0, layer), e, q');
    }

    /** Puts the record under the write pointer, points the slot at it, and moves on. */
    method StoreRecord(slot: nat, record: PacketMeta, ghost e: int, ghost q': Model)
      requires slots.Length == max == q.max == q'.max && 0 <= step < max
      requires meta.Length == q.maxTrack == q'.maxTrack && metaWritePtr < meta.Length
      requires Inv(q) && Inv(q') && q'.log == q.log + [Rec(e, record)] && q'.last == q.last[e := Pushed(|q.log|)]
      requires init && q'.started && headSN == Mod16(q'.head) && rtt == q'.rtt
      requires OthersHold(slots[..], step, q'.head, q, metaWritePtr, e) && RecordsHold(meta[..], metaWritePtr, q)
      requires 0 <= q'.head - e < max && slot == At(step, q'.head - e, max) < max
      modifies `metaWritePtr, `q, slots, meta
      ensures Valid() && q == q' && meta[old(metaWritePtr)] == record
    {
      hide Inv, SlotsHold, RecordsHold, OthersHold, Mod16, At;
      PushSlots(q, q', slots[..], step, q'.head, metaWritePtr, e);
      PushRecords(q, q', meta[..], metaWritePtr, Rec(e, record));
      meta[metaWritePtr] := record;
      slots[slot] := Some(metaWritePtr);
      metaWritePtr := metaWritePtr + 1;
      if metaWritePtr >= meta.Length {
        metaWritePtr := metaWritePtr - meta.Length;
      }
      q := q';
    }

    method PushPadding(offSn: uint16)
      requires Valid()
      modifies this, slots
      ensures Valid() && q == SequencerModel.PushPadding(old(q), offSn)
    {
      ghost var q' := SequencerModel.PushPadding(q, offSn);
      PaddingKeepsInv(q, offSn);
      var slot, isValid := GetSlot(offSn);
      if !isValid {
        return;
      }
      PaddingSlots(q, q', slots[..], step, q'.head, metaWritePtr, ExtOf(q, offSn));
      hide Inv, SlotsHold, OthersHold, Mod16;
      slots[slot] := None;
      q := q';
    }

    /** The two-ring lookup finds a record exactly when the model does, and it is that push's. */
    lemma LookupExact(sn: uint16)
      requires Valid()
      ensures var diff := Sub16(headSN, sn);
              if diff <= HALF16 && diff < max then
                var p := slots[At(step, diff, max)];
                if p.Some? && p.value < meta.Length && meta[p.value].targetSeqNo == sn then
                  && Find(q, sn).Some?
                  && var n := Find(q, sn).value;
                  && n < |q.log| && |q.log| - n <= q.maxTrack
                  && p.value == RecordAt(metaWritePtr, |q.log| - n, q.maxTrack)
                  && meta[p.value] == q.log[n].meta
                else Find(q, sn) == None
              else Find(q, sn) == None
      ensures var diff := Sub16(headSN, sn);
              diff < max ==> slots[At(step, diff, max)].Some? ==> slots[At(step, diff, max)].value < meta.Length
    {
      var diff := Sub16(headSN, sn);
      SubOfMods(q.head, sn);
      Mod16Near(sn);
      BackToResidue(q.head, sn);
      assert q.started ==> diff == Sub16(q.head, sn);
      hide Mod16, Sub16;
      var e := q.head - diff;
      if diff <= HALF16 && diff < max {
        var p := slots[At(step, diff, max)];
        assert SlotHolds(slots[..][At(step, diff, max)], q, e, metaWritePtr);
        if p.Some? {
          var n := q.last[e].n;
          if |q.log| - n <= q.maxTrack {
            assert meta[..][RecordAt(metaWritePtr, |q.log| - n, q.maxTrack)] == q.log[|q.log| - (|q.log| - n)].meta;
          } else {
            StalePointer(q, meta[..], metaWritePtr, e, p.value);
          }
        }
      }
    }

    /** One requested number; the result points at the record handed out. */
    method RequestOne(sn: uint16, now: uint32) returns (r: Option<nat>)
      requires Valid()
      modifies this`q, meta
      ensures Valid() && q == Request(old(q), sn, now)
      ensures match Handed(old(q), sn, now)
              case None => r == None
              case Some(n) =>
                && n < |q.log| && |q.log| - n <= q.maxTrack
                && r == Some(RecordAt(metaWritePtr, |q.log| - n, q.maxTrack))
    {
      hide Inv, SlotsHold, RecordsHold, Mod16, Sub16, Finds, Find, RecordAt, At, Due, Valid, Wrap;
      Sizes();
      SameRates();
      LookupExact(sn);
      r := None;
      var diff := Sub16(headSN, sn);
      if diff > HALF16 || diff >= max {
        return;
      }
      var slot := WrapSlot(step - diff - 1);
      WrapIsAt(step, diff, max);
      var p := slots[slot];
      if p == None || meta[p.value].targetSeqNo != sn {
        return;
      }
      if Due(meta[p.value], now, rtt) {
        StampRecord(p.value, Find(q, sn).value, now);
        r := p;
      }
    }

    method StampRecord(i: nat, ghost n: nat, now: uint32)
      requires Valid() && n < |q.log| && |q.log| - n <= q.maxTrack
      requires i == RecordAt(metaWritePtr, |q.log| - n, q.maxTrack)
      modifies this`q, meta
      ensures Valid() && q == StampAt(old(q), n, now)
    {
      StampKeepsInv(q, n, now);
      StampRecords(q, meta[..], metaWritePtr, n, now);
      StampSlots(q, slots[..], step, metaWritePtr, n, now);
      hide Inv, SlotsHold, RecordsHold, Mod16, RecordAt;
      meta[i] := Stamp(meta[i], now);
      q := StampAt(q, n, now);
    }

    /** The records for the requested numbers, as pointers into the record ring */
    method GetPacketsMeta(seqNo: seq<uint16>, now: uint32) returns (metas: seq<nat>)
      requires Valid()
      modifies this`q, meta
      ensures Valid() && q == Requests(old(q), seqNo, now)
      ensures var handed := HandedOut(old(q), seqNo, now);
              && |metas| == |handed|
              && forall k :: 0 <= k < |metas| ==>
                   && handed[k] < |q.log| && metas[k] < meta.Length
                   && meta[metas[k]] == q.log[handed[k]].meta
    {
      hide Inv, SlotsHold, RecordsHold, Mod16, Handed, Request, RecordAt;
      metas := [];
      ghost var handed: seq<nat> := [];
      var i := 0;
      while i < |seqNo|
        invariant 0 <= i <= |seqNo| && Valid()
        invariant q == Requests(old(q), seqNo[..i], now) && handed == HandedOut(old(q), seqNo[..i], now)
        invariant |metas| == |handed|
        invariant forall k :: 0 <= k < |metas| ==>
                    && handed[k] < |q.log| && |q.log| - handed[k] <= q.maxTrack
                    && metas[k] == RecordAt(metaWritePtr, |q.log| - handed[k], q.maxTrack)
      {
        RequestsKeepLog(q, [seqNo[i]], now);
        RequestsOne(q, seqNo[i], now);
        assert seqNo[..i + 1][..i] == seqNo[..i];
        ghost var h := Handed(q, seqNo[i], now);
        var r := RequestOne(seqNo[i], now);
        if r.Some? {
          metas := metas + [r.value];
          handed := handed + [h.value];
        }
        i := i + 1;
      }
      assert seqNo[..i] == seqNo;
      forall k | 0 <= k < |metas| ensures metas[k] < meta.Length && meta[metas[k]] == q.log[handed[k]].meta {
        RecordRead(|q.log| - handed[k]);
      }
    }

    lemma RecordRead(d: nat)
      requires Valid() && 1 <= d <= q.maxTrack && d <= |q.log|
      ensures 0 <= RecordAt(metaWritePtr, d, q.maxTrack) < meta.Length
      ensures meta[RecordAt(metaWritePtr, d, q.maxTrack)] == q.log[|q.log| - d].meta
    {
      assert meta[..][RecordAt(metaWritePtr, d, q.maxTrack)] == q.log[|q.log| - d].meta;
    }
  }

  lemma WrapIsAt(step: int, back: int, max: int)
    requires 0 <= step < max && 0 <= back < max
    ensures Wrap(step - back - 1, max) == At(step, back, max)
  {
  }

  lemma RequestsOne(q: Model, sn: uint16, now: uint32)
    ensures Requests(q, [sn], now) == Request(q, sn, now)
  {
    assert [sn][..0] == [];
    assert Requests(q, [], now) == q;
  }
}
