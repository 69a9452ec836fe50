/** Keyframe detection in H.264 RTP payloads (pkg/buffer/helpers.go, IsH264Keyframe): single
    units, aggregates (RFC 6184 section 5.7) and fragments (section 5.8). */
module H264 {

  type byte = x: int | 0 <= x < 0x100

  const SPS: int := 7
  const STAP_A: int := 24
  const STAP_B: int := 25
  const MTAP16: int := 26
  const MTAP24: int := 27

  /** b & 0x1F */
  function NalType(b: byte): int {
    b % 32
  }

  /** A 16-bit size in network byte order */
  function Size16(hi: byte, lo: byte): int {
    var high: int := hi;
    high * 256 + lo
  }

  predicate Aggregate(kind: int) {
    STAP_A <= kind <= MTAP24
  }

  /** Bytes in front of a unit inside its own size: DOND and timestamp offset */
  function PrefixSize(kind: int): nat {
    if kind == MTAP16 then 3 else if kind == MTAP24 then 4 else 0
  }

  /** Bytes between the payload header and the first unit: the DON, except in STAP-A */
  function DonSize(kind: int): nat {
    if kind == STAP_A then 0 else 2
  }

  /** The walk over an aggregate from i on: it ends at the first unit that is cut off or too short
      to have a NAL header, or at the first sequence parameter set. */
  predicate Walk(p: seq<byte>, i: int, prefix: nat)
    requires 0 <= i
    decreases |p| - i
  {
    && i + 2 <= |p|
    && var size := Size16(p[i], p[i + 1]);
    && i + 2 + size <= |p|
    && prefix < size
    && (NalType(p[i + 2 + prefix]) == SPS || Walk(p, i + 2 + size, prefix))
  }

  predicate Keyframe(p: seq<byte>) {
    && |p| > 0
    && var kind := NalType(p[0]);
    if Aggregate(kind) then Walk(p, 1 + DonSize(kind), PrefixSize(kind))
    else if kind == 28 || kind == 29 then |p| > 1 && p[1] >= 0x80 && NalType(p[1]) == SPS
    else kind == SPS
  }

  method IsH264Keyframe(payload: seq<byte>) returns (r: bool)
    ensures r == Keyframe(payload)
  {
    if |payload| < 1 {
      return false;
    }
    var nalu := NalType(payload[0]);
    if nalu == 0 {
      return false;
    } else if nalu <= 23 {
      return nalu == SPS;
    } else if nalu == STAP_A || nalu == STAP_B || nalu == MTAP16 || nalu == MTAP24 {
      var i := 1;
      if nalu == STAP_B || nalu == MTAP16 || nalu == MTAP24 {
        i := i + 2;
      }
      while i < |payload|
        invariant 0 <= i
        invariant Keyframe(payload) == Walk(payload, i, PrefixSize(nalu))
        decreases |payload| - i
      {
        if i + 2 > |payload| {
          return false;
        }
        var length := Size16(payload[i], payload[i + 1]);
        i := i + 2;
        if i + length > |payload| {
          return false;
        }
        var offset := 0;
        if nalu == MTAP16 {
          offset := 3;
        } else if nalu == MTAP24 {
          offset := 4;
        }
        if offset >= length {
          return false;
        }
        var n := NalType(payload[i + offset]);
        if n == SPS {
          return true;
        }
        i := i + length;
      }
      return false;
    } else if nalu == 28 || nalu == 29 {
      if |payload| < 2 {
        return false;
      }
      if payload[1] < 0x80 {
        return false;
      }
      return NalType(payload[1]) == SPS;
    }
    return false;
  }

  // ------------------------------------------------------- well-formed input

  /** One unit of an aggregate, with the DOND and timestamp offset in front of it in an MTAP */
  datatype Nal = Nal(prefix: seq<byte>, unit: seq<byte>)

  predicate Encodable(n: Nal, kind: int) {
    |n.prefix| == PrefixSize(kind) && |n.prefix| + |n.unit| < 0x1_0000
  }

  predicate AllEncodable(units: seq<Nal>, kind: int) {
    forall k :: 0 <= k < |units| ==> Encodable(units[k], kind)
  }

  /** The layout the walk expects: the size field covers the prefix as well. In a STAP, where
      there is no prefix, this is the layout of section 5.7.1 of RFC 6184. */
  function Encode(n: Nal): seq<byte>
    requires |n.prefix| + |n.unit| < 0x1_0000
  {
    var size := |n.prefix| + |n.unit|;
    [size / 256, size % 256] + n.prefix + n.unit
  }

  function EncodeAll(units: seq<Nal>, kind: int): seq<byte>
    requires AllEncodable(units, kind)
  {
    if |units| == 0 then [] else Encode(units[0]) + EncodeAll(units[1..], kind)
  }

  predicate IsSps(n: Nal) {
    |n.unit| > 0 && NalType(n.unit[0]) == SPS
  }

  /** Position of the first sequence parameter set, if no empty unit comes before it */
  ghost predicate SpsComes(units: seq<Nal>) {
    exists k :: 0 <= k < |units| && IsSps(units[k]) && forall j :: 0 <= j < k ==> |units[j].unit| > 0
  }

  lemma SpsComesStep(units: seq<Nal>)
    requires |units| > 0
    ensures SpsComes(units) <==> |units[0].unit| > 0 && (IsSps(units[0]) || SpsComes(units[1..]))
  {
    var rest := units[1..];
    if SpsComes(units) {
      var k :| 0 <= k < |units| && IsSps(units[k]) && forall j :: 0 <= j < k ==> |units[j].unit| > 0;
      if k > 0 {
        assert IsSps(rest[k - 1]);
        assert forall j :: 0 <= j < k - 1 ==> rest[j] == units[j + 1];
      }
    }
    if |units[0].unit| > 0 && SpsComes(rest) {
      var k :| 0 <= k < |rest| && IsSps(rest[k]) && forall j :: 0 <= j < k ==> |rest[j].unit| > 0;
      assert IsSps(units[k + 1]);
      assert forall j :: 0 < j < k + 1 ==> units[j] == rest[j - 1];
    }
  }

  /** Where a unit was encoded, the walk reads back its size and its NAL header. */
  lemma WalkUnit(before: seq<byte>, n: Nal, after: seq<byte>, kind: int)
    requires Aggregate(kind) && Encodable(n, kind)
    ensures var p, i := before + Encode(n) + after, |before|;
            Walk(p, i, PrefixSize(kind)) ==
            (|n.unit| > 0 && (IsSps(n) || Walk(p, i + |Encode(n)|, PrefixSize(kind))))
  {
    var p, i, size := before + Encode(n) + after, |before|, |n.prefix| + |n.unit|;
    assert p[i] == size / 256 && p[i + 1] == size % 256;
    assert Size16(p[i], p[i + 1]) == size;
    if |n.unit| > 0 {
      assert p[i + 2 + |n.prefix|] == n.unit[0];
    }
  }

  lemma {:induction false} WalkEncoded(before: seq<byte>, units: seq<Nal>, kind: int)
    requires Aggregate(kind) && AllEncodable(units, kind)
    ensures Walk(before + EncodeAll(units, kind), |before|, PrefixSize(kind)) <==> SpsComes(units)
    decreases |units|
  {
    if |units| > 0 {
      var n, rest := units[0], units[1..];
      var p := before + EncodeAll(units, kind);
      assert p == before + Encode(n) + EncodeAll(rest, kind);
      assert p == (before + Encode(n)) + EncodeAll(rest, kind);
      WalkUnit(before, n, EncodeAll(rest, kind), kind);
      WalkEncoded(before + Encode(n), rest, kind);
      SpsComesStep(units);
    }
  }

  /** Of every aggregate in the layout the walk expects: it is a keyframe exactly when it carries
      a sequence parameter set before any empty unit. */
  lemma AggregateExact(header: byte, don: seq<byte>, units: seq<Nal>)
    requires Aggregate(NalType(header)) && |don| == DonSize(NalType(header))
    requires AllEncodable(units, NalType(header))
    ensures Keyframe([header] + don + EncodeAll(units, NalType(header))) <==> SpsComes(units)
  {
    WalkEncoded([header] + don, units, NalType(header));
  }

  /** With no empty units, wherever the sequence parameter set is. */
  lemma AggregateOfUnits(header: byte, don: seq<byte>, units: seq<Nal>)
    requires Aggregate(NalType(header)) && |don| == DonSize(NalType(header))
    requires AllEncodable(units, NalType(header)) && forall n :: n in units ==> |n.unit| > 0
    ensures Keyframe([header] + don + EncodeAll(units, NalType(header))) <==> exists n :: n in units && IsSps(n)
  {
    AggregateExact(header, don, units);
    if n :| n in units && IsSps(n) {
      var k :| 0 <= k < |units| && units[k] == n;
      assert SpsComes(units);
    }
  }

  // --------------------------------------------------- single units and fragments

  /** The first byte of a unit: forbidden bit, importance and type (section 5.3 of RFC 6184) */
  function NalHeader(forbidden: int, importance: int, kind: int): byte
    requires 0 <= forbidden < 2 && 0 <= importance < 4 && 0 <= kind < 32
  {
    forbidden * 128 + importance * 32 + kind
  }

  /** The header of a fragment: start, end and reserved bits, and the type of the unit (section 5.8) */
  function FragmentHeader(start: bool, end: bool, reserved: int, kind: int): byte
    requires 0 <= reserved < 2 && 0 <= kind < 32
  {
    (if start then 128 else 0) + (if end then 64 else 0) + reserved * 32 + kind
  }

  /** A payload that is one unit, or of no known kind, is a keyframe exactly when its type is 7. */
  lemma SingleUnit(forbidden: int, importance: int, kind: int, rest: seq<byte>)
    requires 0 <= forbidden < 2 && 0 <= importance < 4 && (0 <= kind <= 23 || 30 <= kind <= 31)
    ensures Keyframe([NalHeader(forbidden, importance, kind)] + rest) <==> kind == 7
  {
  }

  /** A fragment is a keyframe exactly when it starts a unit of type 7; a fragment cut off before its
      header, and an empty payload, are none. */
  lemma Fragment(forbidden: int, importance: int, indicator: int, start: bool, end: bool, reserved: int, kind: int,
                 rest: seq<byte>)
    requires 0 <= forbidden < 2 && 0 <= importance < 4 && (indicator == 28 || indicator == 29)
    requires 0 <= reserved < 2 && 0 <= kind < 32
    ensures var first := NalHeader(forbidden, importance, indicator);
            && (Keyframe([first, FragmentHeader(start, end, reserved, kind)] + rest) <==> start && kind == 7)
            && !Keyframe([first]) && !Keyframe([])
  {
  }

  // ---------------------------------------- aggregates as RFC 6184 lays them out

  /** A unit in the layout of section 5.7: the size field counts the NAL unit alone, and in an
      MTAP the DOND and timestamp offset come between the two. */
  function Wire(n: Nal): seq<byte>
    requires |n.unit| < 0x1_0000
  {
    [|n.unit| / 256, |n.unit| % 256] + n.prefix + n.unit
  }

  predicate Wirable(n: Nal, kind: int) {
    |n.prefix| == (if kind == 26 then 3 else if kind == 27 then 4 else 0) && |n.unit| < 0x1_0000
  }

  predicate AllWirable(units: seq<Nal>, kind: int) {
    forall k :: 0 <= k < |units| ==> Wirable(units[k], kind)
  }

  function WireAll(units: seq<Nal>, kind: int): seq<byte>
    requires AllWirable(units, kind)
  {
    if |units| == 0 then [] else Wire(units[0]) + WireAll(units[1..], kind)
  }

  /** In STAPs the two layouts are one, */
  lemma {:induction false} StapLayout(units: seq<Nal>, kind: int)
    requires kind == STAP_A || kind == STAP_B
    ensures AllWirable(units, kind) <==> AllEncodable(units, kind)
    ensures AllWirable(units, kind) ==> WireAll(units, kind) == EncodeAll(units, kind)
  {
    assert forall k :: 0 <= k < |units| ==> (Wirable(units[k], kind) <==> Encodable(units[k], kind));
    if |units| > 0 && AllWirable(units, kind) {
      StapLayout(units[1..], kind);
    }
  }

  /** so there the detection is exact. */
  lemma StapExact(header: byte, don: seq<byte>, units: seq<Nal>)
    requires (NalType(header) == 24 && |don| == 0) || (NalType(header) == 25 && |don| == 2)
    requires AllWirable(units, NalType(header))
    ensures Keyframe([header] + don + WireAll(units, NalType(header))) <==> SpsComes(units)
  {
    StapLayout(units, NalType(header));
    AggregateExact(header, don, units);
  }

  predicate Mtap(kind: int) {
    kind == 26 || kind == 27
  }

  /** Where a unit of an MTAP begins, the walk finds its NAL header only if the unit is longer than
      the prefix, and then goes on as many bytes short of the next unit as the prefix has. */
  lemma WireUnit(before: seq<byte>, n: Nal, after: seq<byte>, kind: int)
    requires Mtap(kind) && Wirable(n, kind)
    ensures var p, i := before + Wire(n) + after, |before|;
            Walk(p, i, PrefixSize(kind)) ==
            (|n.unit| > PrefixSize(kind) && (IsSps(n) || Walk(p, i + 2 + |n.unit|, PrefixSize(kind))))
  {
    var p, i := before + Wire(n) + after, |before|;
    assert p[i] == |n.unit| / 256 && p[i + 1] == |n.unit| % 256;
    assert Size16(p[i], p[i + 1]) == |n.unit|;
    if |n.unit| > 0 {
      assert p[i + 2 + |n.prefix|] == n.unit[0];
    }
  }

  function MtapOf(header: byte, don: seq<byte>, units: seq<Nal>): seq<byte>
    requires AllWirable(units, NalType(header))
  {
    [header] + don + WireAll(units, NalType(header))
  }

  /** The verdict on any MTAP is that on its first unit, or that of a walk that has lost its
      place: it goes on inside the first unit. */
  lemma MtapStep(header: byte, don: seq<byte>, units: seq<Nal>)
    requires Mtap(NalType(header)) && |don| == 2 && AllWirable(units, NalType(header)) && |units| > 0
    ensures var p, prefix, first := MtapOf(header, don, units), PrefixSize(NalType(header)), units[0];
            Keyframe(p) <==> |first.unit| > prefix && (IsSps(first) || Walk(p, 5 + |first.unit|, prefix))
  {
    var kind := NalType(header);
    WireUnit([header] + don, units[0], WireAll(units[1..], kind), kind);
    assert MtapOf(header, don, units) == [header] + don + Wire(units[0]) + WireAll(units[1..], kind);
  }

  /** An MTAP that begins with a sequence parameter set is a keyframe exactly when that unit is longer
      than the prefix, whatever follows. */
  lemma MtapFirstSps(header: byte, don: seq<byte>, units: seq<Nal>)
    requires Mtap(NalType(header)) && |don| == 2 && AllWirable(units, NalType(header))
    requires |units| > 0 && IsSps(units[0])
    ensures Keyframe(MtapOf(header, don, units)) <==> |units[0].unit| > PrefixSize(NalType(header))
  {
    MtapStep(header, don, units);
  }

  /** An MTAP of one unit is a keyframe exactly when the unit is a sequence parameter set longer than
      the prefix: what is left for the lost walk is too short for a unit. */
  lemma MtapSingle(header: byte, don: seq<byte>, n: Nal)
    requires Mtap(NalType(header)) && |don| == 2 && Wirable(n, NalType(header))
    ensures AllWirable([n], NalType(header))
    ensures Keyframe(MtapOf(header, don, [n])) <==> IsSps(n) && |n.unit| > PrefixSize(NalType(header))
  {
    MtapStep(header, don, [n]);
    assert WireAll([n], NalType(header)) == Wire(n);
  }

  predicate HasSps(units: seq<Nal>) {
    exists k :: 0 <= k < |units| && IsSps(units[k])
  }

  /** When the verdict on an MTAP is right: if the first unit is a sequence parameter set, when it is
      longer than the prefix; if not, when the lost walk happens to agree with the other units. */
  lemma MtapRight(header: byte, don: seq<byte>, units: seq<Nal>)
    requires Mtap(NalType(header)) && |don| == 2 && AllWirable(units, NalType(header))
    ensures var p, prefix := MtapOf(header, don, units), PrefixSize(NalType(header));
            (Keyframe(p) <==> HasSps(units)) <==>
            (if |units| == 0 then true
             else if IsSps(units[0]) then |units[0].unit| > prefix
             else HasSps(units[1..]) == (|units[0].unit| > prefix && Walk(p, 5 + |units[0].unit|, prefix)))
  {
    if |units| > 0 {
      MtapStep(header, don, units);
      HasSpsStep(units);
    }
  }

  lemma HasSpsStep(units: seq<Nal>)
    requires |units| > 0
    ensures HasSps(units) <==> IsSps(units[0]) || HasSps(units[1..])
  {
    var rest := units[1..];
    if HasSps(rest) {
      var k :| 0 <= k < |rest| && IsSps(rest[k]);
      assert IsSps(units[k + 1]);
    }
    if HasSps(units) {
      var k :| 0 <= k < |units| && IsSps(units[k]);
      assert k > 0 ==> IsSps(rest[k - 1]);
    }
  }

  /** The size the lost walk reads from the last bytes of the first unit */
  function LostSize(first: seq<byte>, prefix: nat): int
    requires 2 <= prefix < |first|
  {
    Size16(first[|first| - prefix], first[|first| - prefix + 1])
  }

  /** What the lost walk looks at when the first unit is no sequence parameter set: a size made of the
      last bytes of that unit, and as a NAL header the DOND of the second one. */
  lemma MtapLost(header: byte, don: seq<byte>, units: seq<Nal>)
    requires Mtap(NalType(header)) && |don| == 2 && AllWirable(units, NalType(header)) && |units| > 0
    requires !IsSps(units[0]) && |units[0].unit| > PrefixSize(NalType(header))
    ensures var p, prefix, first := MtapOf(header, don, units), PrefixSize(NalType(header)), units[0].unit;
            var size := LostSize(first, prefix);
            Keyframe(p) <==>
              && |units| > 1 && prefix < size && 7 + |first| + size <= |p|
              && (NalType(units[1].prefix[0]) == SPS || Walk(p, 7 + |first| + size, prefix))
  {
    hide Walk, Keyframe, IsSps;
    var kind, first := NalType(header), units[0].unit;
    MtapStep(header, don, units);
    var front := [header] + don + [|first| / 256, |first| % 256] + units[0].prefix;
    var rest := WireAll(units[1..], kind);
    assert MtapOf(header, don, units) == front + first + rest;
    if |units| > 1 {
      assert rest == Wire(units[1]) + WireAll(units[1..][1..], kind);
      assert rest[2] == units[1].prefix[0];
    }
    LostWalk(front, first, rest, PrefixSize(kind));
  }

  lemma LostWalk(front: seq<byte>, first: seq<byte>, rest: seq<byte>, prefix: nat)
    requires 3 <= prefix < |first| && |front| == 5 + prefix && (|rest| == 0 || |rest| > 2)
    ensures var p, size := front + first + rest, LostSize(first, prefix);
            Walk(p, 5 + |first|, prefix) <==>
              && |rest| > 0 && prefix < size && 7 + |first| + size <= |p|
              && (NalType(rest[2]) == SPS || Walk(p, 7 + |first| + size, prefix))
  {
    var p := front + first + rest;
    assert p[5 + |first|] == first[|first| - prefix] && p[6 + |first|] == first[|first| - prefix + 1];
    assert |rest| > 0 ==> p[7 + |first| + prefix] == rest[2];
    hide NalType;
  }

  /** So two cases can be told without a walk. If that size leaves nothing to look at, or the unit is
      no longer than the prefix, the verdict is no keyframe, and right when no sequence parameter set
      follows. If it fits and the DOND reads as one, the verdict is a keyframe, and right when one
      follows. */
  lemma MtapTold(header: byte, don: seq<byte>, units: seq<Nal>)
    requires Mtap(NalType(header)) && |don| == 2 && AllWirable(units, NalType(header))
    requires |units| > 0 && !IsSps(units[0])
    ensures var p, prefix, first := MtapOf(header, don, units), PrefixSize(NalType(header)), units[0].unit;
            && (|first| <= prefix || |units| == 1 || LostSize(first, prefix) <= prefix ||
                7 + |first| + LostSize(first, prefix) > |p| ==>
                  !Keyframe(p) && ((Keyframe(p) <==> HasSps(units)) <==> !HasSps(units[1..])))
            && (|first| > prefix && |units| > 1 && prefix < LostSize(first, prefix) &&
                7 + |first| + LostSize(first, prefix) <= |p| && NalType(units[1].prefix[0]) == SPS ==>
                  Keyframe(p) && ((Keyframe(p) <==> HasSps(units)) <==> HasSps(units[1..])))
  {
    hide Keyframe, Walk, WireAll, HasSps, AllWirable, IsSps;
    HasSpsStep(units);
    MtapStep(header, don, units);
    if |units[0].unit| > PrefixSize(NalType(header)) {
      MtapLost(header, don, units);
    }
  }

  const MISSED: seq<byte> := [26, 0, 0, 0, 4, 0, 0, 0, 6, 0, 0, 0, 0, 4, 0, 0, 0, 7, 1, 1, 1]
  const INVENTED: seq<byte> := [26, 0, 0, 0, 4, 0, 0, 0, 6, 0, 4, 0, 0, 1, 7, 0, 0, 6]

  lemma TwoUnits(a: Nal, b: Nal)
    requires Wirable(a, MTAP16) && Wirable(b, MTAP16)
    ensures AllWirable([a, b], MTAP16) && MtapOf(26, [0, 0], [a, b]) == [26, 0, 0] + Wire(a) + Wire(b)
    ensures HasSps([a, b]) <==> IsSps(a) || IsSps(b)
  {
    assert [a, b][1..] == [b];
    assert WireAll([b], MTAP16) == Wire(b);
    HasSpsStep([a, b]);
    HasSpsStep([b]);
    hide Wire, IsSps;
  }

  lemma EmptyUnit(p: seq<byte>, i: nat, prefix: nat)
    requires i + 2 <= |p| && p[i] == 0 && p[i + 1] == 0
    ensures !Walk(p, i, prefix)
  {
  }

  lemma FoundUnit(p: seq<byte>, i: nat, prefix: nat)
    requires i + 2 <= |p| && prefix < Size16(p[i], p[i + 1]) && i + 2 + Size16(p[i], p[i + 1]) <= |p|
    requires NalType(p[i + 2 + prefix]) == SPS
    ensures Walk(p, i, prefix)
  {
  }

  /** The lost walk fails both ways. Here the second of two units is a sequence parameter set that
      is not seen, */
  lemma MtapMissed()
    ensures var units := [Nal([0, 0, 0], [6, 0, 0, 0]), Nal([0, 0, 0], [7, 1, 1, 1])];
            && AllWirable(units, MTAP16) && MtapOf(26, [0, 0], units) == MISSED
            && HasSps(units) && !Keyframe(MISSED)
  {
    hide HasSps, WireAll, Keyframe, Walk, MtapOf;
    var a, b := Nal([0, 0, 0], [6, 0, 0, 0]), Nal([0, 0, 0], [7, 1, 1, 1]);
    TwoUnits(a, b);
    assert Wire(a) == [0, 4, 0, 0, 0, 6, 0, 0, 0] && Wire(b) == [0, 4, 0, 0, 0, 7, 1, 1, 1];
    MtapStep(26, [0, 0], [a, b]);
    EmptyUnit(MISSED, 9, 3);
  }

  /** and here a DOND of 7 is taken for one. */
  lemma MtapInvented()
    ensures var units := [Nal([0, 0, 0], [6, 0, 4, 0]), Nal([7, 0, 0], [6])];
            && AllWirable(units, MTAP16) && MtapOf(26, [0, 0], units) == INVENTED
            && !HasSps(units) && Keyframe(INVENTED)
  {
    hide HasSps, WireAll, Keyframe, Walk, MtapOf;
    var a, b := Nal([0, 0, 0], [6, 0, 4, 0]), Nal([7, 0, 0], [6]);
    TwoUnits(a, b);
    assert Wire(a) == [0, 4, 0, 0, 0, 6, 0, 4, 0] && Wire(b) == [0, 1, 7, 0, 0, 6];
    MtapStep(26, [0, 0], [a, b]);
    FoundUnit(INVENTED, 9, 3);
  }
}
