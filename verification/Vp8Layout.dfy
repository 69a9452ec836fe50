/** The VP8 payload descriptor laid out field by field as in section 4.2 of RFC 7741, by arithmetic on
    the octets, against the parser and printer of pkg/buffer/helpers.go. */
module Vp8Layout {
  import opened Vp8

  /** The fields of a descriptor and the P bit behind it; what the parser ignores are the bits r (R and
      N), low (R and PID), reserved (RSV), frame (the rest of the octet with the P bit) and tail. */
  datatype Layout = Layout(
    x: bool, r: byte, s: bool, low: byte,
    i: bool, l: bool, t: bool, k: bool, reserved: byte,
    m: bool, hi: byte, lo: byte, tl0: byte, tid: byte, y: byte, keyIdx: byte,
    p: bool, frame: byte, tail: seq<byte>)

  predicate Ok(f: Layout) {
    && f.r < 4 && f.low < 16 && f.reserved < 16 && f.tid < 4 && f.y < 2 && f.keyIdx < 32 && f.frame < 128
    && (!f.x ==> !f.i && !f.l && !f.t && !f.k) && (f.m ==> f.i)
    && f.hi < 128 && (!f.m ==> f.lo < 128)
  }

  function Bit(b: bool): byte {
    if b then 1 else 0
  }

  function FirstOctet(f: Layout): byte {
    Bit(f.x) * 128 + f.r * 32 + Bit(f.s) * 16 + f.low
  }

  function Flags(i: bool, l: bool, t: bool, k: bool, reserved: byte): byte {
    Bit(i) * 128 + Bit(l) * 64 + Bit(t) * 32 + Bit(k) * 16 + reserved
  }

  function ExtensionOctet(f: Layout): byte {
    Flags(f.i, f.l, f.t, f.k, f.reserved)
  }

  function Marked(hi: byte): byte {
    128 + hi
  }

  function Joined(hi: byte, lo: byte): bv16 {
    (hi as bv16) * 256 + (lo as bv16)
  }

  function Tk(tid: byte, y: byte, keyIdx: byte): byte {
    tid * 64 + y * 32 + keyIdx
  }

  /** The picture ID in 15 or in 7 bits */
  function PictureID(f: Layout): bv16 {
    if f.m then Joined(f.hi, f.lo) else f.lo as bv16
  }

  function TkOctet(f: Layout): byte {
    Tk(f.tid, f.y, f.keyIdx)
  }

  function PayloadOctet(f: Layout): byte {
    f.frame * 2 + Bit(f.p)
  }

  function PictureOctets(f: Layout): seq<byte>
    requires Ok(f)
  {
    if !f.i then [] else if f.m then [Marked(f.hi), f.lo] else [f.lo]
  }

  function DescriptorOctets(f: Layout): seq<byte>
    requires Ok(f)
  {
    if !f.x then [FirstOctet(f)]
    else [FirstOctet(f), ExtensionOctet(f)] + PictureOctets(f)
         + (if f.l then [f.tl0] else []) + (if f.t || f.k then [TkOctet(f)] else [])
  }

  function Octets(f: Layout): seq<byte>
    requires Ok(f)
  {
    DescriptorOctets(f) + [PayloadOctet(f)] + f.tail
  }

  function Length(f: Layout): int {
    1 + (if f.x then 1 else 0) + (if f.i then 1 else 0) + (if f.m then 1 else 0) + (if f.l then 1 else 0)
    + (if f.t || f.k then 1 else 0)
  }

  /** What a parser should make of it: every announced field, the length of the descriptor, and a
      keyframe exactly when S is set and P is not. */
  function Meaning(f: Layout): Header {
    MeaningAfter(BLANK, f)
  }

  /** The same for a parser that holds v already: what is not announced stays as it is. */
  function MeaningAfter(v: Header, f: Layout): Header {
    Header(FirstOctet(f), v.hasPictureID || f.i, if f.i then PictureID(f) else v.pictureID, v.mBit || f.m,
           v.hasTL0 || f.l, if f.l then f.tl0 else v.tl0,
           v.hasTID || f.t, if f.t then f.tid else v.tid, if f.t then f.y else v.y,
           v.hasKeyIdx || f.k, if f.k then f.keyIdx else v.keyIdx,
           Length(f), f.s && !f.p)
  }

  // ----------------------------------------------------- octets and bit masks

  lemma FirstBits(f: Layout)
    requires Ok(f)
    ensures Has(FirstOctet(f), 0x80) == f.x && Has(FirstOctet(f), 0x10) == f.s
    ensures KeyFrameBit(PayloadOctet(f)) == !f.p
  {
  }

  lemma ExtensionBits(f: Layout)
    requires Ok(f)
    ensures var b := ExtensionOctet(f);
            Has(b, 0x80) == f.i && Has(b, 0x40) == f.l && Has(b, 0x20) == f.t && Has(b, 0x10) == f.k
  {
  }

  lemma PictureBits(f: Layout)
    requires Ok(f) && f.i
    ensures var b := PictureOctets(f)[0];
            && Has(b, 0x80) == f.m
            && PictureID(f) == (if f.m then LongID(PidOf(b), f.lo) else ShortID(PidOf(b)))
    ensures PrintPicture(Meaning(f)) == PictureOctets(f)
  {
    hide PidOf, LongID, ShortID, IDHigh, IDLow, Has, FirstOctet, Joined, Marked;
    if f.m {
      LongBits(f.hi, f.lo);
    } else {
      ShortBits(f.lo);
    }
  }

  lemma LongBits(hi: byte, lo: byte)
    requires hi < 128
    ensures Has(Marked(hi), 0x80) && LongID(PidOf(Marked(hi)), lo) == Joined(hi, lo)
    ensures IDHigh(Joined(hi, lo)) == Marked(hi) && IDLow(Joined(hi, lo)) == lo
  {
    hide Joined;
    JoinedIsShift(hi, lo);
  }

  lemma JoinedIsShift(hi: byte, lo: byte)
    ensures Joined(hi, lo) == LongID(hi, lo)
  {
    hide LongID;
    Widened(hi);
    Widened(lo);
    TimesIsShift(hi as bv16, lo as bv16);
    assert LongID(hi, lo) == ((hi as bv16) << 8) | (lo as bv16) by {
      LongIDIs(hi, lo);
    }
  }

  lemma LongIDIs(hi: byte, lo: byte)
    ensures LongID(hi, lo) == ((hi as bv16) << 8) | (lo as bv16)
  {
  }

  lemma Widened(b: byte)
    ensures (b as bv16) <= 0xFF
  {
  }

  lemma TimesIsShift(a: bv16, b: bv16)
    requires a <= 0xFF && b <= 0xFF
    ensures a * 256 + b == (a << 8) | b
  {
  }

  lemma ShortBits(lo: byte)
    requires lo < 128
    ensures !Has(lo, 0x80) && ShortID(PidOf(lo)) == lo as bv16 && IDLow(lo as bv16) == lo
  {
  }

  lemma TkBits(f: Layout)
    requires Ok(f)
    ensures TidOf(TkOctet(f)) == f.tid && YOf(TkOctet(f)) == f.y && KeyIdxOf(TkOctet(f)) == f.keyIdx
  {
  }

  /** Where the octets lie */
  lemma Places(f: Layout)
    requires Ok(f)
    ensures var o, n := Octets(f), 2 + |PictureOctets(f)|;
            && |DescriptorOctets(f)| == Length(f) < |o| && o[0] == FirstOctet(f) && o[Length(f)] == PayloadOctet(f)
            && (f.x ==> o[1] == ExtensionOctet(f))
            && (f.i ==> f.x && o[2] == PictureOctets(f)[0]) && (f.m ==> o[3] == PictureOctets(f)[1])
            && (f.l ==> f.x && o[n] == f.tl0)
            && (f.t || f.k ==> f.x && o[n + (if f.l then 1 else 0)] == TkOctet(f))
  {
    hide FirstOctet, ExtensionOctet, TkOctet, PayloadOctet;
  }

  /** The flags of a layout are those the parser sees in any beginning of it that holds them. */
  lemma FlagsSeen(f: Layout, n: nat)
    requires Ok(f) && n <= |Octets(f)|
    ensures var p := Octets(f)[..n];
            && XBit(p) == (n > 0 && f.x)
            && IBit(p) == (n > 1 && f.i) && LBit(p) == (n > 1 && f.l)
            && TBit(p) == (n > 1 && f.t) && KBit(p) == (n > 1 && f.k) && MBit(p) == (n > 2 && f.m)
  {
    Places(f);
    FirstBits(f);
    ExtensionBits(f);
    if f.i {
      PictureBits(f);
    }
    hide Has, FirstOctet, ExtensionOctet, TkOctet, PayloadOctet, DescriptorOctets, Octets;
  }

  // ------------------------------------------------------------------ parsing

  /** The parser reads every layout back as what it means, unless TL0PICIDX is announced without TID:
      that is refused. */
  lemma ParsesLayout(v: Header, f: Layout)
    requires Ok(f)
    ensures if f.l && !f.t then Verdict(Octets(f)) == InvalidPacket
            else Verdict(Octets(f)) == NoError && Decode(v, Octets(f)) == MeaningAfter(v, f)
  {
    hide Has, Verdict, Decode, MeaningAfter, Octets;
    Judged(f);
    if !(f.l && !f.t) {
      Read(v, f);
    }
  }

  /** Flags and sizes as the parser sees them */
  lemma SizesSeen(f: Layout)
    requires Ok(f)
    ensures var o := Octets(f);
            && XBit(o) == f.x && IBit(o) == f.i && LBit(o) == f.l && TBit(o) == f.t && KBit(o) == f.k && MBit(o) == f.m
            && PictureSize(o) == |PictureOctets(f)| && SizeOf(o) == Length(f) < |o|
  {
    hide Has, XBit, IBit, LBit, TBit, KBit, MBit, Octets, DescriptorOctets, Ok, FirstOctet, ExtensionOctet, TkOctet,
         PayloadOctet;
    Places(f);
    assert Octets(f)[..|Octets(f)|] == Octets(f);
    FlagsSeen(f, |Octets(f)|);
    OkShape(f);
  }

  lemma Judged(f: Layout)
    requires Ok(f)
    ensures Verdict(Octets(f)) == if f.l && !f.t then InvalidPacket else NoError
  {
    hide XBit, IBit, LBit, TBit, KBit, MBit, SizeOf, Octets, Ok;
    SizesSeen(f);
    OkShape(f);
  }

  lemma Read(v: Header, f: Layout)
    requires Ok(f) && !(f.l && !f.t)
    ensures Verdict(Octets(f)) == NoError && Decode(v, Octets(f)) == MeaningAfter(v, f)
  {
    hide Has, XBit, IBit, LBit, TBit, KBit, MBit, PidOf, ShortID, LongID, TidOf, YOf, KeyIdxOf, KeyFrameBit, Verdict,
         FirstOctet, ExtensionOctet, TkOctet, PayloadOctet, DescriptorOctets, Octets, PictureID, Ok,
         PictureSize, SizeOf;
    Judged(f);
    SizesSeen(f);
    Places(f);
    FirstBits(f);
    TkBits(f);
    if f.i {
      PictureBits(f);
    }
    OkShape(f);
  }

  lemma OkShape(f: Layout)
    requires Ok(f)
    ensures (!f.x ==> !f.i && !f.l && !f.t && !f.k) && (f.m ==> f.i)
    ensures |PictureOctets(f)| == (if f.i then 1 else 0) + (if f.m then 1 else 0)
    ensures f.m ==> PictureOctets(f)[1] == f.lo
  {
  }

  /** A layout cut off anywhere before the octet with the P bit is too short, unless what is left shows
      that it would be refused anyway. */
  lemma CutShort(f: Layout, n: nat)
    requires Ok(f) && n <= Length(f)
    ensures |Octets(f)| > Length(f)
    ensures Verdict(Octets(f)[..n]) == if n > 1 && f.l && !f.t then InvalidPacket else ShortPacket
  {
    Places(f);
    FlagsSeen(f, n);
    hide Has, XBit, IBit, LBit, TBit, KBit, MBit, Flag, FirstOctet, ExtensionOctet, TkOctet,
         PayloadOctet, DescriptorOctets, Octets;
  }

  // Parts of octets

  function RPart(b: byte): byte { (b >> 5) & 3 }
  function LowPart(b: byte): byte { b & 15 }
  function SevenBits(b: byte): byte { b & 127 }
  function TopTwo(b: byte): byte { b >> 6 }
  function YPart(b: byte): byte { (b >> 5) & 1 }
  function KeyPart(b: byte): byte { b & 31 }
  function Half(b: byte): byte { b >> 1 }

  function TkAt(p: seq<byte>): byte
    requires Verdict(p) == NoError
  {
    if TBit(p) || KBit(p) then p[2 + PictureSize(p) + One(LBit(p))] else 0
  }

  /** The layout of an accepted payload */
  function LayoutOf(p: seq<byte>): Layout
    requires Verdict(p) == NoError
  {
    Layout(
      XBit(p), RPart(p[0]), Has(p[0], 0x10), LowPart(p[0]),
      IBit(p), LBit(p), TBit(p), KBit(p), if XBit(p) then LowPart(p[1]) else 0,
      MBit(p), if MBit(p) then SevenBits(p[2]) else 0, if MBit(p) then p[3] else if IBit(p) then p[2] else 0,
      if LBit(p) then p[2 + PictureSize(p)] else 0, TopTwo(TkAt(p)), YPart(TkAt(p)), KeyPart(TkAt(p)),
      Has(p[SizeOf(p)], 1), Half(p[SizeOf(p)]), p[SizeOf(p) + 1..])
  }

  lemma SplitOctet(b: byte)
    ensures RPart(b) < 4 && LowPart(b) < 16 && TopTwo(b) < 4 && YPart(b) < 2 && KeyPart(b) < 32
    ensures SevenBits(b) < 128 && Half(b) < 128
    ensures Bit(Has(b, 0x80)) * 128 + RPart(b) * 32 + Bit(Has(b, 0x10)) * 16 + LowPart(b) == b
    ensures Flags(Has(b, 0x80), Has(b, 0x40), Has(b, 0x20), Has(b, 0x10), LowPart(b)) == b
    ensures Has(b, 0x80) ==> Marked(SevenBits(b)) == b
    ensures !Has(b, 0x80) ==> b < 128
    ensures Tk(TopTwo(b), YPart(b), KeyPart(b)) == b
    ensures Half(b) * 2 + Bit(Has(b, 1)) == b
  {
  }

  /** Every payload the parser accepts is the octets of a layout it does not refuse: so what is proved
      of layouts is proved of all payloads. */
  lemma LayoutExists(p: seq<byte>)
    requires Verdict(p) == NoError
    ensures var f := LayoutOf(p); Ok(f) && !(f.l && !f.t) && Octets(f) == p
  {
    hide Has, Flags, Marked, Tk, Bit, LayoutOf, Verdict, FirstOctet, PayloadOctet, DescriptorOctets, Ok, SizeOf;
    LayoutFits(p);
    LayoutEnds(p);
    LayoutFront(p);
    PrintSize(p);
    var f := LayoutOf(p);
    assert Octets(f) == DescriptorOctets(f) + ([PayloadOctet(f)] + f.tail);
    assert p == p[..SizeOf(p)] + p[SizeOf(p)..];
  }

  lemma LayoutFits(p: seq<byte>)
    requires Verdict(p) == NoError
    ensures var f := LayoutOf(p); Ok(f) && !(f.l && !f.t)
  {
    hide Has, Flag, Bit, Flags, Marked, Tk, TkAt, RPart, LowPart, SevenBits, TopTwo, YPart, KeyPart, Half;
    MarkSeen(p);
    SplitOctet(p[0]);
    SplitOctet(p[SizeOf(p)]);
    SplitOctet(TkAt(p));
    if XBit(p) {
      SplitOctet(p[1]);
    }
    if IBit(p) {
      SplitOctet(p[2]);
    }
  }

  lemma MarkSeen(p: seq<byte>)
    ensures (LBit(p) || TBit(p) || IBit(p) || KBit(p) ==> XBit(p)) && (MBit(p) ==> IBit(p))
    ensures IBit(p) && |p| > 2 ==> MBit(p) == Has(p[2], 0x80)
    ensures |p| > 0 ==> XBit(p) == Has(p[0], 0x80)
    ensures XBit(p) && |p| > 1 ==>
              IBit(p) == Has(p[1], 0x80) && LBit(p) == Has(p[1], 0x40) &&
              TBit(p) == Has(p[1], 0x20) && KBit(p) == Has(p[1], 0x10)
  {
    hide Has;
  }

  lemma LayoutEnds(p: seq<byte>)
    requires Verdict(p) == NoError
    ensures var f := LayoutOf(p); [PayloadOctet(f)] + f.tail == p[SizeOf(p)..]
  {
    hide Has, XBit, IBit, LBit, TBit, KBit, MBit, Bit, Half, Flags, Marked, Tk, TkAt, RPart, LowPart, SevenBits, TopTwo,
         YPart, KeyPart;
    SplitOctet(p[SizeOf(p)]);
  }

  lemma OctetsBack(p: seq<byte>)
    requires Verdict(p) == NoError
    ensures var f := LayoutOf(p);
            && FirstOctet(f) == p[0] && (f.x ==> |p| > 1 && ExtensionOctet(f) == p[1]) && TkOctet(f) == TkAt(p)
            && (f.i ==> |p| > 2) && (f.m ==> Marked(f.hi) == p[2])
  {
    hide Has, Flag, XBit, IBit, LBit, TBit, KBit, MBit, Bit, Half, Flags, Marked, Tk, TkAt, RPart, LowPart, SevenBits,
         TopTwo, YPart, KeyPart;
    MarkSeen(p);
    SplitOctet(p[0]);
    SplitOctet(TkAt(p));
    if XBit(p) {
      SplitOctet(p[1]);
      if IBit(p) {
        SplitOctet(p[2]);
      }
    }
  }

  lemma LayoutFront(p: seq<byte>)
    requires Verdict(p) == NoError && Ok(LayoutOf(p))
    ensures DescriptorOctets(LayoutOf(p)) == p[..SizeOf(p)]
  {
    hide Has, Flag, XBit, IBit, LBit, TBit, KBit, MBit, Bit, Half, Flags, Marked, Tk, RPart, LowPart, SevenBits, TopTwo,
         YPart, KeyPart, Ok, FirstOctet, ExtensionOctet, TkOctet;
    MarkSeen(p);
    OctetsBack(p);
  }

  // ----------------------------------------------------------------- printing

  /** Printing gives the octets back exactly when the bits nothing is known of were 0: those that are
      reserved, and TID, Y or KEYIDX when they are not announced. */
  lemma PrintsLayout(f: Layout)
    requires Ok(f) && f.x && (f.i || f.l || f.t || f.k)
    ensures Print(Meaning(f)) == DescriptorOctets(f) <==>
            f.reserved == 0 && (f.k && !f.t ==> f.tid == 0 && f.y == 0) && (f.t && !f.k ==> f.keyIdx == 0)
  {
    hide Has, IDHigh, IDLow, WithX, FlagsByte, TkByte, FirstOctet, ExtensionOctet, TkOctet, Print, Ok, PictureID,
         PrintPicture, PictureOctets;
    var v := Meaning(f);
    PrintParts(v);
    PrintedOctets(f);
    if f.i {
      PictureBits(f);
    } else {
      NoPicture(f);
    }
    var front, picture := [FirstOctet(f), ExtensionOctet(f)], PictureOctets(f);
    var tl0, tk, tk' := PrintTL0(v), PrintTK(v), if f.t || f.k then [TkOctet(f)] else [];
    assert Print(v) == PrintFront(v) + (picture + tl0 + tk) && DescriptorOctets(f) == front + (picture + tl0 + tk');
    SameParts(PrintFront(v), front, picture + tl0, tk, tk');
  }

  lemma NoPicture(f: Layout)
    requires Ok(f) && !f.i
    ensures PictureOctets(f) == [] == PrintPicture(Meaning(f))
  {
    hide FirstOctet, PictureID;
  }

  lemma SameParts(a: seq<byte>, a': seq<byte>, b: seq<byte>, c: seq<byte>, c': seq<byte>)
    requires |a| == |a'| && |c| == |c'|
    ensures a + (b + c) == a' + (b + c') <==> a == a' && c == c'
  {
    if a + (b + c) == a' + (b + c') {
      assert a == (a + (b + c))[..|a|] && a' == (a' + (b + c'))[..|a|];
      assert c == (a + (b + c))[|a| + |b|..] && c' == (a' + (b + c'))[|a| + |b|..];
    }
  }

  lemma PrintedOctets(f: Layout)
    requires Ok(f) && f.x
    ensures WithX(FirstOctet(f)) == FirstOctet(f)
    ensures FlagsByte(f.i, f.l, f.t, f.k) == ExtensionOctet(f) <==> f.reserved == 0
    ensures f.t || f.k ==>
              (TkByte(Meaning(f)) == TkOctet(f) <==>
                 (f.k && !f.t ==> f.tid == 0 && f.y == 0) && (f.t && !f.k ==> f.keyIdx == 0))
  {
    hide WithX, FlagsByte, Bits, TidY, OrKeyIdx, FirstOctet, Flags, Tk, PictureID;
    FirstPrinted(f);
    FlagsPrintedAs(f.i, f.l, f.t, f.k, f.reserved);
    TkPrinted(f.tid, f.y, f.keyIdx);
  }

  lemma FirstPrinted(f: Layout)
    requires Ok(f) && f.x
    ensures WithX(FirstOctet(f)) == FirstOctet(f)
  {
  }

  lemma FlagsPrintedAs(i: bool, l: bool, t: bool, k: bool, reserved: byte)
    requires reserved < 16
    ensures FlagsByte(i, l, t, k) == Flags(i, l, t, k, reserved) <==> reserved == 0
  {
  }

  lemma TkPrinted(tid: byte, y: byte, keyIdx: byte)
    requires tid < 4 && y < 2 && keyIdx < 32
    ensures OrKeyIdx(TidY(tid, y), keyIdx) == Tk(tid, y, keyIdx)
    ensures TidY(tid, y) == Tk(tid, y, keyIdx) <==> keyIdx == 0
    ensures OrKeyIdx(0, keyIdx) == Tk(tid, y, keyIdx) <==> tid == 0 && y == 0
  {
  }

  /** Without extension the one octet comes back as it was. */
  lemma PrintsPlain(f: Layout)
    requires Ok(f) && !f.x
    ensures Print(Meaning(f)) == DescriptorOctets(f)
  {
  }

  // ------------------------------------------------------------------ packing

  /** A number with these digits: each field at its own power of two */
  function Sum(a: bv64, b: bv64, c: bv64, d: bv64, e: bv64, f: bv64, g: bv64, h: bv64, i: bv64,
               j: bv64, k: bv64, l: bv64, m: bv64): bv64
  {
    a * 0x100_0000_0000_0000 + b * 0x80_0000_0000_0000 + c * 0x40_0000_0000_0000 + d * 0x20_0000_0000_0000 +
    e * 0x10_0000_0000_0000 + f * 0x8_0000_0000_0000 + g * 0x4_0000_0000_0000 + h * 0x1_0000_0000 +
    i * 0x100_0000 + j * 0x40_0000 + k * 0x20_0000 + l * 0x1_0000 + m * 0x100
  }

  /** The packed word is such a number. */
  lemma PackedNumber(v: Header)
    requires Fits(v)
    ensures Pack(v) ==
            Sum(v.firstByte as bv64, Wide(v.hasPictureID), Wide(v.hasTL0), Wide(v.hasTID), Wide(v.hasKeyIdx),
                Wide(v.mBit), Wide(v.isKeyFrame), v.pictureID as bv64, v.tl0 as bv64, v.tid as bv64, v.y as bv64,
                v.keyIdx as bv64, Low8(v.headerSize) as bv64)
  {
    hide Low8, Word, Sum;
    Narrow8(v.firstByte);
    Narrow8(v.tl0);
    Narrow8(Low8(v.headerSize));
    Unmasked(v.pictureID, v.tid, v.y, v.keyIdx);
    WordIsSum(v.firstByte as bv64, Wide(v.hasPictureID), Wide(v.hasTL0), Wide(v.hasTID), Wide(v.hasKeyIdx),
              Wide(v.mBit), Wide(v.isKeyFrame), v.pictureID as bv64, v.tl0 as bv64, v.tid as bv64, v.y as bv64,
              v.keyIdx as bv64, Low8(v.headerSize) as bv64);
  }

  lemma Unmasked(id: bv16, tid: byte, y: byte, keyIdx: byte)
    requires id <= 0x7FFF && tid <= 3 && y <= 1 && keyIdx <= 0x1F
    ensures id & 0x7FFF == id && tid & 0x3 == tid && y & 0x1 == y && keyIdx & 0x1F == keyIdx
    ensures (id as bv64) <= 0x7FFF && (tid as bv64) <= 3 && (y as bv64) <= 1 && (keyIdx as bv64) <= 0x1F
  {
  }

  lemma WordIsSum(a: bv64, b: bv64, c: bv64, d: bv64, e: bv64, f: bv64, g: bv64, h: bv64, i: bv64,
                  j: bv64, k: bv64, l: bv64, m: bv64)
    requires a <= 0xFF && b <= 1 && c <= 1 && d <= 1 && e <= 1 && f <= 1 && g <= 1 && h <= 0x7FFF && i <= 0xFF
    requires j <= 3 && k <= 1 && l <= 0x1F && m <= 0xFF
    ensures Word(a, b, c, d, e, f, g, h, i, j, k, l, m) == Sum(a, b, c, d, e, f, g, h, i, j, k, l, m)
  {
  }
}
