/** The VP8 payload descriptor (RFC 7741 section 4.2) of pkg/buffer/helpers.go: parser and
    printer, and the 64-bit packing of pkg/rtc/sequencer.go. */
module Vp8 {

  type byte = bv8

  datatype Error = NoError | NilPacket | ShortPacket | InvalidPacket

  datatype Header = Header(
    firstByte: byte,
    hasPictureID: bool, pictureID: bv16, mBit: bool,
    hasTL0: bool, tl0: byte,
    hasTID: bool, tid: byte, y: byte,
    hasKeyIdx: bool, keyIdx: byte,
    headerSize: int, isKeyFrame: bool)

  const BLANK := Header(0, false, 0, false, false, 0, false, 0, 0, false, 0, 0, false)

  // ------------------------------------------------------------------ layout

  predicate Has(b: byte, mask: byte) {
    b & mask != 0
  }

  // Fields of single bytes, and bytes from fields

  function PidOf(b: byte): byte { b & 0x7F }
  function ShortID(b: byte): bv16 { b as bv16 }
  function LongID(hi: byte, lo: byte): bv16 { ((hi as bv16) << 8) | (lo as bv16) }
  function TidOf(b: byte): byte { (b & 0xC0) >> 6 }
  function YOf(b: byte): byte { (b & 0x20) >> 5 }
  function KeyIdxOf(b: byte): byte { b & 0x1F }
  function WithX(b: byte): byte { b | 0x80 }
  function WithoutX(b: byte): byte { b & 0x7F }
  function IDHigh(id: bv16): byte { 0x80 | (((id >> 8) & 0x7F) as byte) }
  function IDLow(id: bv16): byte { (id & 0xFF) as byte }
  function TidY(tid: byte, y: byte): byte { (tid << 6) | (y << 5) }
  function OrKeyIdx(b: byte, keyIdx: byte): byte { b | (keyIdx & 0x1F) }

  function FlagsByte(i: bool, l: bool, t: bool, k: bool): byte {
    Bits(i, 0x80) | Bits(l, 0x40) | Bits(t, 0x20) | Bits(k, 0x10)
  }

  function Bits(b: bool, mask: byte): byte {
    if b then mask else 0
  }

  predicate KeyFrameBit(b: byte) { b & 0x01 == 0 }

  predicate XBit(p: seq<byte>) {
    |p| > 0 && Has(p[0], 0x80)
  }

  /** A flag of the extension byte */
  predicate Flag(p: seq<byte>, mask: byte) {
    XBit(p) && |p| > 1 && Has(p[1], mask)
  }

  predicate IBit(p: seq<byte>) { Flag(p, 0x80) }
  predicate LBit(p: seq<byte>) { Flag(p, 0x40) }
  predicate TBit(p: seq<byte>) { Flag(p, 0x20) }
  predicate KBit(p: seq<byte>) { Flag(p, 0x10) }

  /** The picture ID takes two bytes. */
  predicate MBit(p: seq<byte>) {
    IBit(p) && |p| > 2 && Has(p[2], 0x80)
  }

  lemma NoExtension(p: seq<byte>)
    requires !XBit(p)
    ensures !IBit(p) && !LBit(p) && !TBit(p) && !KBit(p) && !MBit(p)
  {
  }

  function One(b: bool): int {
    if b then 1 else 0
  }

  function PictureSize(p: seq<byte>): int {
    One(IBit(p)) + One(MBit(p))
  }

  /** 1 + X * (1 + I * (1 + M) + L + (T or K)) */
  function SizeOf(p: seq<byte>): int {
    1 + One(XBit(p)) + PictureSize(p) + One(LBit(p)) + One(TBit(p) || KBit(p))
  }

  /** The parser's verdict: one more byte than the descriptor must be there, and TL0PICIDX
      must not come without TID. */
  function Verdict(p: seq<byte>): Error {
    if |p| == 0 || (XBit(p) && |p| == 1) then ShortPacket
    else if LBit(p) && !TBit(p) then InvalidPacket
    else if (IBit(p) && |p| == 2) || |p| <= SizeOf(p) then ShortPacket
    else NoError
  }

  /** What parsing p makes of a header: fields that p does not carry are left alone. */
  function Decode(v: Header, p: seq<byte>): Header
    requires Verdict(p) == NoError
  {
    var tl0At := 2 + PictureSize(p);
    var tkAt := tl0At + One(LBit(p));
    var size := SizeOf(p);
    Header(
      p[0],
      v.hasPictureID || IBit(p),
      if MBit(p) then LongID(PidOf(p[2]), p[3])
      else if IBit(p) then ShortID(PidOf(p[2]))
      else v.pictureID,
      v.mBit || MBit(p),
      v.hasTL0 || LBit(p), if LBit(p) then p[tl0At] else v.tl0,
      v.hasTID || TBit(p),
      if TBit(p) then TidOf(p[tkAt]) else v.tid,
      if TBit(p) then YOf(p[tkAt]) else v.y,
      v.hasKeyIdx || KBit(p), if KBit(p) then KeyIdxOf(p[tkAt]) else v.keyIdx,
      size,
      KeyFrameBit(p[size]) && Has(p[0], 0x10))
  }

  // ---------------------------------------------------------------- printing

  predicate Extended(v: Header) {
    v.hasPictureID || v.hasTL0 || v.hasTID || v.hasKeyIdx
  }

  function PrintPicture(v: Header): seq<byte> {
    if !v.hasPictureID then []
    else if v.mBit then [IDHigh(v.pictureID), IDLow(v.pictureID)]
    else [IDLow(v.pictureID)]
  }

  function TkByte(v: Header): byte {
    var b := if v.hasTID then TidY(v.tid, v.y) else 0;
    if v.hasKeyIdx then OrKeyIdx(b, v.keyIdx) else b
  }

  function PrintTK(v: Header): seq<byte> {
    if !v.hasTID && !v.hasKeyIdx then [] else [TkByte(v)]
  }

  function PrintTL0(v: Header): seq<byte> {
    if v.hasTL0 then [v.tl0] else []
  }

  function PrintFront(v: Header): seq<byte> {
    [WithX(v.firstByte), FlagsByte(v.hasPictureID, v.hasTL0, v.hasTID, v.hasKeyIdx)]
  }

  function Print(v: Header): seq<byte> {
    if Extended(v) then
      PrintFront(v) + PrintPicture(v) + PrintTL0(v) + PrintTK(v)
    else [WithoutX(v.firstByte)]
  }

  /** The extension byte announces nothing. */
  predicate IdleExtension(p: seq<byte>) {
    XBit(p) && !IBit(p) && !LBit(p) && !TBit(p) && !KBit(p)
  }

  lemma PrintSize(p: seq<byte>)
    requires Verdict(p) == NoError
    ensures |Print(Decode(BLANK, p))| == if IdleExtension(p) then 1 else SizeOf(p)
    ensures 1 <= SizeOf(p) <= 6 && SizeOf(p) < |p|
  {
  }

  /** Writing a parsed descriptor and reading it again gives the same value, whatever follows:
      exactly when the extension byte, if there is one, announces something. (Otherwise the
      printer clears the X bit and leaves the second byte of the buffer as it was.) */
  lemma RoundTrip(p: seq<byte>, fill: seq<byte>)
    requires Verdict(p) == NoError
    requires |fill| == SizeOf(p) - |Print(Decode(BLANK, p))|
    ensures var v := Decode(BLANK, p);
            var again := Print(v) + fill + p[SizeOf(p)..];
            (Verdict(again) == NoError && Decode(BLANK, again) == v) <==> !IdleExtension(p)
  {
    var v := Decode(BLANK, p);
    PrintSize(p);
    var rest := p[SizeOf(p)..];
    var again := Print(v) + fill + rest;
    if IdleExtension(p) {
      assert again[0] == WithoutX(p[0]);
      TopBit(p[0]);
    } else {
      assert fill == [];
      assert again == Print(v) + rest;
      if XBit(p) {
        ExtendedRoundTrip(p, rest);
      } else {
        TopBit(p[0]);
        assert again[0] == p[0] && again[1] == p[1];
      }
    }
  }

  /** The shortest payload whose extension byte announces nothing does not come back. */
  lemma IdleExtensionLost()
    ensures var p := [0x80, 0, 0];
            && Verdict(p) == NoError && Print(Decode(BLANK, p)) == [0]
            && Decode(BLANK, [0] + p[1..]) != Decode(BLANK, p)
  {
    var p: seq<byte> := [0x80, 0, 0];
    assert XBit(p) && SizeOf(p) == 2;
    assert Print(Decode(BLANK, p)) == [0];
    assert !XBit([0] + p[1..]);
  }

  lemma TopBit(b: byte)
    ensures !Has(WithoutX(b), 0x80) && Has(WithX(b), 0x80)
    ensures Has(b, 0x80) ==> WithX(b) == b && WithoutX(b) != b
    ensures !Has(b, 0x80) ==> WithoutX(b) == b
  {
  }

  /** The extension byte is printed with the flags it was read with. */
  lemma FlagsBack(i: bool, l: bool, t: bool, k: bool)
    ensures var b := FlagsByte(i, l, t, k);
            Has(b, 0x80) == i && Has(b, 0x40) == l && Has(b, 0x20) == t && Has(b, 0x10) == k
  {
  }

  /** So is a picture ID, in either size, */
  lemma PictureBack(hi: byte, lo: byte)
    ensures var id := LongID(PidOf(hi), lo);
            PidOf(IDHigh(id)) == PidOf(hi) && Has(IDHigh(id), 0x80) && IDLow(id) == lo
    ensures var b := IDLow(ShortID(PidOf(hi)));
            PidOf(b) == PidOf(hi) && !Has(b, 0x80)
  {
  }

  /** and the TID/Y/KEYIDX byte, as far as its flags say it carries anything. */
  lemma TkBack(b: byte, v: Header)
    requires v.hasTID ==> v.tid == TidOf(b) && v.y == YOf(b)
    requires v.hasKeyIdx ==> v.keyIdx == KeyIdxOf(b)
    ensures v.hasTID ==> TidOf(TkByte(v)) == TidOf(b) && YOf(TkByte(v)) == YOf(b)
    ensures v.hasKeyIdx ==> KeyIdxOf(TkByte(v)) == KeyIdxOf(b)
  {
  }

  ghost predicate SameFlags(p: seq<byte>, p': seq<byte>) {
    && XBit(p) && XBit(p') && p'[0] == p[0]
    && IBit(p') == IBit(p) && LBit(p') == LBit(p) && TBit(p') == TBit(p) && KBit(p') == KBit(p)
    && MBit(p') == MBit(p)
  }

  ghost predicate SameFields(p: seq<byte>, p': seq<byte>)
    requires Verdict(p) == NoError && |p'| > SizeOf(p) && XBit(p)
  {
    var at := 2 + PictureSize(p) + One(LBit(p));
    && (IBit(p) ==> PidOf(p'[2]) == PidOf(p[2]))
    && (MBit(p) ==> p'[3] == p[3])
    && (LBit(p) ==> p'[2 + PictureSize(p)] == p[2 + PictureSize(p)])
    && (TBit(p) ==> TidOf(p'[at]) == TidOf(p[at]) && YOf(p'[at]) == YOf(p[at]))
    && (KBit(p) ==> KeyIdxOf(p'[at]) == KeyIdxOf(p[at]))
    && p'[SizeOf(p)] == p[SizeOf(p)]
  }

  /** Two payloads with the same flags whose fields agree bit by bit are read alike. */
  lemma ReadAlike(p: seq<byte>, p': seq<byte>)
    requires Verdict(p) == NoError && |p'| > SizeOf(p) && SameFlags(p, p') && SameFields(p, p')
    ensures Verdict(p') == NoError && Decode(BLANK, p') == Decode(BLANK, p)
  {
    hide Has, Flag, PidOf, ShortID, LongID, TidOf, YOf, KeyIdxOf, WithX, WithoutX,
         IDHigh, IDLow, TidY, OrKeyIdx, FlagsByte, KeyFrameBit;
  }

  lemma PrintParts(v: Header)
    requires Extended(v)
    ensures Print(v) == PrintFront(v) + PrintPicture(v) + PrintTL0(v) + PrintTK(v) && |PrintFront(v)| == 2
  {
    hide PrintPicture, PrintTL0, PrintTK;
  }

  /** Where the parts of a printed header lie */
  lemma PrintLayout(v: Header)
    requires Extended(v)
    ensures var b, n := Print(v), |PrintPicture(v)|;
            && |b| == 2 + n + One(v.hasTL0) + |PrintTK(v)|
            && b[0] == WithX(v.firstByte)
            && b[1] == FlagsByte(v.hasPictureID, v.hasTL0, v.hasTID, v.hasKeyIdx)
            && (forall i :: 0 <= i < n ==> b[2 + i] == PrintPicture(v)[i])
            && (v.hasTL0 ==> b[2 + n] == v.tl0)
            && (v.hasTID || v.hasKeyIdx ==> b[2 + n + One(v.hasTL0)] == PrintTK(v)[0])
  {
    hide PrintPicture, PidOf, ShortID, LongID, TidOf, YOf, KeyIdxOf, WithX, WithoutX,
         IDHigh, IDLow, TidY, OrKeyIdx, FlagsByte, KeyFrameBit, TkByte;
  }

  lemma PictureReadBack(p: seq<byte>)
    requires Verdict(p) == NoError && IBit(p)
    ensures var b := PrintPicture(Decode(BLANK, p));
            && |b| == PictureSize(p)
            && PidOf(b[0]) == PidOf(p[2]) && Has(b[0], 0x80) == MBit(p)
            && (MBit(p) ==> b[1] == p[3])
  {
    PictureBack(p[2], if MBit(p) then p[3] else 0);
  }

  lemma FlagsPrinted(p: seq<byte>, rest: seq<byte>)
    requires Verdict(p) == NoError && XBit(p) && !IdleExtension(p)
    ensures SameFlags(p, Print(Decode(BLANK, p)) + rest)
  {
    var v := Decode(BLANK, p);
    PrintSize(p);
    PrintLayout(v);
    TopBit(p[0]);
    FlagsBack(IBit(p), LBit(p), TBit(p), KBit(p));
    if IBit(p) {
      PictureReadBack(p);
    }
    hide Print, PrintPicture, Bits, Has, PidOf, ShortID, LongID, TidOf, YOf, KeyIdxOf, WithX, WithoutX,
         IDHigh, IDLow, TidY, OrKeyIdx, FlagsByte, KeyFrameBit;
  }

  lemma FieldsPrinted(p: seq<byte>, rest: seq<byte>)
    requires Verdict(p) == NoError && XBit(p) && !IdleExtension(p) && rest == p[SizeOf(p)..]
    ensures |Print(Decode(BLANK, p)) + rest| > SizeOf(p) && SameFields(p, Print(Decode(BLANK, p)) + rest)
  {
    var v := Decode(BLANK, p);
    PrintSize(p);
    PrintLayout(v);
    if IBit(p) {
      PictureReadBack(p);
    }
    if TBit(p) || KBit(p) {
      TkBack(p[2 + PictureSize(p) + One(LBit(p))], v);
    }
    hide Print, PrintPicture, Bits, Has, PidOf, ShortID, LongID, TidOf, YOf, KeyIdxOf, WithX, WithoutX,
         IDHigh, IDLow, TidY, OrKeyIdx, FlagsByte, KeyFrameBit;
  }

  lemma ExtendedRoundTrip(p: seq<byte>, rest: seq<byte>)
    requires Verdict(p) == NoError && XBit(p) && !IdleExtension(p) && rest == p[SizeOf(p)..]
    ensures var v := Decode(BLANK, p);
            Verdict(Print(v) + rest) == NoError && Decode(BLANK, Print(v) + rest) == v
  {
    hide Print, Decode, SameFlags, SameFields;
    FlagsPrinted(p, rest);
    FieldsPrinted(p, rest);
    ReadAlike(p, Print(Decode(BLANK, p)) + rest);
  }

  // ------------------------------------------------------------- the struct

  class Descriptor {
    var firstByte: byte
    var hasPictureID: bool
    var pictureID: bv16
    var mBit: bool
    var hasTL0: bool
    var tl0: byte
    var hasTID: bool
    var tid: byte
    var y: byte
    var hasKeyIdx: bool
    var keyIdx: byte
    var headerSize: int
    var isKeyFrame: bool

    ghost function View(): Header
      reads this
    {
      Header(firstByte, hasPictureID, pictureID, mBit, hasTL0, tl0, hasTID, tid, y, hasKeyIdx, keyIdx,
             headerSize, isKeyFrame)
    }

    constructor ()
      ensures View() == BLANK
    {
      firstByte, hasPictureID, pictureID, mBit := 0, false, 0, false;
      hasTL0, tl0, hasTID, tid, y, hasKeyIdx, keyIdx := false, 0, false, 0, 0, false, 0;
      headerSize, isKeyFrame := 0, false;
    }

    /** A missing payload is told apart from an empty one. */
    method Unmarshal(payload: array?<byte>) returns (err: Error)
      modifies this
      ensures err == if payload == null then NilPacket else Verdict(payload[..])
      ensures err == NoError ==> View() == Decode(old(View()), payload[..])
      ensures err != NoError ==> headerSize == old(headerSize) && isKeyFrame == old(isKeyFrame)
    {
      hide Has, Flag, IBit, LBit, TBit, KBit, MBit, KeyFrameBit, Decode, PidOf, ShortID, LongID, TidOf, YOf, KeyIdxOf;
      if payload == null {
        return NilPacket;
      }
      if payload.Length < 1 {
        return ShortPacket;
      }
      var idx := 0;
      firstByte := payload[idx];
      if Has(payload[idx], 0x80) {
        err, idx := UnmarshalExtension(payload);
        if err != NoError {
          return;
        }
      }
      err := Finish(payload, idx + 1);
      ghost var p := payload[..];
      if !XBit(p) {
        NoExtension(p);
      }
      if err == NoError {
        Assembled(p, old(View()), View());
      }
    }

    /** The byte after the descriptor must be there; it tells keyframes. */
    method Finish(payload: array<byte>, size: int) returns (err: Error)
      requires 0 < size
      modifies `headerSize, `isKeyFrame
      ensures err == if payload.Length <= size then ShortPacket else NoError
      ensures err == NoError ==>
                headerSize == size && isKeyFrame == (KeyFrameBit(payload[size]) && Has(payload[0], 0x10))
      ensures err != NoError ==> headerSize == old(headerSize) && isKeyFrame == old(isKeyFrame)
    {
      if payload.Length < size + 1 {
        return ShortPacket;
      }
      isKeyFrame := KeyFrameBit(payload[size]) && Has(payload[0], 0x10);
      headerSize := size;
      return NoError;
    }

    /** Everything the extension byte announces; idx ends on the last byte of the descriptor. */
    method UnmarshalExtension(payload: array<byte>) returns (err: Error, idx: int)
      requires XBit(payload[..])
      modifies this
      ensures unchanged(`firstByte, `headerSize, `isKeyFrame)
      ensures var p := payload[..];
              && err in {NoError, ShortPacket, InvalidPacket}
              && (err == InvalidPacket <==> |p| > 1 && LBit(p) && !TBit(p))
              && (err == NoError <==> |p| > 1 && !(LBit(p) && !TBit(p)) && |p| >= SizeOf(p) && !(IBit(p) && |p| == 2))
              && (err == NoError ==>
                    && idx == SizeOf(p) - 1
                    && var tkAt := 2 + PictureSize(p) + One(LBit(p));
                    && PictureOf(p, old(View()), View())
                    && hasTL0 == (old(hasTL0) || LBit(p))
                    && tl0 == (if LBit(p) then p[2 + PictureSize(p)] else old(tl0))
                    && TkOf(p, tkAt, old(View()), View()))
    {
      hide Has, Flag, XBit, IBit, LBit, TBit, KBit, MBit, PidOf, ShortID, LongID, TidOf, YOf, KeyIdxOf;
      idx := 1;
      if payload.Length < idx + 1 {
        return ShortPacket, idx;
      }
      var i, l, t, k := ReadFlags(payload);
      if l && !t {
        return InvalidPacket, idx;
      }
      if i {
        err, idx := ReadPictureID(payload);
        if err != NoError {
          return;
        }
      }
      err, idx := ReadRest(payload, idx, l, t, k);
    }

    method ReadFlags(payload: array<byte>) returns (i: bool, l: bool, t: bool, k: bool)
      requires XBit(payload[..]) && payload.Length > 1
      ensures var p := payload[..]; i == IBit(p) && l == LBit(p) && t == TBit(p) && k == KBit(p)
      ensures var p := payload[..]; (MBit(p) ==> i) && PictureSize(p) == One(i) + One(MBit(p))
    {
      i, l := Has(payload[1], 0x80), Has(payload[1], 0x40);
      t, k := Has(payload[1], 0x20), Has(payload[1], 0x10);
    }

    /** TL0PICIDX and the TID/Y/KEYIDX byte */
    method ReadRest(payload: array<byte>, from: int, l: bool, t: bool, k: bool) returns (err: Error, idx: int)
      requires 1 <= from < payload.Length
      requires var p := payload[..]; l == LBit(p) && t == TBit(p) && k == KBit(p)
      modifies `hasTL0, `tl0, `hasTID, `tid, `y, `hasKeyIdx, `keyIdx
      ensures err == if payload.Length > from + One(l) + One(t || k) then NoError else ShortPacket
      ensures err == NoError ==>
                && idx == from + One(l) + One(t || k)
                && hasTL0 == (old(hasTL0) || l) && tl0 == (if l then payload[from + 1] else old(tl0))
                && TkOf(payload[..], from + 1 + One(l), old(View()), View())
    {
      hide LBit, TBit, KBit;
      idx := from;
      if l {
        idx := idx + 1;
        if payload.Length < idx + 1 {
          return ShortPacket, idx;
        }
        hasTL0 := true;
        tl0 := payload[idx];
      }
      if t || k {
        idx := idx + 1;
        if payload.Length < idx + 1 {
          return ShortPacket, idx;
        }
        ReadTK(payload, idx, t, k);
      }
      err := NoError;
    }

    method ReadTK(payload: array<byte>, idx: int, t: bool, k: bool)
      requires 0 <= idx < payload.Length && t == TBit(payload[..]) && k == KBit(payload[..])
      modifies `hasTID, `tid, `y, `hasKeyIdx, `keyIdx
      ensures TkOf(payload[..], idx, old(View()), View())
    {
      hide TBit, KBit, TidOf, YOf, KeyIdxOf;
      if t {
        hasTID := true;
        tid := TidOf(payload[idx]);
        y := YOf(payload[idx]);
      }
      if k {
        hasKeyIdx := true;
        keyIdx := KeyIdxOf(payload[idx]);
      }
    }

    method ReadPictureID(payload: array<byte>) returns (err: Error, idx: int)
      requires IBit(payload[..])
      modifies `hasPictureID, `pictureID, `mBit
      ensures var p := payload[..];
              && err == (if |p| >= 2 + PictureSize(p) && |p| > 2 then NoError else ShortPacket)
              && (err == NoError ==> idx == 1 + PictureSize(p) && PictureOf(p, old(View()), View()))
    {
      idx := 2;
      if payload.Length < idx + 1 {
        return ShortPacket, idx;
      }
      hasPictureID := true;
      var pid := PidOf(payload[idx]);
      if Has(payload[idx], 0x80) {
        idx := idx + 1;
        if payload.Length < idx + 1 {
          return ShortPacket, idx;
        }
        mBit := true;
        pictureID := LongID(pid, payload[idx]);
      } else {
        pictureID := ShortID(pid);
      }
      err := NoError;
    }

    /** Writes the descriptor to the front of the buffer; the caller sizes the buffer by
        headerSize, and the fields must not print longer than the buffer. */
    method MarshalTo(buf: array<byte>) returns (err: Error)
      requires buf.Length >= headerSize ==> |Print(View())| <= buf.Length
      modifies buf
      ensures err == if buf.Length < headerSize then ShortPacket else NoError
      ensures buf[..] ==
              if buf.Length < headerSize then old(buf[..])
              else Print(View()) + old(buf[..])[|Print(View())|..]
    {
      if buf.Length < headerSize {
        return ShortPacket;
      }
      ghost var v, was := View(), buf[..];
      if hasPictureID || hasTL0 || hasTID || hasKeyIdx {
        WriteExtended(buf);
      } else {
        buf[0] := firstByte;
        buf[0] := WithoutX(buf[0]);
        assert buf[..] == Print(v) + was[1..];
      }
      return NoError;
    }

    method WriteExtended(buf: array<byte>)
      requires Extended(View()) && |Print(View())| <= buf.Length
      modifies buf
      ensures buf[..] == Print(View()) + old(buf[..])[|Print(View())|..]
    {
      hide Print, PrintFront, PrintPicture, PrintTL0, PrintTK, Extended;
      ghost var v, was := View(), buf[..];
      PrintParts(v);
      WriteFront(buf);
      var idx := WritePicture(buf, 2, PrintFront(v), was);
      WriteRest(buf, idx, PrintFront(v) + PrintPicture(v), was);
    }

    method WriteRest(buf: array<byte>, from: int, ghost part: seq<byte>, ghost was: seq<byte>)
      requires |part| == from && from + |PrintTL0(View())| + |PrintTK(View())| <= buf.Length == |was|
      requires buf[..] == part + was[from..]
      modifies buf
      ensures buf[..] == part + PrintTL0(View()) + PrintTK(View())
                         + was[from + |PrintTL0(View())| + |PrintTK(View())|..]
    {
      hide PrintTL0, PrintTK;
      var idx := WriteTL0(buf, from, part, was);
      idx := WriteTK(buf, idx, part + PrintTL0(View()), was);
    }

    method WriteFront(buf: array<byte>)
      requires buf.Length >= 2
      modifies buf
      ensures |PrintFront(View())| == 2 && buf[..] == PrintFront(View()) + old(buf[..])[2..]
    {
      hide WithX, FlagsByte;
      buf[0] := firstByte;
      buf[0] := WithX(buf[0]);
      buf[1] := FlagsByte(hasPictureID, hasTL0, hasTID, hasKeyIdx);
    }

    method WritePicture(buf: array<byte>, from: int, ghost part: seq<byte>, ghost was: seq<byte>) returns (idx: int)
      requires |part| == from && from + |PrintPicture(View())| <= buf.Length == |was|
      requires buf[..] == part + was[from..]
      modifies buf
      ensures idx == from + |PrintPicture(View())|
      ensures buf[..] == part + PrintPicture(View()) + was[idx..]
    {
      hide IDHigh, IDLow;
      idx := from;
      if hasPictureID {
        if mBit {
          buf[idx] := IDHigh(pictureID);
          buf[idx + 1] := IDLow(pictureID);
          idx := idx + 2;
        } else {
          buf[idx] := IDLow(pictureID);
          idx := idx + 1;
        }
      }
    }

    method WriteTL0(buf: array<byte>, from: int, ghost part: seq<byte>, ghost was: seq<byte>) returns (idx: int)
      requires |part| == from && from + |PrintTL0(View())| <= buf.Length == |was|
      requires buf[..] == part + was[from..]
      modifies buf
      ensures idx == from + |PrintTL0(View())|
      ensures buf[..] == part + PrintTL0(View()) + was[idx..]
    {
      idx := from;
      if hasTL0 {
        buf[idx] := tl0;
        idx := idx + 1;
      }
    }

    method WriteTK(buf: array<byte>, from: int, ghost part: seq<byte>, ghost was: seq<byte>) returns (idx: int)
      requires |part| == from && from + |PrintTK(View())| <= buf.Length == |was|
      requires buf[..] == part + was[from..]
      modifies buf
      ensures idx == from + |PrintTK(View())|
      ensures buf[..] == part + PrintTK(View()) + was[idx..]
    {
      hide TidY, OrKeyIdx;
      idx := from;
      if hasTID || hasKeyIdx {
        buf[idx] := 0;
        if hasTID {
          buf[idx] := TidY(tid, y);
        }
        if hasKeyIdx {
          buf[idx] := OrKeyIdx(buf[idx], keyIdx);
        }
        idx := idx + 1;
      }
    }
  }

  /** A header is decoded once all its parts are. */
  lemma Assembled(p: seq<byte>, v: Header, w: Header)
    requires |p| > SizeOf(p)
    ensures Verdict(p) == NoError &&
            w.firstByte == p[0] && w.headerSize == SizeOf(p)
            && w.isKeyFrame == (KeyFrameBit(p[SizeOf(p)]) && Has(p[0], 0x10))
            && PictureOf(p, v, w) && w.hasTL0 == (v.hasTL0 || LBit(p))
            && w.tl0 == (if LBit(p) then p[2 + PictureSize(p)] else v.tl0)
            && TkOf(p, 2 + PictureSize(p) + One(LBit(p)), v, w)
            ==> w == Decode(v, p)
  {
    hide Has, Flag, PidOf, ShortID, LongID, TidOf, YOf, KeyIdxOf, KeyFrameBit;
  }

  /** Header w has the picture ID of p, or that of v where p has none. */
  ghost predicate PictureOf(p: seq<byte>, v: Header, w: Header)
    requires |p| >= 2 + PictureSize(p)
  {
    && w.hasPictureID == (v.hasPictureID || IBit(p)) && w.mBit == (v.mBit || MBit(p))
    && w.pictureID == if MBit(p) then LongID(PidOf(p[2]), p[3])
                      else if IBit(p) then ShortID(PidOf(p[2]))
                      else v.pictureID
  }

  ghost predicate TkOf(p: seq<byte>, tkAt: int, v: Header, w: Header)
    requires TBit(p) || KBit(p) ==> 0 <= tkAt < |p|
  {
    && w.hasTID == (v.hasTID || TBit(p)) && w.hasKeyIdx == (v.hasKeyIdx || KBit(p))
    && w.tid == (if TBit(p) then TidOf(p[tkAt]) else v.tid)
    && w.y == (if TBit(p) then YOf(p[tkAt]) else v.y)
    && w.keyIdx == if KBit(p) then KeyIdxOf(p[tkAt]) else v.keyIdx
  }

  // ----------------------------------------------------------------- packing

  function Wide(b: bool): bv64 {
    if b then 1 else 0
  }

  function Low8(n: int): byte {
    (n % 256) as byte
  }

  function Word(a: bv64, b: bv64, c: bv64, d: bv64, e: bv64, f: bv64, g: bv64, h: bv64, i: bv64,
                j: bv64, k: bv64, l: bv64, m: bv64): bv64
  {
    (a << 56) | (b << 55) | (c << 54) | (d << 53) | (e << 52) | (f << 51) | (g << 50) |
    (h << 32) | (i << 24) | (j << 22) | (k << 21) | (l << 16) | (m << 8)
  }

  /** packVP8: thirteen fields in one 64-bit word */
  function Pack(v: Header): bv64 {
    Word(v.firstByte as bv64,
         Wide(v.hasPictureID), Wide(v.hasTL0), Wide(v.hasTID), Wide(v.hasKeyIdx), Wide(v.mBit), Wide(v.isKeyFrame),
         (v.pictureID & 0x7FFF) as bv64, v.tl0 as bv64, (v.tid & 0x3) as bv64, (v.y & 0x1) as bv64,
         (v.keyIdx & 0x1F) as bv64, Low8(v.headerSize) as bv64)
  }

  /** unpackVP8 */
  function Unpack(misc: bv64): Header {
    Header(
      ((misc >> 56) & 0xFF) as byte,
      (misc >> 55) & 0x1 != 0, ((misc >> 32) & 0x7FFF) as bv16, (misc >> 51) & 0x1 != 0,
      (misc >> 54) & 0x1 != 0, ((misc >> 24) & 0xFF) as byte,
      (misc >> 53) & 0x1 != 0, ((misc >> 22) & 0x3) as byte, ((misc >> 21) & 0x1) as byte,
      (misc >> 52) & 0x1 != 0, ((misc >> 16) & 0x1F) as byte,
      ((misc >> 8) & 0xFF) as byte as int,
      (misc >> 50) & 0x1 != 0)
  }

  /** The widths of the packed fields */
  predicate Fits(v: Header) {
    v.pictureID <= 0x7FFF && v.tid <= 3 && v.y <= 1 && v.keyIdx <= 0x1F && 0 <= v.headerSize <= 255
  }

  /** The thirteen fields of a word, low to high in the order they are read */
  ghost predicate Fields(w: bv64, a: bv64, b: bv64, c: bv64, d: bv64, e: bv64, f: bv64, g: bv64, h: bv64, i: bv64,
                         j: bv64, k: bv64, l: bv64, m: bv64)
  {
    && (w >> 56) & 0xFF == a && (w >> 55) & 1 == b && (w >> 54) & 1 == c && (w >> 53) & 1 == d
    && (w >> 52) & 1 == e && (w >> 51) & 1 == f && (w >> 50) & 1 == g && (w >> 32) & 0x7FFF == h
    && (w >> 24) & 0xFF == i && (w >> 22) & 3 == j && (w >> 21) & 1 == k && (w >> 16) & 0x1F == l
    && (w >> 8) & 0xFF == m
  }

  /** Disjoint fields of a word can be read back. */
  lemma FieldsDisjoint(a: bv64, b: bv64, c: bv64, d: bv64, e: bv64, f: bv64, g: bv64, h: bv64, i: bv64,
                       j: bv64, k: bv64, l: bv64, m: bv64)
    requires a <= 0xFF && b <= 1 && c <= 1 && d <= 1 && e <= 1 && f <= 1 && g <= 1 && h <= 0x7FFF && i <= 0xFF
    requires j <= 3 && k <= 1 && l <= 0x1F && m <= 0xFF
    ensures Fields(Word(a, b, c, d, e, f, g, h, i, j, k, l, m), a, b, c, d, e, f, g, h, i, j, k, l, m)
  {
  }

  lemma Low8Back(n: int)
    requires 0 <= n <= 255
    ensures Low8(n) as int == n
  {
    assert n % 256 == n;
  }

  lemma ByteRange(b: byte)
    ensures 0 <= b as int <= 255
  {
  }

  /** Packing loses nothing exactly when every field fits its width. */
  lemma PackingLossless(v: Header)
    ensures Unpack(Pack(v)) == v <==> Fits(v)
  {
    UnpackFits(Pack(v));
    if Fits(v) {
      PackedFields(v);
      Low8Back(v.headerSize);
      Narrow8(v.firstByte);
      Narrow8(v.tl0);
      Narrow8(Low8(v.headerSize));
      NarrowRest(v.pictureID, v.tid, v.y, v.keyIdx);
      hide Low8, Pack;
    }
  }

  lemma PackedFields(v: Header)
    ensures Fields(Pack(v), v.firstByte as bv64,
                   Wide(v.hasPictureID), Wide(v.hasTL0), Wide(v.hasTID), Wide(v.hasKeyIdx), Wide(v.mBit),
                   Wide(v.isKeyFrame), (v.pictureID & 0x7FFF) as bv64, v.tl0 as bv64, (v.tid & 0x3) as bv64,
                   (v.y & 0x1) as bv64, (v.keyIdx & 0x1F) as bv64, Low8(v.headerSize) as bv64)
  {
    hide Low8, Word, Fields;
    Narrow8(v.firstByte);
    Narrow8(v.tl0);
    Narrow8(Low8(v.headerSize));
    MaskedRanges(v.pictureID, v.tid, v.y, v.keyIdx);
    FieldsDisjoint(v.firstByte as bv64, Wide(v.hasPictureID), Wide(v.hasTL0), Wide(v.hasTID), Wide(v.hasKeyIdx),
                   Wide(v.mBit), Wide(v.isKeyFrame), (v.pictureID & 0x7FFF) as bv64, v.tl0 as bv64,
                   (v.tid & 0x3) as bv64, (v.y & 0x1) as bv64, (v.keyIdx & 0x1F) as bv64,
                   Low8(v.headerSize) as bv64);
  }

  lemma MaskedRanges(id: bv16, tid: byte, y: byte, keyIdx: byte)
    ensures (id & 0x7FFF) as bv64 <= 0x7FFF && (tid & 0x3) as bv64 <= 3
    ensures (y & 0x1) as bv64 <= 1 && (keyIdx & 0x1F) as bv64 <= 0x1F
  {
  }

  lemma UnpackFits(w: bv64)
    ensures Fits(Unpack(w))
  {
    ByteRange(((w >> 8) & 0xFF) as byte);
  }

  lemma Narrow8(b: byte)
    ensures (b as bv64) <= 0xFF && (b as bv64) as byte == b
  {
  }

  lemma NarrowRest(id: bv16, tid: byte, y: byte, keyIdx: byte)
    requires id <= 0x7FFF && tid <= 3 && y <= 1 && keyIdx <= 0x1F
    ensures ((id & 0x7FFF) as bv64) <= 0x7FFF && ((id & 0x7FFF) as bv64) as bv16 == id
    ensures ((tid & 0x3) as bv64) <= 3 && ((tid & 0x3) as bv64) as byte == tid
    ensures ((y & 0x1) as bv64) <= 1 && ((y & 0x1) as bv64) as byte == y
    ensures ((keyIdx & 0x1F) as bv64) <= 0x1F && ((keyIdx & 0x1F) as bv64) as byte == keyIdx
  {
  }

  /** The parser only produces headers that fit, so what is stored with a packet comes back. */
  lemma ParsedHeadersPack(p: seq<byte>)
    requires Verdict(p) == NoError
    ensures Unpack(Pack(Decode(BLANK, p))) == Decode(BLANK, p)
  {
    PackingLossless(Decode(BLANK, p));
  }
}
