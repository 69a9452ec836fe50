/** Wrap-around arithmetic on RTP sequence numbers and timestamps.

    A 16-bit sequence number is the residue of an unbounded "extended" number.
    The code recovers the extended number from the distance to the highest
    number seen so far; Extend is that recovery, stated on integers. */
module SeqNum {

  type uint16 = x: int | 0 <= x < 0x1_0000
  type uint32 = x: int | 0 <= x < 0x1_0000_0000

  const MOD16: int := 0x1_0000
  const MOD32: int := 0x1_0000_0000
  const HALF16: int := 0x8000

  /** Truncation to 16 and 32 bits */
  function Mod16(x: int): uint16 {
    x % 0x1_0000
  }

  function Mod32(x: int): uint32 {
    x % 0x1_0000_0000
  }

  /** Unsigned addition and subtraction */
  function Add16(a: int, b: int): uint16 {
    (a + b) % 0x1_0000
  }

  function Add32(a: int, b: int): uint32 {
    (a + b) % 0x1_0000_0000
  }

  function Sub16(a: int, b: int): uint16 {
    (a - b) % 0x1_0000
  }

  function Sub32(a: int, b: int): uint32 {
    (a - b) % 0x1_0000_0000
  }

  /** The extended number a 16-bit number stands for, seen from the extended head.
      A distance of exactly 32768 counts as a jump forward. */
  function Extend(head: int, sn: uint16): (e: int)
    ensures Mod16(e) == sn
    ensures head - HALF16 < e <= head + HALF16
  {
    var diff := Sub16(sn, head);
    if diff <= HALF16 then head + diff else head + diff - MOD16
  }

  /** Extend inverts the truncation to 16 bits for every number less than half a
      cycle behind, or at most half a cycle ahead of, the head. */
  lemma ExtendInverts(head: int, t: int)
    requires head - HALF16 < t <= head + HALF16
    ensures Extend(head, Mod16(t)) == t
  {
    var e := Extend(head, Mod16(t));
    assert Mod16(e - t) == 0;
  }

  lemma Mod16Succ(x: int)
    ensures Add16(Mod16(x), 1) == Mod16(x + 1)
  {
  }

  lemma SubOfMods(a: int, b: int)
    ensures Sub16(Mod16(a), Mod16(b)) == Mod16(a - b)
  {
  }

  lemma Mod16Near(x: int)
    ensures 0 <= x < MOD16 ==> Mod16(x) == x
    ensures -MOD16 <= x < 0 ==> Mod16(x) == x + MOD16
  {
  }

  lemma Mod16Absorbs(x: int, y: int)
    ensures Mod16(Mod16(x) + y) == Mod16(x + y)
  {
  }

  lemma Mod32Absorbs(x: int, y: int)
    ensures Mod32(Mod32(x) + y) == Mod32(x + y)
    ensures 0 <= x < MOD32 ==> Mod32(x) == x
  {
  }

  lemma Mod32Near(x: int)
    ensures 0 <= x < MOD32 ==> Mod32(x) == x
    ensures MOD32 <= x < 2 * MOD32 ==> Mod32(x) == x - MOD32
    ensures -MOD32 <= x < 0 ==> Mod32(x) == x + MOD32
  {
  }

  lemma AddCommutes32(x: int, y: int)
    ensures Add32(x, y) == Add32(y, x)
  {
  }

  lemma Mod32Separates(a: int, b: int)
    requires 0 < a - b < MOD32
    ensures Mod32(a) != Mod32(b)
  {
  }

  lemma Mod32Adds(x: int, y: int)
    ensures Add32(Mod32(x), y) == Mod32(x + y)
    ensures Sub32(Mod32(x), y) == Mod32(x - y)
  {
  }

  /** Adding at most half a cycle to a two-part number: the low part wraps exactly when it
      gets smaller, and then carries one. */
  lemma WrapCarries(low: uint16, high: uint16, diff: int)
    requires 0 < diff <= HALF16
    ensures var low' := Mod16(low + diff);
            (if low' < low then Add16(high, 1) else high) * 0x1_0000 + low' == Mod32(high * 0x1_0000 + low + diff)
  {
    if low + diff < MOD16 {
      assert Mod16(low + diff) == low + diff;
    } else {
      assert Mod16(low + diff) == low + diff - MOD16;
    }
  }

  lemma AddMods32(x: int, y: int)
    ensures Add32(Mod32(x), Mod32(y)) == Mod32(x + y)
  {
    Mod32Adds(x, Mod32(y));
    Mod32Absorbs(y, x);
    hide Mod32, Add32;
  }

  lemma ModOfMod(x: int)
    ensures Mod16(Mod16(x) - x) == 0
  {
  }

  lemma Mod16OfMod32(x: int)
    ensures Mod16(Mod32(x)) == Mod16(x)
  {
  }

  lemma Shift16(x: int, k: int)
    ensures Mod16(x + k * 0x1_0000) == Mod16(x)
  {
  }

  lemma Shift32(x: int, k: int)
    ensures Mod32(x + k * 0x1_0000_0000) == Mod32(x)
  {
  }

  lemma Distance32(a: int, b: int)
    requires 0 <= b - a < MOD32
    ensures Sub32(Mod32(b), Mod32(a)) == b - a
  {
    var p, q := a / 0x1_0000_0000, b / 0x1_0000_0000;
    assert Mod32(b) - Mod32(a) == b - a + (p - q) * 0x1_0000_0000;
    Shift32(b - a, p - q);
    Mod32Near(b - a);
    assert Sub32(Mod32(b), Mod32(a)) == Mod32(Mod32(b) - Mod32(a));
    hide Mod32, Sub32;
  }

  lemma NegatedMod(x: int)
    ensures Mod16(x) == 0 ==> Mod16(-x) == 0
    ensures Mod16(x) != 0 ==> Mod16(-x) == MOD16 - Mod16(x)
  {
    var q := x / 0x1_0000;
    var r: int := Mod16(x);
    assert -x == -r - q * 0x1_0000;
    Shift16(-r, -q);
    Mod16Near(-r);
    hide Mod16;
  }

  /** Counting up from a in 16 bits meets b after exactly Sub16(b, a) steps. */
  lemma CountsUp(a: uint16, b: uint16, n: nat)
    requires n <= Sub16(b, a)
    ensures Mod16(a + n) == b <==> n == Sub16(b, a)
  {
  }

  lemma OneCloser(a: uint16, b: uint16)
    requires Sub16(b, a) > 0
    ensures Sub16(b, Add16(a, 1)) == Sub16(b, a) - 1
  {
  }

  /** Two numbers with one 16-bit image are equal or a whole cycle apart. */
  lemma SameResidue(a: int, b: int)
    requires Mod16(a) == Mod16(b)
    ensures a == b || a - b >= MOD16 || b - a >= MOD16
  {
  }

  function Max(a: int, b: int): int {
    if a < b then b else a
  }

  function Min(a: int, b: int): int {
    if a < b then a else b
  }

  /** What the 16-bit distances to the head tell about the extended number. */
  lemma ExtendByDistance(head: int, sn: uint16)
    ensures var e, diff, back := Extend(head, sn), Sub16(sn, Mod16(head)), Sub16(Mod16(head), sn);
            && (e > head <==> 0 < diff <= HALF16)
            && (e > head ==> e == head + diff)
            && (e == head <==> diff == 0)
            && (e <= head ==> e == head - back && back < HALF16)
  {
    var e := Extend(head, sn);
    hide Mod16, Sub16, Extend;
    SubOfMods(e, head);
    Mod16Near(e - head);
    SubOfMods(head, e);
    Mod16Near(head - e);
  }

  lemma FirstDistance(sn: uint16)
    ensures Sub16(sn, Sub16(sn, 1)) == 1 && Mod16(sn) == sn && Sub16(sn, 1) == Mod16(sn - 1)
  {
  }
}
