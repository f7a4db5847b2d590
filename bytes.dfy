/** Byte-level helpers shared by the Modbus engine: big-endian 16-bit words, the C
    truncating casts to `uint8_t`, single bits of a byte, and the Option type. */
module Bytes {

  datatype Option<T> = None | Some(value: T)

  /** `(uint8_t)(w >> 8)`: the high byte of a 16-bit word. */
  function Hi(w: bv16): bv8 { (w >> 8) as bv8 }

  /** `(uint8_t)(w & 0xFF)`: the low byte of a 16-bit word. */
  function Lo(w: bv16): bv8 { (w & 0xFF) as bv8 }

  /** `hi << 8 | lo`: the word whose big-endian bytes are `hi`, `lo`. */
  function Word(hi: bv8, lo: bv8): bv16 { ((hi as bv16) << 8) | (lo as bv16) }

  lemma WordOfBytes(w: bv16)
    ensures Word(Hi(w), Lo(w)) == w
  {
  }

  lemma BytesOfWord(hi: bv8, lo: bv8)
    ensures Hi(Word(hi, lo)) == hi && Lo(Word(hi, lo)) == lo
  {
  }

  /** The numeric value of a word is `256 * high byte + low byte`. */
  lemma WordSplitValue(w: bv16)
    ensures w as int == Hi(w) as int * 256 + Lo(w) as int
  {
    assert w as int == ((w >> 8) as bv8) as int * 256 + ((w & 0xFF) as bv8) as int;
  }

  /** The numeric value of a big-endian word. */
  lemma WordValue(hi: bv8, lo: bv8)
    ensures Word(hi, lo) as int == hi as int * 256 + lo as int
  {
    WordSplitValue(Word(hi, lo));
    BytesOfWord(hi, lo);
  }

  /** The byte whose value is `r`, counted up from zero so that its value follows
      from bit-vector increments alone. */
  function ByteOf(r: nat): (b: bv8)
    requires r < 256
    ensures b as int == r
  {
    if r == 0 then 0 else ByteOf(r - 1) + 1
  }

  /** `(uint8_t)x` for an integer `x >= 0`: truncation to the low eight bits. */
  function Byte(x: int): (b: bv8)
    requires 0 <= x
    ensures b as int == x % 256
  {
    ByteOf(x % 256)
  }

  /** A value below 256 is its own byte. */
  lemma ByteSmall(x: nat)
    requires x < 256
    ensures Byte(x) as int == x
  {
  }

  /** `(uint8_t)(x >> 8)` for an integer `x >= 0`. */
  function HiByte(x: int): (b: bv8)
    requires 0 <= x
    ensures b as int == (x / 256) % 256
  {
    Byte(x / 256)
  }

  /** Reading back the two bytes of a 16-bit `x` gives `x`. */
  lemma WordOfInt(x: nat)
    requires x < 0x1_0000
    ensures Word(HiByte(x), Byte(x)) as int == x
  {
    WordValue(HiByte(x), Byte(x));
    assert HiByte(x) as int == x / 256;
    assert Byte(x) as int == x % 256;
  }

  /** The single-bit mask `1 << b` of a byte. */
  function Mask(b: nat): bv8
    requires b < 8
  {
    match b
    case 0 => 0x01 case 1 => 0x02 case 2 => 0x04 case 3 => 0x08
    case 4 => 0x10 case 5 => 0x20 case 6 => 0x40 case _ => 0x80
  }

  /** Bit `b` of byte `x`. */
  predicate Bit(x: bv8, b: nat)
    requires b < 8
  {
    x & Mask(b) != 0
  }

  /** `x |= (1 << b)` sets bit `b` and keeps every other bit. */
  lemma SetBit(x: bv8, b: nat, c: nat)
    requires b < 8 && c < 8
    ensures Bit(x | Mask(b), c) == (c == b || Bit(x, c))
  {
  }

  /** `x &= ~(1 << b)` clears bit `b` and keeps every other bit. */
  lemma ClearBit(x: bv8, b: nat, c: nat)
    requires b < 8 && c < 8
    ensures Bit(x & !Mask(b), c) == (c != b && Bit(x, c))
  {
  }

  /** `x |= (1 << b)` when `on`, `x &= ~(1 << b)` otherwise. */
  function AssignBit(x: bv8, b: nat, on: bool): bv8
    requires b < 8
  {
    if on then x | Mask(b) else x & !Mask(b)
  }

  /** Assigning bit `b` gives it the new value and keeps every other bit. */
  lemma AssignedBit(x: bv8, b: nat, on: bool, c: nat)
    requires b < 8 && c < 8
    ensures Bit(AssignBit(x, b, on), c) == if c == b then on else Bit(x, c)
  {
    if on {
      SetBit(x, b, c);
    } else {
      ClearBit(x, b, c);
    }
  }

  /** `(x >> b) & 0x01` is bit `b` of `x`, as 0 or 1. */
  lemma ShiftedBit(x: bv8, b: nat)
    requires b < 8
    ensures (x >> b) & 1 == if Bit(x, b) then 1 else 0
  {
  }

  /** Bit `c` of `x | y` is set when it is set in either. */
  lemma OrBit(x: bv8, y: bv8, c: nat)
    requires c < 8
    ensures Bit(x | y, c) == (Bit(x, c) || Bit(y, c))
  {
  }

  /** `1 << b` has bit `b` set and no other. */
  lemma MaskBit(b: nat, c: nat)
    requires b < 8 && c < 8
    ensures Bit(Mask(b), c) == (b == c) && !Bit(0, c)
  {
  }

  /** Two bytes with the same eight bits are equal. */
  lemma BitsDetermineByte(x: bv8, y: bv8)
    requires forall b :: 0 <= b < 8 ==> Bit(x, b) == Bit(y, b)
    ensures x == y
  {
    assert Bit(x, 0) == Bit(y, 0) && Bit(x, 1) == Bit(y, 1) && Bit(x, 2) == Bit(y, 2);
    assert Bit(x, 3) == Bit(y, 3) && Bit(x, 4) == Bit(y, 4) && Bit(x, 5) == Bit(y, 5);
    assert Bit(x, 6) == Bit(y, 6) && Bit(x, 7) == Bit(y, 7);
  }
}
