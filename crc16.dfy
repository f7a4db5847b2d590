/** CRC-16/MODBUS as computed by `crc16.c`: initial value 0xFFFF, reflected
    polynomial 0xA001, no final XOR (section 6.2.2 of the Modbus over Serial Line
    Specification V1.02). */
module Crc16 {
  import opened Bytes

  const Init: bv16 := 0xFFFF
  const Poly: bv16 := 0xA001

  /** One iteration of the bit loop of `crc16_update`: shift right, and XOR the
      polynomial exactly when the low bits of `crc` and `a` differ. */
  function Step(crc: bv16, a: bv8): bv16 {
    if (crc ^ (a as bv16)) & 1 == 1 then (crc >> 1) ^ Poly else crc >> 1
  }

  /** `n` iterations of the bit loop, with `a` shifted right after each one. */
  function Steps(crc: bv16, a: bv8, n: nat): bv16
    decreases n
  {
    if n == 0 then crc else Steps(Step(crc, a), a >> 1, n - 1)
  }

  /** `crc16_update`: eight iterations of the bit loop. */
  function Update(crc: bv16, a: bv8): bv16 {
    Steps(crc, a, 8)
  }

  /** Left fold of `Update` over `s`, starting from register value `crc`. */
  function CrcFrom(crc: bv16, s: seq<bv8>): bv16
    decreases |s|
  {
    if s == [] then crc else CrcFrom(Update(crc, s[0]), s[1..])
  }

  /** `modbus_crc16` of the bytes `s`. */
  function Crc(s: seq<bv8>): bv16 {
    CrcFrom(Init, s)
  }

  /** The RTU trailer: the CRC low byte first, then the high byte. */
  function Trailer(crc: bv16): seq<bv8> {
    [Lo(crc), Hi(crc)]
  }

  /** `crc16_update`, the loop over the eight bits of `a`. */
  method UpdateByte(crc0: bv16, a0: bv8) returns (crc: bv16)
    ensures crc == Update(crc0, a0)
  {
    crc := crc0;
    var a := a0;
    for i := 0 to 8
      invariant Steps(crc, a, 8 - i) == Update(crc0, a0)
    {
      if (crc ^ (a as bv16)) & 1 == 1 {
        crc := (crc >> 1) ^ Poly;
      } else {
        crc := crc >> 1;
      }
      a := a >> 1;
    }
  }

  /** `modbus_crc16(data, len)`: the loop over the first `len` bytes. */
  method ModbusCrc16(data: seq<bv8>, len: nat) returns (crc: bv16)
    requires len <= |data| && len < 0x1_0000
    ensures crc == Crc(data[..len])
  {
    crc := Init;
    for i := 0 to len
      invariant crc == Crc(data[..i])
    {
      crc := UpdateByte(crc, data[i]);
      CrcAppend(Init, data[..i], [data[i]]);
      assert data[..i + 1] == data[..i] + [data[i]];
    }
  }

  /** The CRC of no bytes is the initial value. */
  lemma CrcEmpty()
    ensures Crc([]) == 0xFFFF
  {
  }

  /** Compositionality: the CRC of `a + b` continues the fold from the CRC of `a`. */
  lemma {:induction false} CrcAppend(crc: bv16, a: seq<bv8>, b: seq<bv8>)
    ensures CrcFrom(crc, a + b) == CrcFrom(CrcFrom(crc, a), b)
    decreases |a|
  {
    if a != [] {
      assert (a + b)[0] == a[0] && (a + b)[1..] == a[1..] + b;
      assert CrcFrom(crc, a + b) == CrcFrom(Update(crc, a[0]), a[1..] + b);
      assert CrcFrom(crc, a) == CrcFrom(Update(crc, a[0]), a[1..]);
      CrcAppend(Update(crc, a[0]), a[1..], b);
    } else {
      assert a + b == b;
    }
  }

  /** The textbook form of the byte update (section 6.2.2 of the Serial Line
      specification): XOR the byte into the low byte of the register, then shift
      eight times, XOR-ing the polynomial whenever the bit shifted out is 1. */
  function ShiftOut(r: bv16): bv16 {
    if r & 1 == 1 then (r >> 1) ^ Poly else r >> 1
  }

  function ShiftsOut(r: bv16, n: nat): bv16
    decreases n
  {
    if n == 0 then r else ShiftsOut(ShiftOut(r), n - 1)
  }

  /** `a` shifted right `n` times. */
  function ShrByte(a: bv8, n: nat): bv8
    decreases n
  {
    if n == 0 then a else ShrByte(a >> 1, n - 1)
  }

  lemma StepXor(crc: bv16, a: bv8)
    ensures Step(crc, a) ^ ((a >> 1) as bv16) == ShiftOut(crc ^ (a as bv16))
  {
    assert (crc >> 1) ^ ((a >> 1) as bv16) == (crc ^ (a as bv16)) >> 1;
    if (crc ^ (a as bv16)) & 1 == 1 {
      assert Step(crc, a) == (crc >> 1) ^ Poly;
      assert ShiftOut(crc ^ (a as bv16)) == ((crc ^ (a as bv16)) >> 1) ^ Poly;
    } else {
      assert Step(crc, a) == crc >> 1;
      assert ShiftOut(crc ^ (a as bv16)) == (crc ^ (a as bv16)) >> 1;
    }
  }

  /** After `n` interleaved steps, the register XOR the remaining bits of `a` is the
      textbook register after `n` shifts. */
  lemma {:induction false} StepsXor(crc: bv16, a: bv8, n: nat)
    ensures Steps(crc, a, n) ^ (ShrByte(a, n) as bv16) == ShiftsOut(crc ^ (a as bv16), n)
    decreases n
  {
    if n > 0 {
      StepsXor(Step(crc, a), a >> 1, n - 1);
      StepXor(crc, a);
      StepsXorUnfold(crc, a, n);
    }
  }

  /** One level of the three recursions of `StepsXor`. */
  lemma StepsXorUnfold(crc: bv16, a: bv8, n: nat)
    requires n > 0
    ensures Steps(crc, a, n) == Steps(Step(crc, a), a >> 1, n - 1)
    ensures ShrByte(a, n) == ShrByte(a >> 1, n - 1)
    ensures ShiftsOut(crc ^ (a as bv16), n) == ShiftsOut(ShiftOut(crc ^ (a as bv16)), n - 1)
  {
  }

  lemma ShrByteEight(a: bv8)
    ensures ShrByte(a, 8) == 0
  {
    assert ShrByte(a, 8) == ShrByte(a >> 1, 7) == ShrByte(a >> 2, 6) == ShrByte(a >> 3, 5);
    assert ShrByte(a >> 3, 5) == ShrByte(a >> 4, 4) == ShrByte(a >> 5, 3) == ShrByte(a >> 6, 2);
    assert ShrByte(a >> 6, 2) == ShrByte(a >> 7, 1) == ShrByte(a >> 8, 0);
  }

  /** The bit-interleaved loop of `crc16_update` equals the textbook byte update. */
  lemma UpdateIsTextbook(crc: bv16, a: bv8)
    ensures Update(crc, a) == ShiftsOut(crc ^ (a as bv16), 8)
  {
    StepsXor(crc, a, 8);
    ShrByteEight(a);
  }

  /** The mask of the low `n` bits of a register. */
  function LowMask(n: nat): bv16
    requires n <= 8
  {
    match n
    case 0 => 0x00 case 1 => 0x01 case 2 => 0x03 case 3 => 0x07 case 4 => 0x0F
    case 5 => 0x1F case 6 => 0x3F case 7 => 0x7F case _ => 0xFF
  }

  /** `r` shifted right `n` times. */
  function ShrWord(r: bv16, n: nat): bv16
    decreases n
  {
    if n == 0 then r else ShrWord(r >> 1, n - 1)
  }

  lemma LowBitsShift(crc: bv16, a: bv8, n: nat)
    requires 0 < n <= 8
    requires (crc ^ (a as bv16)) & LowMask(n) == 0
    ensures (crc ^ (a as bv16)) & 1 == 0
    ensures ((crc >> 1) ^ ((a >> 1) as bv16)) & LowMask(n - 1) == 0
  {
    assert (crc >> 1) ^ ((a >> 1) as bv16) == (crc ^ (a as bv16)) >> 1;
  }

  /** While the low bits of the register and of `a` agree, no polynomial is XOR-ed in
      and each step is a plain shift. */
  lemma {:induction false} StepsAgreeing(crc: bv16, a: bv8, n: nat)
    requires n <= 8
    requires (crc ^ (a as bv16)) & LowMask(n) == 0
    ensures Steps(crc, a, n) == ShrWord(crc, n)
    decreases n
  {
    if n > 0 {
      LowBitsShift(crc, a, n);
      assert Step(crc, a) == crc >> 1;
      StepsAgreeing(crc >> 1, a >> 1, n - 1);
    }
  }

  lemma ShrWordEight(r: bv16)
    ensures ShrWord(r, 8) == r >> 8
  {
    assert ShrWord(r, 8) == ShrWord(r >> 1, 7) == ShrWord(r >> 2, 6) == ShrWord(r >> 3, 5);
    assert ShrWord(r >> 3, 5) == ShrWord(r >> 4, 4) == ShrWord(r >> 5, 3) == ShrWord(r >> 6, 2);
    assert ShrWord(r >> 6, 2) == ShrWord(r >> 7, 1) == ShrWord(r >> 8, 0);
  }

  /** Feeding a register its own trailer bytes brings it to zero. */
  lemma TrailerClears(crc: bv16)
    ensures Update(Update(crc, Lo(crc)), Hi(crc)) == 0
  {
    StepsAgreeing(crc, Lo(crc), 8);
    ShrWordEight(crc);
    StepsAgreeing(crc >> 8, Hi(crc), 8);
    ShrWordEight(crc >> 8);
  }

  /** Appending the CRC, low byte first, gives bytes whose CRC is zero; this is what
      the trailer checks of master and slave rely on. */
  lemma CrcResidue(s: seq<bv8>)
    ensures Crc(s + Trailer(Crc(s))) == 0
  {
    var c := Crc(s);
    CrcAppend(Init, s, Trailer(c));
    TwoBytes(c, Lo(c), Hi(c));
    TrailerClears(c);
  }

  /** Folding over two bytes is two updates. */
  lemma TwoBytes(crc: bv16, lo: bv8, hi: bv8)
    ensures CrcFrom(crc, [lo, hi]) == Update(Update(crc, lo), hi)
  {
    assert [lo, hi][1..] == [hi];
    assert CrcFrom(crc, [lo, hi]) == CrcFrom(Update(crc, lo), [hi]);
    assert [hi][1..] == [];
    assert CrcFrom(Update(crc, lo), [hi]) == CrcFrom(Update(Update(crc, lo), hi), []);
  }

  /** The trailer check used by both RTU receivers: the received trailer equals the
      CRC of the bytes before it exactly when the CRC over the whole frame is zero. */
  lemma TrailerCheck(s: seq<bv8>, lo: bv8, hi: bv8)
    ensures (Word(hi, lo) == Crc(s)) <==> Crc(s + [lo, hi]) == 0
  {
    var c := Crc(s);
    CrcAppend(Init, s, [lo, hi]);
    TwoBytes(c, lo, hi);
    UpdateTwoInjective(c, lo, hi);
    TrailerClears(c);
    WordOfBytes(c);
    BytesOfWord(hi, lo);
  }

  /** Only the zero register shifts out to zero: the polynomial's top bit keeps
      the shift invertible. */
  lemma {:induction false} ShiftsOutZero(x: bv16, n: nat)
    requires ShiftsOut(x, n) == 0
    ensures x == 0
    decreases n
  {
    if n > 0 {
      ShiftsOutZero(ShiftOut(x), n - 1);
      ShiftOutZero(x);
    }
  }

  lemma ShiftOutZero(x: bv16)
    requires ShiftOut(x) == 0
    ensures x == 0
  {
  }

  lemma ShiftsOutEight(r: bv16)
    ensures ShiftsOut(r, 8) == ShiftOut(ShiftOut(ShiftOut(ShiftOut(ShiftOut(ShiftOut(ShiftOut(ShiftOut(r))))))))
  {
  }

  /** Eight shifts leave the high byte clear only when the low byte was clear: a set
      bit shifted out XORs in the polynomial, whose top bit then survives. */
  lemma LowByteZero(r: bv16)
    requires ShiftsOut(r, 8) & 0xFF00 == 0
    ensures r & 0xFF == 0
  {
    ShiftsOutEight(r);
  }

  lemma XorBytes(crc: bv16, lo: bv8, u: bv16, hi: bv8)
    ensures (crc ^ (lo as bv16)) & 0xFF == 0 ==> lo == Lo(crc)
    ensures u ^ (hi as bv16) == 0 ==> u == hi as bv16 && u & 0xFF00 == 0
    ensures hi as bv16 == crc >> 8 ==> hi == Hi(crc)
  {
  }

  /** For a fixed register, only its own trailer brings it to zero. */
  lemma UpdateTwoInjective(crc: bv16, lo: bv8, hi: bv8)
    ensures Update(Update(crc, lo), hi) == 0 ==> lo == Lo(crc) && hi == Hi(crc)
  {
    var u := Update(crc, lo);
    if Update(u, hi) == 0 {
      UpdateIsTextbook(u, hi);
      ShiftsOutZero(u ^ (hi as bv16), 8);
      XorBytes(crc, lo, u, hi);
      UpdateIsTextbook(crc, lo);
      LowByteZero(crc ^ (lo as bv16));
      StepsAgreeing(crc, Lo(crc), 8);
      ShrWordEight(crc);
    }
  }
}
