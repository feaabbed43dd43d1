/** The CRC-7 of the MMC over SPI driver: the table driven `crc7` and the command header of
    `os/hal/src/mmc_spi.c`, against division by x^7 + x^3 + 1, bit by bit, as section 4.5 of the SD
    Physical Layer Simplified Specification defines it. */
module Crc7 {

  /** A `uint8_t`, by its bits. */
  datatype Byte = Byte(b7: bool, b6: bool, b5: bool, b4: bool, b3: bool, b2: bool, b1: bool, b0: bool)

  function Value(b: Byte): int {
    (if b.b7 then 128 else 0) + (if b.b6 then 64 else 0) + (if b.b5 then 32 else 0) + (if b.b4 then 16 else 0)
    + (if b.b3 then 8 else 0) + (if b.b2 then 4 else 0) + (if b.b1 then 2 else 0) + (if b.b0 then 1 else 0)
  }

  /** What is left of a value once the bit of weight `w` is taken out of it. */
  function Without(x: int, w: int): int { if x >= w then x - w else x }

  /** The byte of a given value, by trial subtraction. */
  function ByteOf(x: int): Byte {
    var x6 := Without(x, 128);
    var x5 := Without(x6, 64);
    var x4 := Without(x5, 32);
    var x3 := Without(x4, 16);
    var x2 := Without(x3, 8);
    var x1 := Without(x2, 4);
    Byte(x >= 128, x6 >= 64, x5 >= 32, x4 >= 16, x3 >= 8, x2 >= 4, x1 >= 2, Without(x1, 2) >= 1)
  }

  lemma ValueOfByteOf(x: int)
    requires 0 <= x < 256
    ensures Value(ByteOf(x)) == x
  {
  }

  /** The remainder: coefficients of x^6 down to x^0. */
  datatype Reg = Reg(x6: bool, x5: bool, x4: bool, x3: bool, x2: bool, x1: bool, x0: bool)

  const ZERO := Reg(false, false, false, false, false, false, false)

  /** x^3 + 1, the generator without its leading term. */
  const GENERATOR := Reg(false, false, false, true, false, false, true)

  function Sum(a: Reg, b: Reg): Reg {
    Reg(a.x6 != b.x6, a.x5 != b.x5, a.x4 != b.x4, a.x3 != b.x3, a.x2 != b.x2, a.x1 != b.x1, a.x0 != b.x0)
  }

  /** One bit of the message enters: multiply by x, and subtract the generator when the coefficient
      shifted out differs from the bit coming in. */
  function StepBit(r: Reg, bit: bool): Reg {
    var f := r.x6 != bit;
    Reg(r.x5, r.x4, r.x3, r.x2 != f, r.x1, r.x0, f)
  }

  /** The remainder of a bit string, most significant bit first. */
  function Serial(r: Reg, bits: seq<bool>): Reg
    decreases |bits|
  {
    if bits == [] then r else Serial(StepBit(r, bits[0]), bits[1..])
  }

  /** The seven bits of a register, which is how a CRC follows its message. */
  function CrcBits(c: Reg): seq<bool> { [c.x6, c.x5, c.x4] + [c.x3, c.x2, c.x1, c.x0] }

  function Low(b: Byte): Reg { Reg(b.b6, b.b5, b.b4, b.b3, b.b2, b.b1, b.b0) }

  function HighNibble(b: Byte): seq<bool> { [b.b7, b.b6, b.b5, b.b4] }

  function LowNibble(b: Byte): seq<bool> { [b.b3, b.b2, b.b1, b.b0] }

  /** A byte on the wire, most significant bit first. */
  function BitsOf(b: Byte): seq<bool> { HighNibble(b) + LowNibble(b) }

  function Bits(bytes: seq<Byte>): seq<bool>
    decreases |bytes|
  {
    if bytes == [] then [] else BitsOf(bytes[0]) + Bits(bytes[1..])
  }

  /** Seven and eight steps in a row. */
  function Step7(r: Reg, b: Reg): Reg {
    StepBit(StepBit(StepBit(StepBit(StepBit(StepBit(StepBit(r, b.x6), b.x5), b.x4), b.x3), b.x2), b.x1), b.x0)
  }

  function Step8(r: Reg, b: Byte): Reg { Step7(StepBit(r, b.b7), Low(b)) }

  /* ---------- the table ---------- */

  function Pick(l: int, a0: int, a1: int, a2: int, a3: int, a4: int, a5: int, a6: int, a7: int,
                a8: int, a9: int, a10: int, a11: int, a12: int, a13: int, a14: int, a15: int): int {
    if l == 0 then a0
    else if l == 1 then a1
    else if l == 2 then a2
    else if l == 3 then a3
    else if l == 4 then a4
    else if l == 5 then a5
    else if l == 6 then a6
    else if l == 7 then a7
    else if l == 8 then a8
    else if l == 9 then a9
    else if l == 10 then a10
    else if l == 11 then a11
    else if l == 12 then a12
    else if l == 13 then a13
    else if l == 14 then a14
    else a15
  }

  /** `crc7_lookup_table`, sixteen entries to a row. */
  function Lookup(index: int): int { Entry(index / 16, index % 16) }

  /** The entry in row `h` and column `l`. */
  function Entry(h: int, l: int): int {
    if h == 0 then Pick(l, 0x00, 0x09, 0x12, 0x1b, 0x24, 0x2d, 0x36, 0x3f, 0x48, 0x41, 0x5a, 0x53, 0x6c, 0x65, 0x7e, 0x77)
    else if h == 1 then Pick(l, 0x19, 0x10, 0x0b, 0x02, 0x3d, 0x34, 0x2f, 0x26, 0x51, 0x58, 0x43, 0x4a, 0x75, 0x7c, 0x67, 0x6e)
    else if h == 2 then Pick(l, 0x32, 0x3b, 0x20, 0x29, 0x16, 0x1f, 0x04, 0x0d, 0x7a, 0x73, 0x68, 0x61, 0x5e, 0x57, 0x4c, 0x45)
    else if h == 3 then Pick(l, 0x2b, 0x22, 0x39, 0x30, 0x0f, 0x06, 0x1d, 0x14, 0x63, 0x6a, 0x71, 0x78, 0x47, 0x4e, 0x55, 0x5c)
    else if h == 4 then Pick(l, 0x64, 0x6d, 0x76, 0x7f, 0x40, 0x49, 0x52, 0x5b, 0x2c, 0x25, 0x3e, 0x37, 0x08, 0x01, 0x1a, 0x13)
    else if h == 5 then Pick(l, 0x7d, 0x74, 0x6f, 0x66, 0x59, 0x50, 0x4b, 0x42, 0x35, 0x3c, 0x27, 0x2e, 0x11, 0x18, 0x03, 0x0a)
    else if h == 6 then Pick(l, 0x56, 0x5f, 0x44, 0x4d, 0x72, 0x7b, 0x60, 0x69, 0x1e, 0x17, 0x0c, 0x05, 0x3a, 0x33, 0x28, 0x21)
    else if h == 7 then Pick(l, 0x4f, 0x46, 0x5d, 0x54, 0x6b, 0x62, 0x79, 0x70, 0x07, 0x0e, 0x15, 0x1c, 0x23, 0x2a, 0x31, 0x38)
    else if h == 8 then Pick(l, 0x41, 0x48, 0x53, 0x5a, 0x65, 0x6c, 0x77, 0x7e, 0x09, 0x00, 0x1b, 0x12, 0x2d, 0x24, 0x3f, 0x36)
    else if h == 9 then Pick(l, 0x58, 0x51, 0x4a, 0x43, 0x7c, 0x75, 0x6e, 0x67, 0x10, 0x19, 0x02, 0x0b, 0x34, 0x3d, 0x26, 0x2f)
    else if h == 10 then Pick(l, 0x73, 0x7a, 0x61, 0x68, 0x57, 0x5e, 0x45, 0x4c, 0x3b, 0x32, 0x29, 0x20, 0x1f, 0x16, 0x0d, 0x04)
    else if h == 11 then Pick(l, 0x6a, 0x63, 0x78, 0x71, 0x4e, 0x47, 0x5c, 0x55, 0x22, 0x2b, 0x30, 0x39, 0x06, 0x0f, 0x14, 0x1d)
    else if h == 12 then Pick(l, 0x25, 0x2c, 0x37, 0x3e, 0x01, 0x08, 0x13, 0x1a, 0x6d, 0x64, 0x7f, 0x76, 0x49, 0x40, 0x5b, 0x52)
    else if h == 13 then Pick(l, 0x3c, 0x35, 0x2e, 0x27, 0x18, 0x11, 0x0a, 0x03, 0x74, 0x7d, 0x66, 0x6f, 0x50, 0x59, 0x42, 0x4b)
    else if h == 14 then Pick(l, 0x17, 0x1e, 0x05, 0x0c, 0x33, 0x3a, 0x21, 0x28, 0x5f, 0x56, 0x4d, 0x44, 0x7b, 0x72, 0x69, 0x60)
    else Pick(l, 0x0e, 0x07, 0x1c, 0x15, 0x2a, 0x23, 0x38, 0x31, 0x46, 0x4f, 0x54, 0x5d, 0x62, 0x6b, 0x70, 0x79)
  }

  /** The index expression of the code, in the wider arithmetic of C: nine bits. */
  function TableIndex(crc: Byte, b: Byte): int {
    (if crc.b7 then 256 else 0) + Value(Mixed(crc, b))
  }

  function Mixed(crc: Byte, b: Byte): Byte {
    Byte(crc.b6 != b.b7, crc.b5 != b.b6, crc.b4 != b.b5, crc.b3 != b.b4, crc.b2 != b.b3, crc.b1 != b.b2,
         crc.b0 != b.b1, b.b0)
  }

  /** The index stays inside the 256 entries exactly for seven bit registers. */
  lemma IndexInTableIff(crc: Byte, b: Byte)
    ensures 0 <= TableIndex(crc, b)
    ensures TableIndex(crc, b) < 256 <==> !crc.b7
  {
  }

  lemma ValueInjective(a: Byte, b: Byte)
    requires Value(a) == Value(b)
    ensures a == b
  {
    assert a.b7 == b.b7;
    assert a.b6 == b.b6;
    assert a.b5 == b.b5;
    assert a.b4 == b.b4;
    assert a.b3 == b.b3;
    assert a.b2 == b.b2;
  }

  lemma ByteOfValue(b: Byte)
    ensures 0 <= Value(b) < 256 && ByteOf(Value(b)) == b
  {
    ValueOfByteOf(Value(b));
    ValueInjective(ByteOf(Value(b)), b);
  }

  predicate Xor3(a: bool, b: bool, c: bool) { (a != b) != c }

  /** The remainder of eight bits in closed form: the sum of the remainders of x^14 down to x^7. */
  function Remainder8(b: Byte): Reg {
    Reg(Xor3(b.b3, b.b6, b.b7), Xor3(b.b2, b.b5, b.b6), Xor3(b.b1, b.b4, b.b5), Xor3(b.b0, b.b3, b.b4), b.b2 != b.b6,
        b.b1 != b.b5, Xor3(b.b0, b.b4, b.b7))
  }

  lemma Step8IsRemainder(r: Reg, b: Byte)
    ensures Step8(r, b) == Remainder8(Byte(r.x6 != b.b7, r.x5 != b.b6, r.x4 != b.b5, r.x3 != b.b4, r.x2 != b.b3,
                                           r.x1 != b.b2, r.x0 != b.b1, b.b0))
  {
  }

  function AsByte(r: Reg): Byte { Byte(false, r.x6, r.x5, r.x4, r.x3, r.x2, r.x1, r.x0) }

  /** A row of the table, or a column of it, from the four bits that number it. */
  function Nibble(a3: bool, a2: bool, a1: bool, a0: bool): int {
    (if a3 then 8 else 0) + (if a2 then 4 else 0) + (if a1 then 2 else 0) + (if a0 then 1 else 0)
  }

  lemma EntryIsRemainder(b7: bool, b6: bool, b5: bool, b4: bool, b3: bool, b2: bool, b1: bool, b0: bool)
    ensures Entry(Nibble(b7, b6, b5, b4), Nibble(b3, b2, b1, b0))
            == Value(AsByte(Remainder8(Byte(b7, b6, b5, b4, b3, b2, b1, b0))))
  {
  }

  /** Every one of the 256 table entries is the remainder of its index. */
  lemma TableIsDivision(b: Byte)
    ensures Lookup(Value(b)) == Value(AsByte(Remainder8(b)))
  {
    hide Entry, AsByte, Remainder8;
    var h, l := Nibble(b.b7, b.b6, b.b5, b.b4), Nibble(b.b3, b.b2, b.b1, b.b0);
    assert Value(b) == 16 * h + l && 0 <= l < 16;
    assert Value(b) / 16 == h && Value(b) % 16 == l;
    EntryIsRemainder(b.b7, b.b6, b.b5, b.b4, b.b3, b.b2, b.b1, b.b0);
  }

  lemma TableByte(b: Byte)
    ensures 0 <= Lookup(Value(b)) < 256
    ensures ByteOf(Lookup(Value(b))) == AsByte(Remainder8(b))
  {
    TableIsDivision(b);
    ByteOfValue(AsByte(Remainder8(b)));
  }

  /** One table look-up is eight steps of the division. */
  lemma LookupIsSerial(crc: Byte, b: Byte)
    requires !crc.b7
    ensures 0 <= Lookup(TableIndex(crc, b)) < 256
    ensures ByteOf(Lookup(TableIndex(crc, b))) == AsByte(Step8(Low(crc), b))
  {
    hide Lookup, ByteOf, Remainder8, Value, Step8;
    Step8IsRemainder(Low(crc), b);
    TableByte(Mixed(crc, b));
    assert TableIndex(crc, b) == Value(Mixed(crc, b));
  }

  /* ---------- the loop over a buffer ---------- */

  lemma {:induction false} SerialAppend(r: Reg, a: seq<bool>, b: seq<bool>)
    ensures Serial(r, a + b) == Serial(Serial(r, a), b)
    decreases |a|
  {
    if a == [] {
      assert a + b == b;
    } else {
      assert (a + b)[1..] == a[1..] + b;
      SerialAppend(StepBit(r, a[0]), a[1..], b);
    }
  }

  lemma SerialCons(r: Reg, bit: bool, rest: seq<bool>)
    ensures Serial(r, [bit] + rest) == Serial(StepBit(r, bit), rest)
  {
    assert ([bit] + rest)[1..] == rest;
  }

  lemma SerialOfThree(r: Reg, b2: bool, b1: bool, b0: bool, rest: seq<bool>)
    ensures Serial(r, [b2, b1, b0] + rest) == Serial(StepBit(StepBit(StepBit(r, b2), b1), b0), rest)
  {
    SerialCons(r, b2, [b1, b0] + rest);
    SerialCons(StepBit(r, b2), b1, [b0] + rest);
    SerialCons(StepBit(StepBit(r, b2), b1), b0, rest);
    assert [b2, b1, b0] + rest == [b2] + ([b1, b0] + rest);
    assert [b1, b0] + rest == [b1] + ([b0] + rest);
  }

  lemma SerialOfFour(r: Reg, b3: bool, b2: bool, b1: bool, b0: bool)
    ensures Serial(r, [b3, b2, b1, b0]) == StepBit(StepBit(StepBit(StepBit(r, b3), b2), b1), b0)
  {
    SerialOfThree(r, b3, b2, b1, [b0]);
    SerialOfOne(StepBit(StepBit(StepBit(r, b3), b2), b1), b0);
    assert [b3, b2, b1, b0] == [b3, b2, b1] + [b0];
  }

  lemma SerialOfOne(r: Reg, bit: bool)
    ensures Serial(r, [bit]) == StepBit(r, bit)
  {
    assert [bit] == [bit] + [];
    SerialCons(r, bit, []);
  }

  lemma SerialOfCrcBits(r: Reg, c: Reg)
    ensures Serial(r, CrcBits(c)) == Step7(r, c)
  {
    SerialOfThree(r, c.x6, c.x5, c.x4, [c.x3, c.x2, c.x1, c.x0]);
    SerialOfFour(StepBit(StepBit(StepBit(r, c.x6), c.x5), c.x4), c.x3, c.x2, c.x1, c.x0);
  }

  lemma FirstBit(b: Byte)
    ensures BitsOf(b) == [b.b7] + CrcBits(Low(b))
  {
    assert HighNibble(b) == [b.b7] + [b.b6, b.b5, b.b4];
    assert [b.b7] + [b.b6, b.b5, b.b4] + LowNibble(b) == [b.b7] + ([b.b6, b.b5, b.b4] + LowNibble(b));
  }

  lemma SerialOfByte(r: Reg, b: Byte)
    ensures Serial(r, BitsOf(b)) == Step8(r, b)
  {
    FirstBit(b);
    SerialCons(r, b.b7, CrcBits(Low(b)));
    SerialOfCrcBits(StepBit(r, b.b7), Low(b));
  }

  lemma {:induction false} BitsAppend(a: seq<Byte>, b: seq<Byte>)
    ensures Bits(a + b) == Bits(a) + Bits(b)
    decreases |a|
  {
    if a == [] {
      assert a + b == b;
    } else {
      assert (a + b)[1..] == a[1..] + b;
      BitsAppend(a[1..], b);
      assert BitsOf(a[0]) + (Bits(a[1..]) + Bits(b)) == BitsOf(a[0]) + Bits(a[1..]) + Bits(b);
    }
  }

  /** The CRC of two buffers one after the other continues the first with the second. */
  lemma CrcComposes(r: Reg, a: seq<Byte>, b: seq<Byte>)
    ensures Serial(r, Bits(a + b)) == Serial(Serial(r, Bits(a)), Bits(b))
  {
    BitsAppend(a, b);
    SerialAppend(r, Bits(a), Bits(b));
  }

  lemma CrcOneMore(r: Reg, a: seq<Byte>, b: Byte)
    ensures Serial(r, Bits(a + [b])) == Step8(Serial(r, Bits(a)), b)
  {
    CrcComposes(r, a, [b]);
    assert Bits([b]) == BitsOf(b);
    SerialOfByte(Serial(r, Bits(a)), b);
  }

  /** `crc7`: for every buffer the table driven loop is the division, bit by bit, and the table index
      never leaves the table. */
  method TableCrc(start: Byte, buffer: array<Byte>, len: nat) returns (crc: Byte)
    requires !start.b7 && len <= buffer.Length
    ensures crc == AsByte(Serial(Low(start), Bits(buffer[..len])))
  {
    hide Lookup, ByteOf, Step8;
    crc := start;
    var i := 0;
    while i < len
      invariant 0 <= i <= len && crc == AsByte(Serial(Low(start), Bits(buffer[..i])))
    {
      IndexInTableIff(crc, buffer[i]);
      LookupIsSerial(crc, buffer[i]);
      CrcOneMore(Low(start), buffer[..i], buffer[i]);
      assert buffer[..i + 1] == buffer[..i] + [buffer[i]];
      crc := ByteOf(Lookup(TableIndex(crc, buffer[i])));
      i := i + 1;
    }
  }

  /** A message followed by seven bits leaves remainder zero if and only if they are its CRC. */
  lemma RemainderZeroIffCrc(r: Reg, message: seq<bool>, c: Reg)
    ensures Serial(r, message + CrcBits(c)) == ZERO <==> c == Serial(r, message)
  {
    SerialAppend(r, message, CrcBits(c));
    SerialOfCrcBits(Serial(r, message), c);
    ZeroAfterSevenIff(Serial(r, message), c);
  }

  lemma ZeroAfterSevenIff(r: Reg, c: Reg)
    ensures Step7(r, c) == ZERO <==> c == r
  {
    Step7IsRemainder(r, c);
    RemainderIsZeroIff(AsByte(Sum(r, c)));
  }

  lemma Step7IsRemainder(r: Reg, c: Reg)
    ensures Step7(r, c) == Remainder8(AsByte(Sum(r, c)))
  {
  }

  /** Only zero and the generator itself, 0x89, have remainder zero. */
  lemma RemainderIsZeroIff(b: Byte)
    ensures Remainder8(b) == ZERO <==>
      b == AsByte(ZERO) || b == Byte(true, false, false, false, true, false, false, true)
  {
  }

  /* ---------- the command header ---------- */

  /** What a card checks of the six bytes of a command: start bit, transmission bit, remainder, end bit. */
  ghost predicate CardAccepts(frame: seq<Byte>)
    requires |frame| == 6
  {
    && !frame[0].b7 && frame[0].b6
    && Serial(ZERO, Bits(frame[..5]) + BitsOf(frame[5])[..7]) == ZERO
    && frame[5].b0
  }

  /** The command index and the argument, as the card reads them. */
  function CommandOf(frame: seq<Byte>): int
    requires |frame| == 6
  {
    Value(frame[0].(b7 := false, b6 := false))
  }

  function ArgumentOf(frame: seq<Byte>): int
    requires |frame| == 6
  {
    ((Value(frame[1]) * 256 + Value(frame[2])) * 256 + Value(frame[3])) * 256 + Value(frame[4])
  }

  /** `send_hdr`: the bytes handed to `spiSend`. The card accepts them exactly for a command below 128,
      and reads back the command index and the argument. */
  method SendHeader(cmd: Byte, arg: int) returns (buf: array<Byte>)
    requires 0 <= arg < 0x1_0000_0000
    ensures buf.Length == 6
    ensures CardAccepts(buf[..]) <==> !cmd.b7
    ensures CommandOf(buf[..]) == Value(cmd.(b7 := false, b6 := false)) && ArgumentOf(buf[..]) == arg
  {
    hide ByteOf, CardAccepts, ArgumentOf, Serial, Bits;
    buf := new Byte[6];
    buf[0] := cmd.(b6 := true);
    buf[1] := ByteOf(arg / 0x100_0000);
    buf[2] := ByteOf(arg / 0x1_0000 % 256);
    buf[3] := ByteOf(arg / 0x100 % 256);
    buf[4] := ByteOf(arg % 256);
    var crc := TableCrc(AsByte(ZERO), buf, 5);
    buf[5] := Byte(crc.b6, crc.b5, crc.b4, crc.b3, crc.b2, crc.b1, crc.b0, true);
    assert buf[..][..5] == buf[..5];
    FrameIsAccepted(buf[..], Low(crc));
    FrameCarries(buf[..], arg);
  }

  lemma FrameIsAccepted(frame: seq<Byte>, crc: Reg)
    requires |frame| == 6 && frame[0].b6 && crc == Serial(ZERO, Bits(frame[..5]))
    requires frame[5] == Byte(crc.x6, crc.x5, crc.x4, crc.x3, crc.x2, crc.x1, crc.x0, true)
    ensures CardAccepts(frame) <==> !frame[0].b7
  {
    UpperBits(frame[5]);
    RemainderZeroIffCrc(ZERO, Bits(frame[..5]), crc);
  }

  lemma UpperBits(b: Byte)
    ensures BitsOf(b)[..7] == CrcBits(Reg(b.b7, b.b6, b.b5, b.b4, b.b3, b.b2, b.b1))
  {
  }

  lemma FrameCarries(frame: seq<Byte>, arg: int)
    requires 0 <= arg < 0x1_0000_0000 && |frame| == 6
    requires frame[1] == ByteOf(arg / 0x100_0000) && frame[2] == ByteOf(arg / 0x1_0000 % 256)
    requires frame[3] == ByteOf(arg / 0x100 % 256) && frame[4] == ByteOf(arg % 256)
    ensures ArgumentOf(frame) == arg
  {
    ValueOfByteOf(arg / 0x100_0000);
    ValueOfByteOf(arg / 0x1_0000 % 256);
    ValueOfByteOf(arg / 0x100 % 256);
    ValueOfByteOf(arg % 256);
    FourBytes(arg);
  }

  lemma FourBytes(arg: int)
    requires 0 <= arg < 0x1_0000_0000
    ensures ((arg / 0x100_0000 * 256 + arg / 0x1_0000 % 256) * 256 + arg / 0x100 % 256) * 256 + arg % 256 == arg
  {
    assert arg / 0x1_0000 == arg / 0x100 / 256 && arg / 0x100_0000 == arg / 0x1_0000 / 256;
  }

  /* ---------- error detection ---------- */

  /** What follows an error never hides it. */
  lemma {:induction false} SuffixKeepsDifference(r1: Reg, r2: Reg, bits: seq<bool>)
    ensures Serial(r1, bits) == Serial(r2, bits) <==> r1 == r2
    decreases |bits|
  {
    if bits != [] {
      var bit := bits[0];
      assert StepBit(r1, bit) == StepBit(r2, bit) <==> r1 == r2;
      SuffixKeepsDifference(StepBit(r1, bit), StepBit(r2, bit), bits[1..]);
    }
  }

  /** Every single flipped bit of a message of any length changes the CRC. */
  lemma SingleFlipDetected(r: Reg, before: seq<bool>, after: seq<bool>)
    ensures Serial(r, before + [false] + after) != Serial(r, before + [true] + after)
  {
    var s := Serial(r, before);
    AfterBit(r, before, false, after);
    AfterBit(r, before, true, after);
    assert StepBit(s, false) != StepBit(s, true);
    SuffixKeepsDifference(StepBit(s, false), StepBit(s, true), after);
  }

  lemma AfterBit(r: Reg, before: seq<bool>, bit: bool, after: seq<bool>)
    ensures Serial(r, before + [bit] + after) == Serial(StepBit(Serial(r, before), bit), after)
  {
    SerialAppend(r, before + [bit], after);
    SerialAppend(r, before, [bit]);
    SerialCons(Serial(r, before), bit, []);
  }

  function Xor(a: seq<bool>, b: seq<bool>): seq<bool>
    requires |a| == |b|
  {
    seq(|a|, i requires 0 <= i < |a| => a[i] != b[i])
  }

  lemma StepLinear(r1: Reg, r2: Reg, bit1: bool, bit2: bool)
    ensures Sum(StepBit(r1, bit1), StepBit(r2, bit2)) == StepBit(Sum(r1, r2), bit1 != bit2)
  {
  }

  lemma XorTail(a: seq<bool>, b: seq<bool>)
    requires |a| == |b| > 0
    ensures Xor(a, b) == [a[0] != b[0]] + Xor(a[1..], b[1..])
  {
  }

  /** The division is linear. */
  lemma {:induction false} SerialLinear(r1: Reg, r2: Reg, a: seq<bool>, b: seq<bool>)
    requires |a| == |b|
    ensures Sum(Serial(r1, a), Serial(r2, b)) == Serial(Sum(r1, r2), Xor(a, b))
    decreases |a|
  {
    if a != [] {
      StepLinear(r1, r2, a[0], b[0]);
      XorTail(a, b);
      SerialCons(Sum(r1, r2), a[0] != b[0], Xor(a[1..], b[1..]));
      SerialLinear(StepBit(r1, a[0]), StepBit(r2, b[0]), a[1..], b[1..]);
    }
  }

  /** Bits that differ only inside seven neighbouring places always show: every error burst of up to
      seven bits changes the CRC. */
  lemma BurstDetected(r: Reg, before: seq<bool>, v: seq<bool>, w: seq<bool>, after: seq<bool>)
    requires |v| == |w| <= 7
    ensures Serial(r, before + v + after) == Serial(r, before + w + after) <==> v == w
  {
    SerialAppend(r, before + v, after);
    SerialAppend(r, before + w, after);
    SerialAppend(r, before, v);
    SerialAppend(r, before, w);
    var s := Serial(r, before);
    SuffixKeepsDifference(Serial(s, v), Serial(s, w), after);
    SerialLinear(s, s, v, w);
    SumIsZeroIff(s, s);
    SumIsZeroIff(Serial(s, v), Serial(s, w));
    ShortWordIsOwnRemainder(Xor(v, w));
    assert (forall k :: 0 <= k < |v| ==> !Xor(v, w)[k]) <==> v == w by { XorZeroIff(v, w); }
  }

  lemma XorZeroIff(v: seq<bool>, w: seq<bool>)
    requires |v| == |w|
    ensures (forall k :: 0 <= k < |v| ==> !Xor(v, w)[k]) <==> v == w
  {
    if forall k :: 0 <= k < |v| ==> !Xor(v, w)[k] {
      forall k | 0 <= k < |v|
        ensures v[k] == w[k]
      {
        assert !Xor(v, w)[k];
      }
    }
  }

  /** Up to seven bits have remainder zero only if they are all zero. */
  lemma ShortWordIsOwnRemainder(e: seq<bool>)
    requires |e| <= 7
    ensures Serial(ZERO, e) == ZERO <==> forall k :: 0 <= k < |e| ==> !e[k]
  {
    var n := 7 - |e|;
    var p := Zeros(n) + e;
    SerialAppend(ZERO, Zeros(n), e);
    ShiftOfZero(n);
    SevenBits(p);
    assert forall k :: 0 <= k < |e| ==> p[n + k] == e[k];
    assert forall k :: 0 <= k < 7 ==> p[k] == if k < n then false else e[k - n];
  }

  lemma SevenBits(p: seq<bool>)
    requires |p| == 7
    ensures Serial(ZERO, p) == ZERO <==> forall k :: 0 <= k < 7 ==> !p[k]
  {
    var c := Reg(p[0], p[1], p[2], p[3], p[4], p[5], p[6]);
    assert p == CrcBits(c);
    SerialOfCrcBits(ZERO, c);
    ZeroAfterSevenIff(ZERO, c);
  }

  /** A byte exchanged for another one goes unnoticed if and only if they differ by the generator
      polynomial itself: in the bits of 0x89. */
  lemma ByteExchangeUndetectedIff(r: Reg, before: seq<Byte>, x: Byte, y: Byte, after: seq<Byte>)
    ensures Serial(r, Bits(before + [x] + after)) == Serial(r, Bits(before + [y] + after))
            <==> x == y || x == y.(b7 := !y.b7, b3 := !y.b3, b0 := !y.b0)
  {
    AfterByte(r, before, x, after);
    AfterByte(r, before, y, after);
    var s := Serial(r, Bits(before));
    SuffixKeepsDifference(Serial(s, BitsOf(x)), Serial(s, BitsOf(y)), Bits(after));
    SumIsZeroIff(Serial(s, BitsOf(x)), Serial(s, BitsOf(y)));
    ByteDifference(s, x, y);
    DifferenceVanishesIff(x, y);
  }

  lemma AfterByte(r: Reg, before: seq<Byte>, b: Byte, after: seq<Byte>)
    ensures Serial(r, Bits(before + [b] + after)) == Serial(Serial(Serial(r, Bits(before)), BitsOf(b)), Bits(after))
  {
    CrcComposes(r, before + [b], after);
    CrcComposes(r, before, [b]);
    assert Bits([b]) == BitsOf(b);
  }

  function Difference(x: Byte, y: Byte): Byte {
    Byte(x.b7 != y.b7, x.b6 != y.b6, x.b5 != y.b5, x.b4 != y.b4, x.b3 != y.b3, x.b2 != y.b2, x.b1 != y.b1, x.b0 != y.b0)
  }

  lemma ByteDifference(r: Reg, x: Byte, y: Byte)
    ensures Sum(Serial(r, BitsOf(x)), Serial(r, BitsOf(y))) == Remainder8(Difference(x, y))
  {
    var d := Difference(x, y);
    SerialLinear(r, r, BitsOf(x), BitsOf(y));
    XorOfBytes(x, y);
    SumIsZeroIff(r, r);
    SerialOfByte(ZERO, d);
    Step8FromZero(d);
  }

  lemma DifferenceVanishesIff(x: Byte, y: Byte)
    ensures Remainder8(Difference(x, y)) == ZERO <==> x == y || x == y.(b7 := !y.b7, b3 := !y.b3, b0 := !y.b0)
  {
    RemainderIsZeroIff(Difference(x, y));
  }

  lemma XorOfBytes(x: Byte, y: Byte)
    ensures Xor(BitsOf(x), BitsOf(y)) == BitsOf(Difference(x, y))
  {
    XorAppend(HighNibble(x), HighNibble(y), LowNibble(x), LowNibble(y));
    XorOfHighNibbles(x, y);
    XorOfLowNibbles(x, y);
  }

  lemma XorOfHighNibbles(x: Byte, y: Byte)
    ensures Xor(HighNibble(x), HighNibble(y)) == HighNibble(Difference(x, y))
  {
    XorOfFour(x.b7, x.b6, x.b5, x.b4, y.b7, y.b6, y.b5, y.b4);
  }

  lemma XorOfLowNibbles(x: Byte, y: Byte)
    ensures Xor(LowNibble(x), LowNibble(y)) == LowNibble(Difference(x, y))
  {
    XorOfFour(x.b3, x.b2, x.b1, x.b0, y.b3, y.b2, y.b1, y.b0);
  }

  lemma XorOfFour(a: bool, b: bool, c: bool, d: bool, e: bool, f: bool, g: bool, h: bool)
    ensures Xor([a, b, c, d], [e, f, g, h]) == [a != e, b != f, c != g, d != h]
  {
  }

  lemma XorAppend(a: seq<bool>, b: seq<bool>, c: seq<bool>, d: seq<bool>)
    requires |a| == |b| && |c| == |d|
    ensures Xor(a + c, b + d) == Xor(a, b) + Xor(c, d)
  {
  }

  lemma Step8FromZero(b: Byte)
    ensures Step8(ZERO, b) == Remainder8(b)
  {
    Step8IsRemainder(ZERO, b);
  }

  lemma SumIsZeroIff(a: Reg, b: Reg)
    ensures Sum(a, b) == ZERO <==> a == b
  {
  }

  /* ---------- two flipped bits ---------- */

  function Zeros(n: nat): seq<bool> { seq(n, _ => false) }

  /** Multiplication by x^n modulo the generator. */
  function Shift(r: Reg, n: nat): Reg { Serial(r, Zeros(n)) }

  lemma ShiftAdd(r: Reg, j: nat, k: nat)
    ensures Shift(r, j + k) == Shift(Shift(r, j), k)
  {
    assert Zeros(j + k) == Zeros(j) + Zeros(k);
    SerialAppend(r, Zeros(j), Zeros(k));
  }

  lemma ShiftOne(r: Reg)
    ensures Shift(r, 1) == StepBit(r, false)
  {
    assert Zeros(1) == [false] + [];
    SerialCons(r, false, []);
  }

  /** x^(7 + 8 q) modulo the generator, for q up to 15. */
  function Power(q: nat): Reg {
    if q == 0 then Reg(false, false, false, true, false, false, true)
    else if q == 1 then Reg(false, false, false, true, false, true, true)
    else if q == 2 then Reg(false, true, false, true, true, true, true)
    else if q == 3 then Reg(false, false, false, false, false, true, true)
    else if q == 4 then Reg(false, true, true, false, true, true, false)
    else if q == 5 then Reg(false, true, true, true, false, true, false)
    else if q == 6 then Reg(true, true, false, true, false, true, true)
    else if q == 7 then Reg(false, false, false, true, false, true, false)
    else if q == 8 then Reg(false, true, true, true, true, false, true)
    else if q == 9 then Reg(false, false, true, false, true, false, true)
    else if q == 10 then Reg(true, true, false, true, false, false, false)
    else if q == 11 then Reg(false, true, true, true, true, false, false)
    else if q == 12 then Reg(false, false, false, false, true, true, true)
    else if q == 13 then Reg(true, true, true, true, true, true, false)
    else if q == 14 then Reg(true, true, false, false, false, true, false)
    else Reg(false, false, false, false, false, false, true)
  }

  lemma {:induction false} PowerIsShift(q: nat)
    requires q <= 15
    ensures Shift(GENERATOR, 8 * q) == Power(q)
  {
    if q > 0 {
      PowerIsShift(q - 1);
      ShiftAdd(GENERATOR, 8 * (q - 1), 8);
      ShiftEight(Power(q - 1));
      PowerStep(q - 1);
    }
  }

  lemma ShiftEight(r: Reg)
    ensures Shift(r, 8) == TimesX8(r)
  {
    var zero := AsByte(ZERO);
    assert Zeros(8) == BitsOf(zero);
    SerialOfByte(r, zero);
    Step8IsRemainder(r, zero);
  }

  function TimesX8(r: Reg): Reg { Remainder8(Byte(r.x6, r.x5, r.x4, r.x3, r.x2, r.x1, r.x0, false)) }

  lemma PowerStep(q: nat)
    requires q < 15
    ensures TimesX8(Power(q)) == Power(q + 1)
  {
    if q < 8 {
      EarlyPowerStep(q);
    } else {
      LatePowerStep(q);
    }
  }

  lemma EarlyPowerStep(q: nat)
    requires q < 8
    ensures TimesX8(Power(q)) == Power(q + 1)
  {
  }

  lemma LatePowerStep(q: nat)
    requires 8 <= q < 15
    ensures TimesX8(Power(q)) == Power(q + 1)
  {
  }

  /** x^(7 - m), from where m more places lead to x^7. */
  function Before(m: nat): Reg {
    if m == 0 then GENERATOR
    else Reg(m == 1, m == 2, m == 3, m == 4, m == 5, m == 6, m == 7)
  }

  lemma {:induction false} BeforeLeadsToGenerator(m: nat)
    requires m <= 7
    ensures Shift(Before(m), m) == GENERATOR
  {
    if m > 0 {
      ShiftAdd(Before(m), 1, m - 1);
      ShiftOne(Before(m));
      assert StepBit(Before(m), false) == Before(m - 1);
      BeforeLeadsToGenerator(m - 1);
    }
  }

  lemma PowerIsBeforeIff(q: nat, m: nat)
    requires q <= 15 && m <= 7
    ensures Power(q) == Before(m) <==> (q == 0 && m == 0) || (q == 15 && m == 7)
  {
  }

  /** x^7 comes back after 127 multiplications by x and not before: the generator is primitive. */
  lemma {:induction false} ShiftReturnsIff(d: nat)
    ensures Shift(GENERATOR, d) == GENERATOR <==> d % 127 == 0
    decreases d
  {
    if d < 127 {
      FirstReturn(d);
    } else {
      FirstReturn(127);
      ShiftAdd(GENERATOR, 127, d - 127);
      ShiftReturnsIff(d - 127);
    }
  }

  lemma FirstReturn(d: nat)
    requires d <= 127
    ensures Shift(GENERATOR, d) == GENERATOR <==> d == 0 || d == 127
  {
    hide Power, Before;
    var q, m := d / 8, d % 8;
    PowerIsShift(q);
    ShiftAdd(GENERATOR, 8 * q, m);
    BeforeLeadsToGenerator(m);
    SuffixKeepsDifference(Power(q), Before(m), Zeros(m));
    PowerIsBeforeIff(q, m);
  }

  /** Two flipped bits at distance `d` go unnoticed if and only if 127 divides `d`: a command frame,
      47 protected bits long, shows every pair. */
  lemma TwoFlipsUndetectedIff(r: Reg, a: seq<bool>, b: seq<bool>, i: nat, d: nat)
    requires |a| == |b| && d > 0 && i + d < |a|
    requires forall k :: 0 <= k < |a| ==> (a[k] != b[k] <==> k == i || k == i + d)
    ensures Serial(r, a) == Serial(r, b) <==> d % 127 == 0
  {
    var rest := |a| - i - d - 1;
    assert Xor(a, b) == Zeros(i) + [true] + Zeros(d - 1) + [true] + Zeros(rest);
    SerialLinear(r, r, a, b);
    assert Sum(r, r) == ZERO;
    assert Serial(r, a) == Serial(r, b) <==> Sum(Serial(r, a), Serial(r, b)) == ZERO;
    ErrorRemainder(i, d, rest);
    var v := Shift(GENERATOR, d);
    ShiftOfZero(rest);
    SuffixKeepsDifference(Sum(v, GENERATOR), ZERO, Zeros(rest));
    assert Sum(v, GENERATOR) == ZERO <==> v == GENERATOR;
    ShiftReturnsIff(d);
  }

  lemma {:induction false} ShiftOfZero(n: nat)
    ensures Shift(ZERO, n) == ZERO
    decreases n
  {
    if n > 0 {
      assert Zeros(n)[1..] == Zeros(n - 1);
      ShiftOfZero(n - 1);
    }
  }

  lemma ErrorRemainder(i: nat, d: nat, rest: nat)
    requires d > 0
    ensures Serial(ZERO, Zeros(i) + [true] + Zeros(d - 1) + [true] + Zeros(rest))
            == Shift(Sum(Shift(GENERATOR, d), GENERATOR), rest)
  {
    var e := Zeros(i) + [true] + Zeros(d - 1);
    AfterBit(ZERO, e, true, Zeros(rest));
    AfterBit(ZERO, Zeros(i), true, Zeros(d - 1));
    ShiftOfZero(i);
    assert StepBit(ZERO, true) == GENERATOR;
    var u := Shift(GENERATOR, d - 1);
    ShiftAdd(GENERATOR, d - 1, 1);
    ShiftOne(u);
    assert StepBit(u, true) == Sum(StepBit(u, false), GENERATOR);
  }
}
