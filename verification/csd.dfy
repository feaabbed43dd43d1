/** The card specific data register: `read_CxD` in `os/hal/src/mmc_spi.c` makes words of the sixteen
    bytes, `mmcsd_get_slice` and `mmcsdGetCapacity` in `os/hal/src/mmcsd.c` take fields out of them.

    The register is the big number that the bytes make, most significant first, as sections 5.3.2 and
    5.3.3 of the SD Physical Layer Simplified Specification number its bits. */
module Csd {
  import opened Arith

  /* ---------- the operators of C on 32 bit words ---------- */

  function Pow2(k: nat): (p: int)
    ensures p >= 1
  {
    PowerPositive(2, k);
    Power(2, k)
  }

  predicate IsWord(x: int) { 0 <= x < 0x1_0000_0000 }

  function Shr(x: nat, k: nat): nat
    requires k < 32
  {
    x / Pow2(k)
  }

  function Shl(x: nat, k: nat): nat
    requires k < 32
  {
    x * Pow2(k) % 0x1_0000_0000
  }

  function Or(a: nat, b: nat): nat
    decreases a + b
  {
    if a == 0 && b == 0 then 0 else 2 * Or(a / 2, b / 2) + (if a % 2 == 1 || b % 2 == 1 then 1 else 0)
  }

  function And(a: nat, b: nat): nat
    decreases a + b
  {
    if a == 0 && b == 0 then 0 else 2 * And(a / 2, b / 2) + (if a % 2 == 1 && b % 2 == 1 then 1 else 0)
  }

  lemma Pow2Step(k: nat)
    requires k > 0
    ensures Pow2(k) == 2 * Pow2(k - 1)
  {
  }

  lemma Pow2Word()
    ensures Pow2(32) == 0x1_0000_0000
  {
    assert Power(2, 8) == 256;
    PowerAdd(2, 8, 8);
    PowerAdd(2, 16, 16);
  }

  lemma Pow2Add(j: nat, k: nat)
    ensures Pow2(j + k) == Pow2(j) * Pow2(k)
  {
    PowerAdd(2, j, k);
  }

  /** Masking with ones at the bottom is a remainder. */
  lemma {:induction false} AndMask(a: nat, k: nat)
    ensures And(a, Pow2(k) - 1) == a % Pow2(k)
    decreases k
  {
    if k == 0 {
      AndZero(a);
    } else {
      var m := Pow2(k - 1);
      Pow2Step(k);
      AndMask(a / 2, k - 1);
      assert (2 * m - 1) / 2 == m - 1 && (2 * m - 1) % 2 == 1;
      HalfRemainder(a, m);
    }
  }

  lemma {:induction false} AndZero(a: nat)
    ensures And(a, 0) == 0
    decreases a
  {
    if a > 0 {
      AndZero(a / 2);
    }
  }

  lemma HalfRemainder(a: nat, m: int)
    requires m >= 1
    ensures a % (2 * m) == 2 * (a / 2 % m) + a % 2
  {
    var h := a / 2;
    var q, r := h / m, h % m;
    assert h == m * q + r && a == 2 * h + a % 2;
    assert a == (2 * m) * q + (2 * r + a % 2) by { assert 2 * (m * q) == (2 * m) * q; }
    UniqueRemainder(a, 2 * m, q, 2 * r + a % 2);
  }

  /** Joining a low part with a high part that starts above it is a sum. */
  lemma {:induction false} OrJoins(low: nat, high: nat, k: nat)
    requires low < Pow2(k)
    ensures Or(low, high * Pow2(k)) == low + high * Pow2(k)
    decreases k
  {
    if k == 0 {
      OrZero(high);
    } else {
      var m := Pow2(k - 1);
      Pow2Step(k);
      assert high * (2 * m) == 2 * (high * m);
      OrJoins(low / 2, high, k - 1);
      assert high * Pow2(k) == 2 * (high * m);
    }
  }

  lemma {:induction false} OrZero(b: nat)
    ensures Or(0, b) == b
    decreases b
  {
    if b > 0 {
      OrZero(b / 2);
    }
  }

  /* ---------- the register ---------- */

  /** The number made by words, the first one least significant. */
  function Register(words: seq<int>): int
    decreases |words|
  {
    if words == [] then 0 else words[0] + 0x1_0000_0000 * Register(words[1..])
  }

  /** The number made by bytes, the first one most significant. */
  function BigEndian(bytes: seq<int>): int
    decreases |bytes|
  {
    if bytes == [] then 0 else BigEndian(bytes[..|bytes| - 1]) * 256 + bytes[|bytes| - 1]
  }

  /** Bits `start` to `end` of a number. */
  function Field(r: int, end: nat, start: nat): int
    requires start <= end
  {
    r / Pow2(start) % Pow2(end - start + 1)
  }

  ghost predicate Words(data: seq<nat>) { forall k :: 0 <= k < |data| ==> IsWord(data[k]) }

  /* ---------- slices ---------- */

  /** `mmcsd_get_slice`. The bounds are those its check demands; the last bit of a word is left out,
      because the mask is then a shift by the whole width, which C does not define. */
  function GetSlice(data: seq<nat>, end: nat, start: nat): nat
    requires |data| == 4
    requires start <= end < 128 && end - start < 32 && end % 32 != 31
  {
    var endmask := Pow2(end % 32 + 1) - 1;
    if start / 32 < end / 32 then
      Or(Shr(data[start / 32], start % 32), Shl(And(data[end / 32], endmask), 32 - start % 32))
    else Shr(And(data[start / 32], endmask), start % 32)
  }

  lemma DivOfSum(w: nat, p: int, q: int, t: nat)
    requires p >= 1 && q >= 1
    ensures (w + (p * q) * t) / p == w / p + q * t
    ensures (w + (p * q) * t) % p == w % p
  {
    assert (p * q) * t == p * (q * t);
    assert p * (w / p + q * t) == p * (w / p) + p * (q * t);
    UniqueRemainder(w + (p * q) * t, p, w / p + q * t, w % p);
  }

  lemma ModOfSum(x: nat, p: int, y: nat, q: int)
    requires 0 <= x < p && q >= 1
    ensures p * q >= 1 && (x + p * y) % (p * q) == x + p * (y % q)
  {
    var c, d := y / q, y % q;
    Regroup(p, q, c, d);
    RestBelow(x, p, d, q);
    UniqueRemainder(x + p * y, p * q, c, x + p * d);
  }

  lemma Regroup(p: int, q: int, c: int, d: int)
    ensures p * (q * c + d) == (p * q) * c + p * d
  {
    assert p * (q * c) == (p * q) * c;
  }

  lemma RestBelow(x: nat, p: int, d: nat, q: int)
    requires x < p && d < q
    ensures 0 <= x + p * d < p * q
  {
    MulMonotone(p, 0, d);
    MulMonotone(p, d + 1, q);
  }

  lemma ModThenDiv(a: nat, p: int, q: int)
    requires p >= 1 && q >= 1
    ensures p * q >= 1 && a % (p * q) / p == a / p % q
  {
    var x, y := a % p, a / p;
    assert a == x + p * y;
    ModOfSum(x, p, y, q);
    var r := a % (p * q);
    assert r == p * (y % q) + x;
    UniqueRemainder(r, p, y % q, x);
  }

  lemma DivDiv(a: nat, p: int, q: int)
    requires p >= 1 && q >= 1
    ensures p * q >= 1 && a / (p * q) == a / p / q
  {
    var x, y := a % p, a / p;
    var c, d := y / q, y % q;
    assert a == x + p * y;
    Regroup(p, q, c, d);
    RestBelow(x, p, d, q);
    UniqueRemainder(a, p * q, c, x + p * d);
  }

  lemma {:induction false} RegisterNat(words: seq<nat>)
    ensures Register(words) >= 0
    decreases |words|
  {
    if words != [] {
      RegisterNat(words[1..]);
    }
  }

  /** Dropping whole words shifts the register. */
  lemma {:induction false} RegisterFrom(words: seq<nat>, i: nat, off: nat)
    requires i <= |words| && Words(words)
    ensures Register(words) >= 0 && Register(words[i..]) >= 0
    ensures Register(words) / Pow2(32 * i + off) == Register(words[i..]) / Pow2(off)
    decreases i
  {
    RegisterNat(words);
    RegisterNat(words[i..]);
    if i == 0 {
      assert words[0..] == words;
    } else {
      var t := Register(words[1..]);
      RegisterFrom(words[1..], i - 1, off);
      assert words[1..][i - 1..] == words[i..];
      Pow2Word();
      Pow2Add(32, 32 * (i - 1) + off);
      assert 32 + (32 * (i - 1) + off) == 32 * i + off;
      RegisterNat(words[1..]);
      UniqueRemainder(Register(words), 0x1_0000_0000, t, words[0]);
      DivDiv(Register(words), 0x1_0000_0000, Pow2(32 * (i - 1) + off));
    }
  }

  /** The low bits of a word are those of the register from there on. */
  lemma LowBits(words: seq<nat>, m: nat)
    requires words != [] && Words(words) && m <= 32
    ensures Register(words) >= 0 && Register(words) % Pow2(m) == words[0] % Pow2(m)
  {
    RegisterNat(words);
    RegisterNat(words[1..]);
    Pow2Word();
    Pow2Add(m, 32 - m);
    DivOfSum(words[0], Pow2(m), Pow2(32 - m), Register(words[1..]));
  }

  lemma OnePiece(words: seq<nat>, e: nat, off: nat)
    requires words != [] && Words(words) && off <= e < 31
    ensures Shr(And(words[0], Pow2(e + 1) - 1), off) == Field(Register(words), e, off)
  {
    AndMask(words[0], e + 1);
    LowBits(words, e + 1);
    Pow2Add(off, e - off + 1);
    ModThenDiv(Register(words), Pow2(off), Pow2(e - off + 1));
  }

  lemma TwoPieces(words: seq<nat>, e: nat, off: nat)
    requires |words| >= 2 && Words(words) && e < off < 32
    ensures Or(Shr(words[0], off), Shl(And(words[1], Pow2(e + 1) - 1), 32 - off)) == Field(Register(words), 32 + e, off)
  {
    hide Field, Or, And, Shl, Pow2;
    var x, high := words[0] / Pow2(off), words[1] % Pow2(e + 1);
    FieldOfTwo(words, e, off);
    AndMask(words[1], e + 1);
    ShlFits(high, e + 1, 32 - off);
    OrJoins(x, high, 32 - off);
  }

  lemma FieldOfTwo(words: seq<nat>, e: nat, off: nat)
    requires |words| >= 2 && Words(words) && e < off < 32
    ensures words[0] / Pow2(off) < Pow2(32 - off)
    ensures Field(Register(words), 32 + e, off)
            == words[0] / Pow2(off) + words[1] % Pow2(e + 1) * Pow2(32 - off)
  {
    hide Pow2, Register, Words;
    var rest, up, x := Register(words[1..]), Pow2(32 - off), words[0] / Pow2(off);
    var r, m := Register(words) / Pow2(off), Pow2(e + 1);
    ShiftedRegister(words, off);
    assert r == x + up * rest;
    assert Pow2(32 + e - off + 1) == up * m by {
      Pow2Add(32 - off, e + 1);
      assert 32 - off + (e + 1) == 32 + e - off + 1;
    }
    ModOfSum(x, up, rest, m);
    assert rest % m == words[1] % m by {
      assert Words(words[1..]) by { TailWords(words); }
      LowBits(words[1..], e + 1);
    }
    Commute(up, words[1] % m);
  }

  lemma TailWords(words: seq<nat>)
    requires Words(words) && words != []
    ensures Words(words[1..])
  {
  }

  lemma Commute(a: int, b: int)
    ensures a * b == b * a
  {
  }

  lemma ShiftedRegister(words: seq<nat>, off: nat)
    requires words != [] && Words(words) && off < 32
    ensures words[0] / Pow2(off) < Pow2(32 - off) && Register(words[1..]) >= 0
    ensures Register(words) / Pow2(off) == words[0] / Pow2(off) + Pow2(32 - off) * Register(words[1..])
  {
    hide Pow2;
    Pow2Word();
    Pow2Add(off, 32 - off);
    QuotientBound(words[0], Pow2(off), Pow2(32 - off));
    RegisterNat(words[1..]);
    DivOfSum(words[0], Pow2(off), Pow2(32 - off), Register(words[1..]));
  }

  lemma QuotientBound(w: nat, p: int, q: int)
    requires p >= 1 && w < p * q
    ensures w / p < q
  {
    MulMonotone(p, q, w / p);
  }

  lemma ShlFits(x: nat, m: nat, k: nat)
    requires x < Pow2(m) && m + k <= 32 && k < 32
    ensures Shl(x, k) == x * Pow2(k)
  {
    hide Pow2;
    Pow2Word();
    Pow2Add(m, k);
    Pow2Monotone(m + k, 32);
    MulMonotone(Pow2(k), x + 1, Pow2(m));
    assert Pow2(k) * (x + 1) == x * Pow2(k) + Pow2(k);
  }

  lemma Pow2Monotone(j: nat, k: nat)
    requires j <= k
    ensures Pow2(j) <= Pow2(k)
  {
    Pow2Add(j, k - j);
    MulMonotone(Pow2(j), 1, Pow2(k - j));
  }

  /** A slice is the field of the register between its two bits, for every register and every field the
      check admits that does not end with a word. */
  lemma SliceIsField(data: seq<nat>, end: nat, start: nat)
    requires |data| == 4 && Words(data)
    requires start <= end < 128 && end - start < 32 && end % 32 != 31
    ensures GetSlice(data, end, start) == Field(Register(data), end, start)
  {
    hide Pow2, Register, Or, And, Shl, Shr;
    var i, off, e := start / 32, start % 32, end % 32;
    RegisterFrom(data, i, off);
    assert 32 * i + off == start;
    if i < end / 32 {
      assert end - start == 32 + e - off;
      TwoPieces(data[i..], e, off);
    } else {
      assert end - start == e - off;
      OnePiece(data[i..], e, off);
    }
  }

  /* ---------- words out of bytes ---------- */

  ghost predicate Bytes(s: seq<nat>) { forall k :: 0 <= k < |s| ==> s[k] < 256 }

  lemma {:induction false} OrCommutes(a: nat, b: nat)
    ensures Or(a, b) == Or(b, a)
    decreases a + b
  {
    if a > 0 || b > 0 {
      OrCommutes(a / 2, b / 2);
    }
  }

  /** The word of four bytes, by shifts. */
  function WordOf(b0: nat, b1: nat, b2: nat, b3: nat): nat {
    Or(Or(Or(Shl(b0, 24), Shl(b1, 16)), Shl(b2, 8)), b3)
  }

  lemma JoinBelow(high: nat, low: nat, k: nat)
    requires low < Pow2(k)
    ensures Or(high * Pow2(k), low) == high * Pow2(k) + low
  {
    OrJoins(low, high, k);
    OrCommutes(low, high * Pow2(k));
  }

  lemma BytePowers()
    ensures Pow2(8) == 0x100 && Pow2(16) == 0x1_0000 && Pow2(24) == 0x100_0000
  {
    assert Power(2, 8) == 256;
    PowerAdd(2, 8, 8);
    PowerAdd(2, 8, 16);
  }

  lemma ShiftedBytes(b0: nat, b1: nat, b2: nat)
    requires b0 < 256 && b1 < 256 && b2 < 256
    ensures Shl(b0, 24) == b0 * 0x100_0000 && Shl(b1, 16) == b1 * 0x1_0000 && Shl(b2, 8) == b2 * 0x100
  {
    hide Pow2;
    BytePowers();
  }

  lemma WordIsBigEndian(b0: nat, b1: nat, b2: nat, b3: nat)
    requires b0 < 256 && b1 < 256 && b2 < 256 && b3 < 256
    ensures WordOf(b0, b1, b2, b3) == ((b0 * 256 + b1) * 256 + b2) * 256 + b3
  {
    hide Or, Pow2, Shl;
    ShiftedBytes(b0, b1, b2);
    BytePowers();
    JoinBelow(b0, b1 * 0x1_0000, 24);
    JoinBelow(b0 * 256 + b1, b2 * 256, 16);
    JoinBelow((b0 * 256 + b1) * 256 + b2, b3, 8);
  }

  lemma {:induction false} BigEndianFour(s: seq<nat>, b0: nat, b1: nat, b2: nat, b3: nat)
    ensures BigEndian(s + [b0, b1, b2, b3])
            == 0x1_0000_0000 * BigEndian(s) + (((b0 * 256 + b1) * 256 + b2) * 256 + b3)
  {
    BigEndianSnoc(s, b0);
    BigEndianSnoc(s + [b0], b1);
    BigEndianSnoc(s + [b0] + [b1], b2);
    BigEndianSnoc(s + [b0] + [b1] + [b2], b3);
    assert s + [b0] + [b1] + [b2] + [b3] == s + [b0, b1, b2, b3];
  }

  lemma BigEndianSnoc(s: seq<nat>, b: nat)
    ensures BigEndian(s + [b]) == BigEndian(s) * 256 + b
  {
    assert (s + [b])[..|s|] == s;
  }

  lemma RegisterCons(w: nat, words: seq<nat>)
    ensures Register([w] + words) == w + 0x1_0000_0000 * Register(words)
  {
    assert ([w] + words)[1..] == words;
  }

  /** The words that `read_CxD` makes of the sixteen bytes of the data packet: the last word first. As
      one register they are the big number that the bytes are. */
  method ReadWords(buf: seq<nat>) returns (cxd: array<nat>)
    requires |buf| == 16 && Bytes(buf)
    ensures cxd.Length == 4 && Words(cxd[..])
    ensures Register(cxd[..]) == BigEndian(buf)
  {
    assert Register([]) == 0 && BigEndian([]) == 0;
    hide WordOf, BigEndian, Register;
    cxd := new nat[4];
    var wp, bp := 4, 0;
    assert cxd[4..] == [] && buf[..0] == [];
    while wp > 0
      invariant 0 <= wp <= 4 && bp == 16 - 4 * wp
      invariant Words(cxd[wp..]) && Register(cxd[wp..]) == BigEndian(buf[..bp])
    {
      wp := wp - 1;
      ghost var above := cxd[wp + 1..];
      WordIsBigEndian(buf[bp], buf[bp + 1], buf[bp + 2], buf[bp + 3]);
      BigEndianFour(buf[..bp], buf[bp], buf[bp + 1], buf[bp + 2], buf[bp + 3]);
      assert buf[..bp + 4] == buf[..bp] + [buf[bp], buf[bp + 1], buf[bp + 2], buf[bp + 3]];
      cxd[wp] := WordOf(buf[bp], buf[bp + 1], buf[bp + 2], buf[bp + 3]);
      bp := bp + 4;
      assert cxd[wp..] == [cxd[wp]] + above;
      RegisterCons(cxd[wp], above);
    }
    assert cxd[0..] == cxd[..] && buf[..16] == buf;
  }

  /* ---------- capacity ---------- */

  function CSize10(r: int): int { Field(r, 73, 62) }

  function CSizeMult(r: int): int { Field(r, 49, 47) }

  function ReadBlLen(r: int): int { Field(r, 83, 80) }

  function CSize20(r: int): int { Field(r, 69, 48) }

  function Structure(r: int): int { Field(r, 127, 126) }

  lemma FieldBound(r: int, end: nat, start: nat)
    requires r >= 0 && start <= end
    ensures 0 <= Field(r, end, start) < Pow2(end - start + 1)
  {
  }

  lemma SmallPowers()
    ensures Pow2(2) == 4 && Pow2(3) == 8 && Pow2(4) == 16 && Pow2(12) == 4096 && Pow2(22) == 0x40_0000
  {
    assert Power(2, 4) == 16;
    PowerAdd(2, 4, 8);
    PowerAdd(2, 8, 2);
    PowerAdd(2, 12, 10);
    BytePowers();
  }

  /** The three fields of a version 1.0 register, as the slices give them. */
  lemma Slices10(csd: seq<nat>)
    requires |csd| == 4 && Words(csd)
    ensures var r := Register(csd);
            GetSlice(csd, 73, 62) == CSize10(r) && GetSlice(csd, 49, 47) == CSizeMult(r)
            && GetSlice(csd, 83, 80) == ReadBlLen(r)
            && 0 <= CSize10(r) < 4096 && 0 <= CSizeMult(r) < 8 && 0 <= ReadBlLen(r) < 16
  {
    hide GetSlice, Field, Pow2, Register;
    RegisterNat(csd);
    SmallPowers();
    SliceIsField(csd, 73, 62);
    SliceIsField(csd, 49, 47);
    SliceIsField(csd, 83, 80);
    FieldBound(Register(csd), 73, 62);
    FieldBound(Register(csd), 49, 47);
    FieldBound(Register(csd), 83, 80);
  }

  lemma StructureIsTop(csd: seq<nat>)
    requires |csd| == 4 && Words(csd)
    ensures Shr(csd[3], 30) == Structure(Register(csd))
  {
    hide Pow2;
    RegisterFrom(csd, 3, 30);
    RegisterNat(csd);
    assert csd[3..] == [csd[3]] && csd[3..][1..] == [];
    SmallPowers();
    Pow2Word();
    Pow2Add(30, 2);
    QuotientBound(csd[3], Pow2(30), 4);
  }

  /** `mmcsdGetCapacity`, in blocks of 512 bytes. A block length below 512 would be a shift by a negative
      count, which C does not define. */
  function GetCapacity(csd: seq<nat>): nat
    requires |csd| == 4 && Words(csd)
    requires Structure(Register(csd)) == 0 ==> ReadBlLen(Register(csd)) >= 9
  {
    StructureIsTop(csd);
    Slices10(csd);
    if Shr(csd[3], 30) == 0 then
      var a := GetSlice(csd, 73, 62);
      var b := GetSlice(csd, 49, 47);
      var c := GetSlice(csd, 83, 80);
      Shl(Shl(a + 1, b + 2), c - 9)
    else if Shr(csd[3], 30) == 1 then 1024 * (GetSlice(csd, 69, 48) + 1) % 0x1_0000_0000
    else 0
  }

  /** Version 1.0: the blocks are the card's bytes, (C_SIZE + 1) 2^(C_SIZE_MULT + 2) 2^READ_BL_LEN,
      divided by 512, for every block length from 512 on. */
  lemma CapacityVersion1(csd: seq<nat>)
    requires |csd| == 4 && Words(csd)
    requires Structure(Register(csd)) == 0 && ReadBlLen(Register(csd)) >= 9
    ensures var r := Register(csd);
            GetCapacity(csd) * 512 == (CSize10(r) + 1) * Pow2(CSizeMult(r) + 2) * Pow2(ReadBlLen(r))
  {
    hide GetSlice, CSize10, CSizeMult, ReadBlLen, Pow2, Structure, Register;
    StructureIsTop(csd);
    Slices10(csd);
    var r := Register(csd);
    var a, b, c: nat := CSize10(r), CSizeMult(r), ReadBlLen(r);
    SmallPowers();
    ShiftsMultiply(a + 1, b + 2, c - 9);
    Pow2Add(c - 9, 9);
    assert Pow2(9) == 512 by { Pow2Add(8, 1); BytePowers(); assert Pow2(1) == 2 by { Pow2One(); } }
    assert (a + 1) * Pow2(b + 2) * Pow2(c - 9) * 512 == (a + 1) * Pow2(b + 2) * (Pow2(c - 9) * 512);
  }

  lemma Pow2One()
    ensures Pow2(1) == 2
  {
    assert Power(2, 1) == 2 * Power(2, 0);
  }

  /** Nothing is shifted out. */
  lemma ShiftsMultiply(x: nat, j: nat, k: nat)
    requires x <= 4096 && j <= 9 && k <= 6
    ensures Shl(Shl(x, j), k) == x * Pow2(j) * Pow2(k)
  {
    hide Pow2;
    SmallPowers();
    Pow2Monotone(12, 13);
    assert Pow2(13) == 8192 by { Pow2Add(12, 1); Pow2One(); }
    ShlFits(x, 13, j);
    Pow2Add(13, j);
    MulMonotone(Pow2(j), x + 1, Pow2(13));
    assert Pow2(j) * (x + 1) == x * Pow2(j) + Pow2(j);
    ShlFits(x * Pow2(j), 13 + j, k);
  }

  /** Version 2.0: the blocks are (C_SIZE + 1) times 512 KiB exactly unless C_SIZE is all ones; that card
      is reported with the value of a format error. */
  lemma CapacityVersion2Iff(csd: seq<nat>)
    requires |csd| == 4 && Words(csd) && Structure(Register(csd)) == 1
    ensures var r := Register(csd);
            && (GetCapacity(csd) * 512 == (CSize20(r) + 1) * 512 * 1024 <==> CSize20(r) != 0x3F_FFFF)
            && (GetCapacity(csd) == 0 <==> CSize20(r) == 0x3F_FFFF)
  {
    hide GetSlice, Field, Pow2, Register;
    StructureIsTop(csd);
    SliceIsField(csd, 69, 48);
    RegisterNat(csd);
    FieldBound(Register(csd), 69, 48);
    SmallPowers();
  }

  lemma CapacityReserved(csd: seq<nat>)
    requires |csd| == 4 && Words(csd) && Structure(Register(csd)) >= 2
    ensures GetCapacity(csd) == 0
  {
    StructureIsTop(csd);
  }

  /** From the bytes on the wire to the number of blocks. */
  method CapacityOfCard(buf: seq<nat>) returns (blocks: nat)
    requires |buf| == 16 && Bytes(buf)
    requires Structure(BigEndian(buf)) == 0 ==> ReadBlLen(BigEndian(buf)) >= 9
    ensures var r := BigEndian(buf);
            && (Structure(r) == 0 ==>
                  blocks * 512 == (CSize10(r) + 1) * Pow2(CSizeMult(r) + 2) * Pow2(ReadBlLen(r)))
            && (Structure(r) == 1 && CSize20(r) < 0x3F_FFFF ==> blocks * 512 == (CSize20(r) + 1) * 512 * 1024)
            && (Structure(r) == 1 && CSize20(r) == 0x3F_FFFF ==> blocks == 0)
            && (Structure(r) >= 2 ==> blocks == 0)
  {
    hide GetCapacity, Field, Pow2, Register, BigEndian, CSize10, CSize20, CSizeMult, ReadBlLen;
    var cxd := ReadWords(buf);
    var csd := cxd[..];
    blocks := GetCapacity(csd);
    SmallPowers();
    RegisterNat(csd);
    CSize20Bound(csd);
    if Structure(Register(csd)) == 0 {
      CapacityVersion1(csd);
    } else if Structure(Register(csd)) == 1 {
      CapacityVersion2Iff(csd);
    } else if Structure(Register(csd)) >= 2 {
      CapacityReserved(csd);
    }
  }

  lemma CSize20Bound(csd: seq<nat>)
    requires |csd| == 4
    ensures 0 <= CSize20(Register(csd)) < 0x40_0000
  {
    hide Pow2, Field;
    RegisterNat(csd);
    FieldBound(Register(csd), 69, 48);
    SmallPowers();
  }
}
