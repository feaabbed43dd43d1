/** Number conversion of the small printf: `long_to_string_with_divisor`, `ltoa` and `ftoa` in
    `os/various/chprintf.c`.

    A `long` has 32 bits. The mixed operands of `l % radix` and `l /= radix` are unsigned, so a number
    counts as its residue modulo 2^32. */
module ChDigits {
  import opened Arith

  const MAX_FILLER: int := 11
  const FLOAT_PRECISION: int := 100000

  predicate IsLong(x: int) { -0x8000_0000 <= x < 0x8000_0000 }

  /** The scratch space is enough from octal on. */
  predicate IsRadix(radix: int) { 8 <= radix <= 16 }

  function Unsigned(x: int): (u: int)
    requires IsLong(x)
    ensures 0 <= u < 0x1_0000_0000
  {
    if x < 0 then x + 0x1_0000_0000 else x
  }

  /* ---------- numerals ---------- */

  function DigitChar(d: int): char
    requires 0 <= d < 16
  {
    if d <= 9 then (d + '0' as int) as char else (d - 10 + 'A' as int) as char
  }

  function DigitOf(c: char): int {
    if '0' <= c <= '9' then c as int - '0' as int else c as int - 'A' as int + 10
  }

  /** The number a numeral denotes. */
  function Value(s: string, radix: int): int
    decreases |s|
  {
    if s == [] then 0 else Value(s[..|s| - 1], radix) * radix + DigitOf(s[|s| - 1])
  }

  /** The `k` low digits of `u`. */
  function Digits(u: nat, radix: int, k: nat): (s: string)
    requires IsRadix(radix)
    ensures |s| == k
    decreases k
  {
    if k == 0 then [] else Digits(u / radix, radix, k - 1) + [DigitChar(u % radix)]
  }

  /** The number of digits it takes to write `u`; zero takes one. */
  function Length(u: nat, radix: int): (k: nat)
    requires IsRadix(radix)
    ensures k >= 1
    decreases u
  {
    if u < radix then 1 else 1 + Length(u / radix, radix)
  }

  lemma DivMod(u: nat, radix: int)
    requires IsRadix(radix)
    ensures u == radix * (u / radix) + u % radix && 0 <= u % radix < radix
    ensures 0 <= u / radix <= u && (u < radix <==> u / radix == 0)
  {
  }

  /** What is left of `u` after `m` divisions. */
  function Shifted(u: nat, radix: int, m: nat): nat
    requires IsRadix(radix)
    decreases m
  {
    if m == 0 then u else Shifted(u / radix, radix, m - 1)
  }

  /** The number that the `k` low digits of `u` make. */
  function Low(u: nat, radix: int, k: nat): nat
    requires IsRadix(radix)
    decreases k
  {
    if k == 0 then 0 else Low(u / radix, radix, k - 1) * radix + u % radix
  }

  lemma {:induction false} LowAndRest(u: nat, radix: int, k: nat)
    requires IsRadix(radix)
    ensures u == Power(radix, k) * Shifted(u, radix, k) + Low(u, radix, k)
    ensures 0 <= Low(u, radix, k) < Power(radix, k)
    decreases k
  {
    if k > 0 {
      DivMod(u, radix);
      var v := u / radix;
      LowAndRest(v, radix, k - 1);
      StepUp(u, Power(radix, k), v, Power(radix, k - 1), Shifted(v, radix, k - 1), Low(v, radix, k - 1), radix,
             u % radix);
    }
  }

  lemma {:induction false} ValueIsLow(u: nat, radix: int, k: nat)
    requires IsRadix(radix)
    ensures Value(Digits(u, radix, k), radix) == Low(u, radix, k)
    decreases k
  {
    if k > 0 {
      hide DigitChar, DigitOf, Value;
      DivMod(u, radix);
      ValueIsLow(u / radix, radix, k - 1);
      ValueSnoc(Digits(u / radix, radix, k - 1), DigitChar(u % radix), radix);
      DigitRoundTrip(u % radix);
    }
  }

  lemma ValueSnoc(s: string, c: char, radix: int)
    ensures Value(s + [c], radix) == Value(s, radix) * radix + DigitOf(c)
  {
    assert (s + [c])[..|s|] == s;
  }

  lemma DigitRoundTrip(d: int)
    requires 0 <= d < 16
    ensures DigitOf(DigitChar(d)) == d
  {
  }

  lemma ValueAndRest(u: nat, radix: int, k: nat)
    requires IsRadix(radix)
    ensures u == Power(radix, k) * Shifted(u, radix, k) + Value(Digits(u, radix, k), radix)
    ensures 0 <= Value(Digits(u, radix, k), radix) < Power(radix, k)
  {
    LowAndRest(u, radix, k);
    ValueIsLow(u, radix, k);
  }

  lemma StepUp(u: int, up: int, v: int, p: int, rest: int, low: int, radix: int, d: int)
    requires v == p * rest + low && 0 <= low < p && 0 <= d < radix
    requires u == radix * v + d && up == radix * p
    ensures u == up * rest + (low * radix + d)
    ensures 0 <= low * radix + d < up
  {
    assert radix * (p * rest + low) == (radix * p) * rest + low * radix;
    MulMonotone(radix, low, p - 1);
    MulMonotone(radix, 0, low);
    assert radix * (p - 1) == radix * p - radix;
  }

  /** `k` digits denote the number modulo the k-th power of the radix. */
  lemma ValueOfDigits(u: nat, radix: int, k: nat)
    requires IsRadix(radix)
    ensures Power(radix, k) >= 1
    ensures Value(Digits(u, radix, k), radix) == u % Power(radix, k)
  {
    ValueAndRest(u, radix, k);
    UniqueRemainder(u, Power(radix, k), Shifted(u, radix, k), Value(Digits(u, radix, k), radix));
  }

  lemma {:induction false} LengthEmpties(u: nat, radix: int)
    requires IsRadix(radix)
    ensures Shifted(u, radix, Length(u, radix)) == 0
    decreases u
  {
    DivMod(u, radix);
    if u >= radix {
      LengthEmpties(u / radix, radix);
    } else {
      assert Shifted(u, radix, 1) == Shifted(u / radix, radix, 0);
    }
  }

  lemma LengthSuffices(u: nat, radix: int)
    requires IsRadix(radix)
    ensures u < Power(radix, Length(u, radix))
  {
    ValueAndRest(u, radix, Length(u, radix));
    LengthEmpties(u, radix);
    assert Power(radix, Length(u, radix)) * 0 == 0;
  }

  /** The shortest numeral. */
  function Numeral(u: nat, radix: int): string
    requires IsRadix(radix)
  {
    Digits(u, radix, Length(u, radix))
  }

  /** A numeral denotes its number, for every number and radix. */
  lemma NumeralRoundTrip(u: nat, radix: int)
    requires IsRadix(radix)
    ensures Value(Numeral(u, radix), radix) == u
  {
    ValueAndRest(u, radix, Length(u, radix));
    LengthEmpties(u, radix);
    assert Power(radix, Length(u, radix)) * 0 == 0;
  }

  /** The first digit is zero only for zero. */
  lemma {:induction false} NoLeadingZero(u: nat, radix: int)
    requires IsRadix(radix)
    ensures Numeral(u, radix)[0] == '0' <==> u == 0
    decreases u
  {
    DivMod(u, radix);
    if u >= radix {
      NoLeadingZero(u / radix, radix);
      assert Numeral(u, radix)[0] == Numeral(u / radix, radix)[0];
    }
  }

  /** Thirty-two bits take at most eleven digits: octal, exactly the scratch space. */
  lemma LengthFits(u: nat, radix: int)
    requires IsRadix(radix) && u < 0x1_0000_0000
    ensures Length(u, radix) <= 11 && (radix == 10 ==> Length(u, radix) <= 10)
  {
    assert Power(8, 11) > 0x1_0000_0000 by { assert Power(8, 5) == 32768; PowerSquare(8, 5); }
    PowerBase(8, radix, 11);
    LengthBound(u, radix, 11);
    if radix == 10 {
      assert Power(10, 10) == 10_000_000_000 by { assert Power(10, 5) == 100000; PowerSquare(10, 5); }
      LengthBound(u, 10, 10);
    }
  }

  lemma {:induction false} PowerBase(a: int, b: int, k: nat)
    requires 1 <= a <= b
    ensures 1 <= Power(a, k) <= Power(b, k)
    decreases k
  {
    if k > 0 {
      PowerBase(a, b, k - 1);
      MulMonotone(a, Power(a, k - 1), Power(b, k - 1));
      MulMonotone(Power(b, k - 1), a, b);
    }
  }

  lemma PowerSquare(b: int, k: nat)
    ensures Power(b, 2 * k) == Power(b, k) * Power(b, k)
  {
    PowerAdd(b, k, k);
  }

  lemma {:induction false} LengthBound(u: nat, radix: int, k: nat)
    requires IsRadix(radix) && k >= 1 && u < Power(radix, k)
    ensures Length(u, radix) <= k
    decreases k
  {
    assert Power(radix, k) == radix * Power(radix, k - 1);
    assert Power(radix, 0) == 1;
    if u >= radix {
      MulMonotone(radix, Power(radix, k - 1), u / radix);
      LengthBound(u / radix, radix, k - 1);
    }
  }

  /* ---------- the conversion in place ---------- */

  lemma {:induction false} DigitsFront(u: nat, radix: int, m: nat)
    requires IsRadix(radix)
    ensures Digits(u, radix, m + 1) == [DigitChar(Shifted(u, radix, m) % radix)] + Digits(u, radix, m)
    ensures Shifted(u, radix, m + 1) == Shifted(u, radix, m) / radix
    decreases m
  {
    if m > 0 {
      hide DigitChar;
      DigitsFront(u / radix, radix, m - 1);
    }
  }

  /** `long_to_string_with_divisor`: the digits are produced from the last one down, at the end of eleven
      characters of `buf`, and then moved to their start. With a divisor there are as many as it has,
      otherwise as many as the number has. */
  method LongToString(buf: array<char>, p: nat, num: int, radix: int, divisor: int) returns (next: nat)
    requires IsRadix(radix) && IsLong(num) && 0 <= divisor && IsLong(divisor)
    requires p + MAX_FILLER <= buf.Length
    modifies buf
    ensures var k := Length(Unsigned(if divisor == 0 then num else divisor), radix);
            k <= MAX_FILLER && next == p + k && buf[p..next] == Digits(Unsigned(num), radix, k)
    ensures buf[..p] == old(buf[..p]) && buf[p + MAX_FILLER..] == old(buf[p + MAX_FILLER..])
  {
    var q := WriteDigits(buf, p, Unsigned(num), radix, Unsigned(if divisor == 0 then num else divisor));
    next := MoveDown(buf, p, q, p + MAX_FILLER);
  }

  method WriteDigits(buf: array<char>, p: nat, num: nat, radix: int, divisor: nat) returns (q: nat)
    requires IsRadix(radix) && divisor < 0x1_0000_0000
    requires p + MAX_FILLER <= buf.Length
    modifies buf
    ensures p <= q < p + MAX_FILLER && p + MAX_FILLER - q == Length(divisor, radix)
    ensures buf[q..p + MAX_FILLER] == Digits(num, radix, p + MAX_FILLER - q)
    ensures forall k :: 0 <= k < p || p + MAX_FILLER <= k < buf.Length ==> buf[k] == old(buf[k])
  {
    var l: nat, ll: nat := num, divisor;
    LengthFits(divisor, radix);
    var end := p + MAX_FILLER;
    q := end;
    ghost var m: nat := 0;
    while true
      invariant p <= q <= end && q == end - m
      invariant l == Shifted(num, radix, m)
      invariant m + Length(ll, radix) == Length(divisor, radix)
      invariant buf[q..end] == Digits(num, radix, m)
      invariant forall k :: 0 <= k < p || end <= k < buf.Length ==> buf[k] == old(buf[k])
      decreases q
    {
      DigitsFront(num, radix, m);
      LengthStep(ll, radix);
      DivMod(l, radix);
      DivMod(ll, radix);
      q := q - 1;
      PutFront(buf, q, end, DigitChar(l % radix));
      m := m + 1;
      l := l / radix;
      ll := ll / radix;
      if ll == 0 {
        break;
      }
    }
  }

  method PutFront(buf: array<char>, q: nat, end: nat, c: char)
    requires q < end <= buf.Length
    modifies buf
    ensures buf[q..end] == [c] + old(buf[q + 1..end])
    ensures forall k :: 0 <= k < q || end <= k < buf.Length ==> buf[k] == old(buf[k])
  {
    buf[q] := c;
  }

  lemma LengthStep(u: nat, radix: int)
    requires IsRadix(radix)
    ensures Length(u, radix) == if u / radix == 0 then 1 else 1 + Length(u / radix, radix)
  {
    DivMod(u, radix);
  }

  /** The overlapping copy, first character first. */
  method MoveDown(buf: array<char>, p: nat, q: nat, end: nat) returns (next: nat)
    requires p <= q < end <= buf.Length
    modifies buf
    ensures next == p + (end - q) && buf[p..next] == old(buf[q..end])
    ensures buf[..p] == old(buf[..p]) && buf[end..] == old(buf[end..])
  {
    next := p;
    var from := q;
    ghost var text := buf[q..end];
    while from < end
      invariant q <= from <= end && next == p + (from - q)
      invariant forall t :: 0 <= t < next - p ==> buf[p + t] == text[t]
      invariant forall t :: from - q <= t < end - q ==> buf[q + t] == text[t]
      invariant forall k :: 0 <= k < p || end <= k < buf.Length ==> buf[k] == old(buf[k])
    {
      assert buf[from] == text[from - q];
      buf[next] := buf[from];
      next := next + 1;
      from := from + 1;
    }
  }

  /* ---------- fixed point ---------- */

  function Fraction(num: real): int { ((num - num.Floor as real) * (FLOAT_PRECISION as real)).Floor }

  /** Integer part, point, five digits. */
  function Fixed(num: real): string
    requires num >= 0.0
  {
    Numeral(num.Floor, 10) + "." + Digits(Fraction(num), 10, 5)
  }

  lemma FractionBounds(num: real)
    ensures 0 <= Fraction(num) < FLOAT_PRECISION
  {
  }

  /** `ftoa`. The text needs room for the integer part, the point and the eleven characters in which the
      fraction is made: with a sign before it at most 1 + 10 + 1 + 11 = 23 places. */
  method Ftoa(buf: array<char>, p: nat, num: real) returns (next: nat)
    requires 0.0 <= num < 2147483648.0
    requires p + MAX_FILLER <= buf.Length
    requires p + Length(num.Floor, 10) + 1 + MAX_FILLER <= buf.Length
    modifies buf
    ensures next == p + |Fixed(num)| <= buf.Length && buf[p..next] == Fixed(num) && buf[..p] == old(buf[..p])
  {
    var l := num.Floor;
    FractionBounds(num);
    next := PutWhole(buf, p, l);
    ghost var head := buf[p..next];
    l := ((num - l as real) * (FLOAT_PRECISION as real)).Floor;
    FiveDigits();
    next := PutFraction(buf, p, next, l);
    assert buf[p..next] == head + Digits(l, 10, 5);
  }

  method PutWhole(buf: array<char>, p: nat, l: int) returns (next: nat)
    requires 0 <= l && IsLong(l) && p + MAX_FILLER <= buf.Length && p + Length(l, 10) + 1 <= buf.Length
    modifies buf
    ensures next == p + Length(l, 10) + 1 && buf[p..next] == Numeral(l, 10) + "." && buf[..p] == old(buf[..p])
  {
    next := LongToString(buf, p, l, 10, 0);
    buf[next] := '.';
    next := next + 1;
    assert buf[p..next] == buf[p..next - 1] + [buf[next - 1]];
  }

  method PutFraction(buf: array<char>, p: nat, start: nat, l: int) returns (next: nat)
    requires 0 <= l && IsLong(l) && p <= start && start + MAX_FILLER <= buf.Length
    requires Length(10000, 10) == 5
    modifies buf
    ensures next == start + 5 && buf[p..next] == old(buf[p..start]) + Digits(l, 10, 5) && buf[..p] == old(buf[..p])
  {
    next := LongToString(buf, start, l, 10, FLOAT_PRECISION / 10);
    assert buf[p..next] == buf[..start][p..] + buf[start..next];
    assert buf[..p] == buf[..start][..p];
  }

  lemma FiveDigits()
    ensures Length(10000, 10) == 5
  {
    assert Length(100, 10) == 3 && Length(1000, 10) == 4;
  }

  /** The text denotes the number cut after five decimals. */
  lemma FixedDenotes(num: real)
    requires num >= 0.0
    ensures var whole, part := Numeral(num.Floor, 10), Digits(Fraction(num), 10, 5);
            var v := Value(whole, 10) as real + Value(part, 10) as real / 100000.0;
            Fixed(num) == whole + "." + part && v <= num < v + 0.00001
  {
    NumeralRoundTrip(num.Floor, 10);
    FiveDecimals(Fraction(num)) by { FractionBounds(num); }
    CutAfterFive(num);
  }

  lemma FiveDecimals(f: nat)
    requires f < FLOAT_PRECISION
    ensures Value(Digits(f, 10, 5), 10) == f
  {
    ValueOfDigits(f, 10, 5);
    assert Power(10, 5) == 100000 by { assert Power(10, 2) == 100; }
  }

  lemma CutAfterFive(num: real)
    ensures var v := num.Floor as real + Fraction(num) as real / 100000.0;
            v <= num < v + 0.00001
  {
    var x := (num - num.Floor as real) * 100000.0;
    assert x.Floor as real <= x < x.Floor as real + 1.0;
  }

  /** The 23 characters of the caller's buffer are exactly enough: a negative number with a ten digit
      integer part uses the last one, and no number needs more. */
  lemma FloatScratchIsTight(num: real)
    requires 0.0 <= num < 2147483648.0
    ensures 1 + Length(num.Floor, 10) + 1 + MAX_FILLER <= 2 * MAX_FILLER + 1
    ensures 1 + Length(num.Floor, 10) + 1 + MAX_FILLER == 2 * MAX_FILLER + 1 <==> num >= 1000000000.0
  {
    var u := num.Floor;
    LengthFits(u, 10);
    assert Power(10, 9) == 1000000000 by { assert Power(10, 4) == 10000; PowerSquare(10, 4); }
    if u < 1000000000 {
      LengthBound(u, 10, 9);
    } else if Length(u, 10) <= 9 {
      LengthSuffices(u, 10);
      PowerMonotone(10, Length(u, 10), 9);
    }
  }

  lemma {:induction false} PowerMonotone(b: int, j: nat, k: nat)
    requires b >= 1 && j <= k
    ensures Power(b, j) <= Power(b, k)
    decreases k
  {
    if j < k {
      PowerMonotone(b, j, k - 1);
      PowerPositive(b, k - 1);
      assert b * Power(b, k - 1) >= Power(b, k - 1);
    }
  }
}
