/** What the directives of the small printf show, told from the argument they are given: the list of
    conversions in the documentation of `chprintf` (`os/various/chprintf.c`). */
module ChPrintfMeaning {
  import opened Arith
  import opened ChDigits
  import opened ChPrintf
  import opened Wrappers

  const DIGITS := "0123456789ABCDEF"

  /** The characters of a numeral and their values. */
  lemma DigitIsNamed(d: int)
    requires 0 <= d < 16
    ensures DigitChar(d) == DIGITS[d] && DigitOf(DIGITS[d]) == d
  {
  }

  ghost predicate AllDigits(s: string, radix: int)
    requires 0 <= radix <= 16
  {
    forall k :: 0 <= k < |s| ==> s[k] in DIGITS[..radix]
  }

  lemma {:induction false} DigitsAreDigits(u: nat, radix: int, k: nat)
    requires IsRadix(radix)
    ensures AllDigits(Digits(u, radix, k), radix)
    decreases k
  {
    if k > 0 {
      DivMod(u, radix);
      DigitsAreDigits(u / radix, radix, k - 1);
      DigitIsNamed(u % radix);
      assert DIGITS[..radix][u % radix] == DIGITS[u % radix];
    }
  }

  /** A numeral of the radix: its digits, at least one, and no leading zero. */
  ghost predicate IsNumeral(s: string, radix: int)
    requires 0 <= radix <= 16
  {
    s != [] && AllDigits(s, radix) && (s[0] == '0' ==> s == "0")
  }

  lemma NumeralIsNumeral(u: nat, radix: int)
    requires IsRadix(radix)
    ensures IsNumeral(Numeral(u, radix), radix) && Value(Numeral(u, radix), radix) == u
  {
    NumeralRoundTrip(u, radix);
    NoLeadingZero(u, radix);
    DigitsAreDigits(u, radix, Length(u, radix));
    assert Length(0, radix) == 1 && Digits(0, radix, 1) == Digits(0, radix, 0) + ['0'];
  }

  /** x and X show the argument in hexadecimal, u and U in decimal, o and O in octal, as a 32 bit number
      without a sign. */
  lemma UnsignedShown(conv: char, precision: int, args: seq<Arg>, k: nat)
    requires conv in "xXuUoO"
    requires k < |args| && args[k].Int? && -0x8000_0000 <= args[k].v < 0x8000_0000
    ensures var out, v := Body(conv, precision, args, k), args[k].v;
            var radix := if conv in "xX" then 16 else if conv in "uU" then 10 else 8;
            IsNumeral(out, radix) && Value(out, radix) == if v >= 0 then v else 0x1_0000_0000 + v
  {
    hide Numeral, Value, IsNumeral;
    var v := args[k].v;
    NumeralIsNumeral(if v >= 0 then v else 0x1_0000_0000 + v, if conv in "xX" then 16 else if conv in "uU" then 10 else 8);
  }

  /** d and D show it in decimal, with a minus sign in front of a negative one. */
  lemma SignedShown(conv: char, precision: int, args: seq<Arg>, k: nat)
    requires conv in "dD"
    requires k < |args| && args[k].Int? && -0x8000_0000 <= args[k].v < 0x8000_0000
    ensures var out, v := Body(conv, precision, args, k), args[k].v;
            && (v >= 0 ==> IsNumeral(out, 10) && Value(out, 10) == v)
            && (v < 0 ==> out[..1] == "-" && IsNumeral(out[1..], 10) && Value(out[1..], 10) == -v)
  {
    hide Numeral, Value, IsNumeral;
    var v := args[k].v;
    var u := if v < 0 then -v else v;
    NumeralIsNumeral(u, 10);
    assert v < 0 ==> ("-" + Numeral(u, 10))[1..] == Numeral(u, 10);
  }

  /** f shows a sign, the whole part, a point and five digits: the number cut after five decimals. */
  lemma RealShown(precision: int, args: seq<Arg>, k: nat)
    requires k < |args| && args[k].Real? && -2147483648.0 < args[k].r < 2147483648.0
    ensures var r := args[k].r;
            var size := if r < 0.0 then -r else r;
            var whole, part := Numeral(size.Floor, 10), Digits(Fraction(size), 10, 5);
            var v := Value(whole, 10) as real + Value(part, 10) as real / 100000.0;
            && Body('f', precision, args, k) == (if r < 0.0 then "-" else "") + whole + "." + part
            && IsNumeral(whole, 10) && |part| == 5 && AllDigits(part, 10)
            && v <= size < v + 0.00001
  {
    hide Numeral, Value, IsNumeral, Digits, Fraction;
    var r := args[k].r;
    var size := if r < 0.0 then -r else r;
    FractionBounds(size);
    FixedDenotes(size);
    NumeralIsNumeral(size.Floor, 10);
    DigitsAreDigits(Fraction(size), 10, 5);
    var whole, part := Numeral(size.Floor, 10), Digits(Fraction(size), 10, 5);
    assert "-" + (whole + "." + part) == "-" + whole + "." + part;
    assert "" + whole + "." + part == whole + "." + part;
  }

  /** c shows the one character of the argument, cut to eight bits. */
  lemma CharacterShown(precision: int, args: seq<Arg>, k: nat)
    requires k < |args| && args[k].Int? && -0x8000_0000 <= args[k].v < 0x8000_0000
    ensures var out, v := Body('c', precision, args, k), args[k].v;
            |out| == 1 && out[0] as int < 256 && (out[0] as int - v) % 256 == 0
  {
    CutToByte(args[k].v);
  }

  lemma CutToByte(v: int)
    ensures 0 <= v % 256 < 256 && (v % 256 - v) % 256 == 0
  {
  }

  /** s shows a string up to its terminator or its precision, 32767 characters if that is zero; a null
      pointer is shown as a text. */
  lemma TextShown(precision: int, args: seq<Arg>, k: nat)
    requires precision >= 0 && k < |args| && (args[k].Text? || args[k].Null?)
    ensures var out, limit := Body('s', precision, args, k), if precision == 0 then 32767 else precision;
            var s := if args[k].Text? then args[k].s else "(null)";
            && out <= s && '\0' !in out && |out| <= limit
            && (|out| == limit || |out| == |s| || s[|out|] == '\0')
  {
  }

  /** Any other conversion shows its own character, and takes no argument. */
  lemma OtherShown(conv: char, precision: int, args: seq<Arg>, k: nat)
    ensures TakesArg(conv) <==> conv in "csdDfxXuUoO"
    ensures !TakesArg(conv) ==> Body(conv, precision, args, k) == [conv]
  {
  }

  /* ---------- the arguments of a format ---------- */

  /** The number of stars in a width or precision. */
  lemma {:induction false} StarsAreStars(items: string)
    ensures Stars(items) == multiset(items)['*']
    decreases |items|
  {
    if items != [] {
      StarsAreStars(items[1..]);
      assert items == [items[0]] + items[1..];
    }
  }

  /** The arguments that a piece takes: one for each star, and one for a conversion that shows one. */
  function TakenBy(p: Piece): nat {
    if p.Literal? then 0
    else multiset(p.width)['*'] + multiset(p.precision)['*'] + if p.conv in "csdDfxXuUoO" then 1 else 0
  }

  lemma UsesAre(p: Piece)
    ensures Uses(p) == TakenBy(p)
  {
    if p.Field? {
      StarsAreStars(p.width);
      StarsAreStars(p.precision);
      OtherShown(p.conv, 0, [], 0);
    }
  }

  function Taken(ps: seq<Piece>, n: nat): nat
    requires n <= |ps|
    decreases n
  {
    if n == 0 then 0 else Taken(ps, n - 1) + TakenBy(ps[n - 1])
  }

  lemma RenderFrom(ps: seq<Piece>, args: seq<Arg>, n: nat)
    requires n < |ps|
    ensures Render(ps[n..], args, Taken(ps, n))
            == RenderPiece(ps[n], args, Taken(ps, n)) + Render(ps[n + 1..], args, Taken(ps, n + 1))
  {
    hide RenderPiece, Uses, TakenBy;
    UsesAre(ps[n]);
    assert ps[n..][1..] == ps[n + 1..];
  }

  /** The texts of the first `n` pieces. */
  function Shown(ps: seq<Piece>, args: seq<Arg>, n: nat): string
    requires n <= |ps|
    decreases n
  {
    if n == 0 then [] else Shown(ps, args, n - 1) + RenderPiece(ps[n - 1], args, Taken(ps, n - 1))
  }

  /** Arguments are taken in order: each piece shows those that the pieces before it have left. */
  lemma {:induction false} ArgumentsInOrder(ps: seq<Piece>, args: seq<Arg>, n: nat)
    requires n <= |ps|
    ensures Render(ps, args, 0) == Shown(ps, args, n) + Render(ps[n..], args, Taken(ps, n))
    decreases n
  {
    hide RenderPiece, Render, Taken;
    if n == 0 {
      assert ps[0..] == ps && Taken(ps, 0) == 0 by { TakenNothing(ps); }
      assert [] + Render(ps, args, 0) == Render(ps, args, 0);
    } else {
      ArgumentsInOrder(ps, args, n - 1);
      RenderFrom(ps, args, n - 1);
      assert Shown(ps, args, n - 1) + (RenderPiece(ps[n - 1], args, Taken(ps, n - 1)) + Render(ps[n..], args, Taken(ps, n)))
             == Shown(ps, args, n) + Render(ps[n..], args, Taken(ps, n));
    }
  }

  lemma TakenNothing(ps: seq<Piece>)
    ensures Taken(ps, 0) == 0
  {
  }

  /** A width or precision written in digits is that number. */
  lemma {:induction false} DigitsGiveNumber(items: string, args: seq<Arg>, k: nat, acc: string)
    requires forall j :: 0 <= j < |items| ==> '0' <= items[j] <= '9'
    ensures Number(items, args, k, Value(acc, 10)) == Value(acc + items, 10)
    decreases |items|
  {
    if items == [] {
      assert acc + items == acc;
    } else {
      ValueSnoc(acc, items[0], 10);
      assert acc + [items[0]] + items[1..] == acc + items;
      DigitsGiveNumber(items[1..], args, k, acc + [items[0]]);
    }
  }

  /** A star alone takes the number from the arguments, cut to a character. */
  lemma StarGivesArgument(args: seq<Arg>, k: nat)
    requires k < |args| && args[k].Int? && -0x8000_0000 <= args[k].v < 0x8000_0000
    ensures var n, v := Number("*", args, k, 0), args[k].v;
            0 <= n < 256 && (n - v) % 256 == 0
  {
    assert "*"[1..] == "";
    CutToByte(args[k].v);
  }

  /** The text of a directive. */
  lemma DirectiveIs(p: Piece, ps: seq<Piece>)
    requires p.Field?
    ensures Unparse([p] + ps)
            == "%" + ((if p.left then "-" else "") + ((if p.zero then "." else "") + (p.width
               + ((if p.dot then "." + p.precision else "") + (p.modifier + ([p.conv] + Unparse(ps)))))))
  {
    hide Unparse;
    UnparseCons(p, ps);
    var rest := Unparse(ps);
    Optional(p.dot, "." + p.precision, ConvText(p, rest));
    assert "." + p.precision + ConvText(p, rest) == "." + (p.precision + ConvText(p, rest));
    Optional(p.zero, ".", WidthText(p, rest));
    Optional(p.left, "-", ZeroText(p, rest));
  }

  lemma Optional(given: bool, part: string, rest: string)
    ensures (if given then part else "") + rest == if given then part + rest else rest
  {
  }

  /** Widths and precisions are made of digits and stars. */
  lemma ItemIs(c: char)
    ensures IsItem(c) <==> c in "0123456789*"
  {
  }

  /** A body in a field of at least a width: the filler behind it, or before it, or between its minus sign
      and its digits. */
  ghost predicate Filled(out: string, body: string, width: int, filler: char, left: bool) {
    && |out| == Max(width, |body|)
    && var pad := |out| - |body|;
       if left then out[..|body|] == body && forall j :: |body| <= j < |out| ==> out[j] == filler
       else if filler == '0' && Starts(body, '-') then
         out[0] == '-' && out[pad + 1..] == body[1..] && forall j :: 1 <= j <= pad ==> out[j] == filler
       else out[pad..] == body && forall j :: 0 <= j < pad ==> out[j] == filler
  }

  lemma LayoutFills(body: string, width: int, zero: bool, left: bool)
    ensures Filled(Layout(body, width, zero, left), body, width, if zero then '0' else ' ', left)
  {
  }

  /** A field is the body of its conversion, filled to its width with zeros if that is asked for and it is
      no character or string, and else with blanks. */
  lemma FieldIsFilled(p: Piece, args: seq<Arg>, k: nat)
    requires p.Field?
    ensures var width, start := Number(p.width, args, k, 0), k + multiset(p.width)['*'];
            var precision := Number(p.precision, args, start, 0);
            var body := Body(p.conv, precision, args, start + multiset(p.precision)['*']);
            Filled(RenderPiece(p, args, k), body, width, if p.zero && p.conv !in "cs" then '0' else ' ', p.left)
  {
    hide Number, Body, Filled, Layout, Stars;
    StarsAreStars(p.width);
    StarsAreStars(p.precision);
    var width, start := Number(p.width, args, k, 0), k + Stars(p.width);
    var body := Body(p.conv, Number(p.precision, args, start, 0), args, start + Stars(p.precision));
    LayoutFills(body, width, p.zero && p.conv != 'c' && p.conv != 's', p.left);
  }
}
