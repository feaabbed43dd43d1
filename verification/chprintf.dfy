/** The small printf: `chprintf` in `os/various/chprintf.c`.

    A format is taken apart into pieces; the output is the pieces rendered one after the other. A format
    whose last directive runs into the terminator is left out, as C leaves it undefined. An argument that
    is missing or of another kind than its directive wants, undefined in C as well, counts as zero. */
module ChPrintf {
  import opened Arith
  import opened ChDigits
  import opened Wrappers

  datatype Arg = Int(v: int) | Real(r: real) | Text(s: string) | Null

  const MAX_PRECISION: int := 32767

  function IntAt(args: seq<Arg>, k: nat): (v: int)
    ensures IsLong(v)
  {
    if k < |args| && args[k].Int? && IsLong(args[k].v) then args[k].v else 0
  }

  function RealAt(args: seq<Arg>, k: nat): (r: real)
    ensures -2147483648.0 < r < 2147483648.0
  {
    if k < |args| && args[k].Real? && -2147483648.0 < args[k].r < 2147483648.0 then args[k].r else 0.0
  }

  /** The characters of a string before its terminator. */
  function UpToNul(s: string): (t: string)
    ensures |t| <= |s| && t == s[..|t|] && '\0' !in t && (|t| < |s| ==> s[|t|] == '\0')
    decreases |s|
  {
    if s == [] || s[0] == '\0' then [] else [s[0]] + UpToNul(s[1..])
  }

  function TextAt(args: seq<Arg>, k: nat): string {
    if k < |args| && args[k].Text? then args[k].s else "(null)"
  }

  /** An `int` assigned to a `char`, which is unsigned on this target. */
  function ToChar(v: int): char { (v % 256) as char }

  /* ---------- formats ---------- */

  /** A literal character, or a directive %[-][.][width][.precision][l|L]conv; widths and precisions are
      digits and stars in any order. */
  datatype Piece =
    | Literal(c: char)
    | Field(left: bool, zero: bool, width: string, dot: bool, precision: string, modifier: string, conv: char)

  predicate IsItem(c: char) { '0' <= c <= '9' || c == '*' }

  /** The text of a directive from some part on, followed by `rest`, and its first character. */
  function ConvText(p: Piece, rest: string): string
    requires p.Field?
  {
    p.modifier + ([p.conv] + rest)
  }

  function DotText(p: Piece, rest: string): string
    requires p.Field?
  {
    if p.dot then ['.'] + (p.precision + ConvText(p, rest)) else ConvText(p, rest)
  }

  function WidthText(p: Piece, rest: string): string
    requires p.Field?
  {
    p.width + DotText(p, rest)
  }

  function ZeroText(p: Piece, rest: string): string
    requires p.Field?
  {
    if p.zero then ['.'] + WidthText(p, rest) else WidthText(p, rest)
  }

  function FieldText(p: Piece, rest: string): string
    requires p.Field?
  {
    if p.left then ['-'] + ZeroText(p, rest) else ZeroText(p, rest)
  }

  /** A format with these pieces. */
  function Unparse(ps: seq<Piece>): string
    decreases |ps|
  {
    if ps == [] then []
    else if ps[0].Literal? then [ps[0].c] + Unparse(ps[1..])
    else ['%'] + FieldText(ps[0], Unparse(ps[1..]))
  }

  /** The length of the number at the start of `f`. */
  function Span(f: string): (n: nat)
    ensures n <= |f|
    ensures forall k :: 0 <= k < n ==> IsItem(f[k])
    ensures n < |f| ==> !IsItem(f[n])
    decreases |f|
  {
    if f == [] || !IsItem(f[0]) then 0 else 1 + Span(f[1..])
  }

  predicate Starts(f: string, c: char) { f != [] && f[0] == c }

  /** The end of a directive: an l or L is a modifier unless it ends the format. */
  function ParseConv(left: bool, zero: bool, width: string, dot: bool, precision: string, f: string)
      : (r: Option<(Piece, string)>)
    ensures r.Some? ==> r.value.0.Field? && |r.value.1| < |f|
  {
    if f == [] then None
    else if |f| > 1 && (f[0] == 'l' || f[0] == 'L') then
      Some((Field(left, zero, width, dot, precision, f[..1], f[1]), f[2..]))
    else Some((Field(left, zero, width, dot, precision, "", f[0]), f[1..]))
  }

  function ParseDot(left: bool, zero: bool, width: string, f: string): (r: Option<(Piece, string)>)
    ensures r.Some? ==> r.value.0.Field? && |r.value.1| < |f|
  {
    if Starts(f, '.') then ParseConv(left, zero, width, true, f[1..][..Span(f[1..])], f[1..][Span(f[1..])..])
    else ParseConv(left, zero, width, false, "", f)
  }

  function ParseWidth(left: bool, zero: bool, f: string): (r: Option<(Piece, string)>)
    ensures r.Some? ==> r.value.0.Field? && |r.value.1| < |f|
  {
    ParseDot(left, zero, f[..Span(f)], f[Span(f)..])
  }

  function ParseZero(left: bool, f: string): (r: Option<(Piece, string)>)
    ensures r.Some? ==> r.value.0.Field? && |r.value.1| < |f|
  {
    if Starts(f, '.') then ParseWidth(left, true, f[1..]) else ParseWidth(left, false, f)
  }

  /** The directive whose text follows the percent sign, and what is left of the format. */
  function ParseField(f: string): (r: Option<(Piece, string)>)
    ensures r.Some? ==> r.value.0.Field? && |r.value.1| < |f|
  {
    if Starts(f, '-') then ParseZero(true, f[1..]) else ParseZero(false, f)
  }

  function Parse(f: string): Option<seq<Piece>>
    decreases |f|
  {
    if f == [] then Some([])
    else if f[0] != '%' then
      var rest := Parse(f[1..]);
      if rest.None? then None else Some([Literal(f[0])] + rest.value)
    else
      var field := ParseField(f[1..]);
      if field.None? then None
      else
        var rest := Parse(field.value.1);
        if rest.None? then None else Some([field.value.0] + rest.value)
  }

  /* ---------- rendering ---------- */

  /** A width or precision, read from left to right; a star takes an argument, cut to a character. */
  function Number(items: string, args: seq<Arg>, k: nat, acc: int): int
    decreases |items|
  {
    if items == [] then acc
    else if items[0] == '*' then Number(items[1..], args, k + 1, acc * 10 + IntAt(args, k) % 256)
    else Number(items[1..], args, k, acc * 10 + (items[0] as int - '0' as int))
  }

  function Stars(items: string): nat
    decreases |items|
  {
    if items == [] then 0 else (if items[0] == '*' then 1 else 0) + Stars(items[1..])
  }

  predicate TakesArg(conv: char) {
    || conv == 'c' || conv == 's' || conv == 'd' || conv == 'D' || conv == 'f' || conv == 'x' || conv == 'X'
    || conv == 'u' || conv == 'U' || conv == 'o' || conv == 'O'
  }

  function Uses(p: Piece): nat {
    if p.Literal? then 0 else Stars(p.width) + Stars(p.precision) + if TakesArg(p.conv) then 1 else 0
  }

  function Decimal(v: int): string { if v < 0 then "-" + Numeral(-v, 10) else Numeral(v, 10) }

  function Cut(s: string, precision: int): string {
    var n := if precision == 0 then MAX_PRECISION else precision;
    if |s| <= n then s else if n <= 0 then [] else s[..n]
  }

  /** What a conversion makes of its argument, before padding. */
  function Body(conv: char, precision: int, args: seq<Arg>, k: nat): string {
    if conv == 'c' then [ToChar(IntAt(args, k))]
    else if conv == 's' then Cut(UpToNul(TextAt(args, k)), precision)
    else if conv == 'd' || conv == 'D' then Decimal(IntAt(args, k))
    else if conv == 'f' then
      (if RealAt(args, k) < 0.0 then "-" + Fixed(-RealAt(args, k)) else Fixed(RealAt(args, k)))
    else if conv == 'x' || conv == 'X' then Numeral(Unsigned(IntAt(args, k)), 16)
    else if conv == 'u' || conv == 'U' then Numeral(Unsigned(IntAt(args, k)), 10)
    else if conv == 'o' || conv == 'O' then Numeral(Unsigned(IntAt(args, k)), 8)
    else [conv]
  }

  function Repeat(c: char, n: nat): string { seq(n, _ => c) }

  /** A body in a field of a given width: at the left with the filler after it, or at the right with the
      filler before it, but after a sign when the filler is zero. */
  function Layout(body: string, width: int, zero: bool, left: bool): string {
    var pad := if width > |body| then width - |body| else 0;
    var filler := Repeat(if zero then '0' else ' ', pad);
    if left then body + filler
    else if zero && pad > 0 && Starts(body, '-') then "-" + filler + body[1..]
    else filler + body
  }

  function RenderPiece(p: Piece, args: seq<Arg>, k: nat): string {
    if p.Literal? then [p.c]
    else
      var width := Number(p.width, args, k, 0);
      var precision := Number(p.precision, args, k + Stars(p.width), 0);
      Layout(Body(p.conv, precision, args, k + Stars(p.width) + Stars(p.precision)), width,
             p.zero && p.conv != 'c' && p.conv != 's', p.left)
  }

  function Render(ps: seq<Piece>, args: seq<Arg>, k: nat): string
    decreases |ps|
  {
    if ps == [] then [] else RenderPiece(ps[0], args, k) + Render(ps[1..], args, k + Uses(ps[0]))
  }

  /* ---------- formats are their pieces ---------- */

  lemma Tail(f: string)
    requires f != []
    ensures f == [f[0]] + f[1..]
  {
  }

  lemma Halves(f: string, n: nat)
    requires n <= |f|
    ensures f == f[..n] + f[n..]
  {
  }

  lemma ConvWrites(left: bool, zero: bool, width: string, dot: bool, precision: string, f: string)
    requires f != []
    ensures var r := ParseConv(left, zero, width, dot, precision, f);
            r.Some? && f == ConvText(r.value.0, r.value.1)
            && r.value.0 == Field(left, zero, width, dot, precision, r.value.0.modifier, r.value.0.conv)
  {
    Tail(f);
    if |f| > 1 {
      Tail(f[1..]);
      assert f[1..][1..] == f[2..];
    }
  }

  lemma DotWrites(left: bool, zero: bool, width: string, f: string)
    requires ParseDot(left, zero, width, f).Some?
    ensures var r := ParseDot(left, zero, width, f).value;
            f == DotText(r.0, r.1) && r.0.left == left && r.0.zero == zero && r.0.width == width
  {
    if Starts(f, '.') {
      var g := f[1..];
      var n := Span(g);
      Tail(f);
      Halves(g, n);
      ConvWrites(left, zero, width, true, g[..n], g[n..]);
    } else {
      ConvWrites(left, zero, width, false, "", f);
    }
  }

  lemma WidthWrites(left: bool, zero: bool, f: string)
    requires ParseWidth(left, zero, f).Some?
    ensures var r := ParseWidth(left, zero, f).value;
            f == WidthText(r.0, r.1) && r.0.left == left && r.0.zero == zero
  {
    Halves(f, Span(f));
    DotWrites(left, zero, f[..Span(f)], f[Span(f)..]);
  }

  lemma ZeroWrites(left: bool, f: string)
    requires ParseZero(left, f).Some?
    ensures var r := ParseZero(left, f).value;
            f == ZeroText(r.0, r.1) && r.0.left == left
  {
    if Starts(f, '.') {
      Tail(f);
      WidthWrites(left, true, f[1..]);
    } else {
      WidthWrites(left, false, f);
    }
  }

  lemma FieldWrites(f: string)
    requires ParseField(f).Some?
    ensures f == FieldText(ParseField(f).value.0, ParseField(f).value.1)
  {
    if Starts(f, '-') {
      Tail(f);
      ZeroWrites(true, f[1..]);
    } else {
      ZeroWrites(false, f);
    }
  }

  /** Taking a format apart loses nothing. */
  lemma {:induction false} ParseWrites(f: string)
    requires Parse(f).Some?
    ensures Unparse(Parse(f).value) == f
    decreases |f|
  {
    if f != [] {
      Tail(f);
      if f[0] != '%' {
        ParseWrites(f[1..]);
        UnparseCons(Literal(f[0]), Parse(f[1..]).value);
      } else {
        var r := ParseField(f[1..]).value;
        FieldWrites(f[1..]);
        ParseWrites(r.1);
        UnparseCons(r.0, Parse(r.1).value);
      }
    }
  }

  lemma UnparseCons(p: Piece, ps: seq<Piece>)
    ensures Unparse([p] + ps) == if p.Literal? then [p.c] + Unparse(ps) else ['%'] + FieldText(p, Unparse(ps))
  {
    assert ([p] + ps)[1..] == ps;
  }

  ghost predicate AllItems(s: string) { forall k :: 0 <= k < |s| ==> IsItem(s[k]) }

  /** The first character of the text from some part on. */
  function ConvFirst(p: Piece): char
    requires p.Field?
  {
    if p.modifier != [] then p.modifier[0] else p.conv
  }

  function DotFirst(p: Piece): char
    requires p.Field?
  {
    if p.dot then '.' else ConvFirst(p)
  }

  function WidthFirst(p: Piece): char
    requires p.Field?
  {
    if p.width != [] then p.width[0] else DotFirst(p)
  }

  function ZeroFirst(p: Piece): char
    requires p.Field?
  {
    if p.zero then '.' else WidthFirst(p)
  }

  /** A piece that says what its text means: no part of it would be read as an earlier part. */
  ghost predicate Canonical(p: Piece) {
    match p
    case Literal(c) => c != '%'
    case Field(left, zero, width, dot, precision, modifier, conv) =>
      && AllItems(width) && AllItems(precision) && (!dot ==> precision == [])
      && (modifier == ['l'] || modifier == ['L'] || (modifier == [] && conv != 'l' && conv != 'L'))
      && (!left ==> ZeroFirst(p) != '-')
      && (!zero ==> WidthFirst(p) != '.')
      && !IsItem(DotFirst(p))
      && (!dot ==> ConvFirst(p) != '.')
      && !IsItem(ConvFirst(p))
  }

  lemma {:induction false} SpanOf(s: string, t: string)
    requires AllItems(s) && (t == [] || !IsItem(t[0]))
    ensures Span(s + t) == |s|
    decreases |s|
  {
    if s == [] {
      assert s + t == t;
    } else {
      assert (s + t)[1..] == s[1..] + t;
      SpanOf(s[1..], t);
    }
  }

  lemma Parts(s: string, t: string)
    ensures (s + t)[..|s|] == s && (s + t)[|s|..] == t
    ensures s == [] ==> s + t == t
  {
  }

  lemma ConvReads(p: Piece, rest: string)
    requires p.Field? && Canonical(p)
    ensures ConvText(p, rest) != [] && ConvText(p, rest)[0] == ConvFirst(p)
    ensures ParseConv(p.left, p.zero, p.width, p.dot, p.precision, ConvText(p, rest)) == Some((p, rest))
  {
    Parts([p.conv], rest);
    Parts(p.modifier, [p.conv] + rest);
    var f := ConvText(p, rest);
    if p.modifier != [] {
      assert f[1..] == [p.conv] + rest;
      assert f[2..] == f[1..][1..];
    }
  }

  lemma DotReads(p: Piece, rest: string)
    requires p.Field? && Canonical(p)
    ensures DotText(p, rest) != [] && DotText(p, rest)[0] == DotFirst(p)
    ensures ParseDot(p.left, p.zero, p.width, DotText(p, rest)) == Some((p, rest))
  {
    ConvReads(p, rest);
    if p.dot {
      Parts(['.'], p.precision + ConvText(p, rest));
      SpanOf(p.precision, ConvText(p, rest));
      Parts(p.precision, ConvText(p, rest));
    }
  }

  lemma WidthReads(p: Piece, rest: string)
    requires p.Field? && Canonical(p)
    ensures WidthText(p, rest) != [] && WidthText(p, rest)[0] == WidthFirst(p)
    ensures ParseWidth(p.left, p.zero, WidthText(p, rest)) == Some((p, rest))
  {
    DotReads(p, rest);
    SpanOf(p.width, DotText(p, rest));
    Parts(p.width, DotText(p, rest));
  }

  lemma ZeroReads(p: Piece, rest: string)
    requires p.Field? && Canonical(p)
    ensures ZeroText(p, rest) != [] && ZeroText(p, rest)[0] == ZeroFirst(p)
    ensures ParseZero(p.left, ZeroText(p, rest)) == Some((p, rest))
  {
    WidthReads(p, rest);
    Parts(['.'], WidthText(p, rest));
  }

  lemma FieldReads(p: Piece, rest: string)
    requires p.Field? && Canonical(p)
    ensures ParseField(FieldText(p, rest)) == Some((p, rest))
  {
    ZeroReads(p, rest);
    Parts(['-'], ZeroText(p, rest));
  }

  /** One canonical piece is read back from in front of any text. */
  lemma PieceReads(p: Piece, rest: string)
    requires Canonical(p)
    ensures var f := if p.Literal? then [p.c] + rest else ['%'] + FieldText(p, rest);
            Parse(f) == if Parse(rest).None? then None else Some([p] + Parse(rest).value)
  {
    if p.Literal? {
      Parts([p.c], rest);
    } else {
      hide Canonical, ParseField, FieldText;
      FieldReads(p, rest);
      Parts(['%'], FieldText(p, rest));
    }
  }

  /** And every list of canonical pieces is read back from its text: a format has at most one. */
  lemma {:induction false} ParseReads(ps: seq<Piece>)
    requires forall k :: 0 <= k < |ps| ==> Canonical(ps[k])
    ensures Parse(Unparse(ps)) == Some(ps)
    decreases |ps|
  {
    if ps != [] {
      hide Canonical, Parse, FieldText;
      ParseReads(ps[1..]);
      PieceReads(ps[0], Unparse(ps[1..]));
      assert ps == [ps[0]] + ps[1..];
    }
  }

  /** A directive that ends with a bare l or L, which the code takes for its conversion. */
  predicate EndsBare(p: Piece) { p.Field? && p.modifier == [] && (p.conv == 'l' || p.conv == 'L') }

  lemma ConvCanonical(left: bool, zero: bool, width: string, dot: bool, precision: string, f: string)
    requires f != []
    ensures var r := ParseConv(left, zero, width, dot, precision, f).value;
            && ConvFirst(r.0) == f[0] && (EndsBare(r.0) ==> r.1 == [])
            && (r.0.modifier == ['l'] || r.0.modifier == ['L'] || r.0.modifier == [])
  {
  }

  lemma DotCanonical(left: bool, zero: bool, width: string, f: string)
    requires ParseDot(left, zero, width, f).Some?
    ensures var (p, rest) := ParseDot(left, zero, width, f).value;
            && f != [] && DotFirst(p) == f[0] && (EndsBare(p) ==> rest == [])
            && (p.modifier == ['l'] || p.modifier == ['L'] || p.modifier == [])
            && p.left == left && p.zero == zero && p.width == width
            && AllItems(p.precision) && (!p.dot ==> p.precision == [] && ConvFirst(p) != '.')
            && (p.dot ==> !IsItem(ConvFirst(p)))
  {
    if Starts(f, '.') {
      var g := f[1..];
      ConvCanonical(left, zero, width, true, g[..Span(g)], g[Span(g)..]);
    } else {
      ConvCanonical(left, zero, width, false, "", f);
    }
  }

  lemma WidthCanonical(left: bool, zero: bool, f: string)
    requires ParseWidth(left, zero, f).Some?
    ensures var (p, rest) := ParseWidth(left, zero, f).value;
            && f != [] && WidthFirst(p) == f[0] && (EndsBare(p) ==> rest == [])
            && p.left == left && p.zero == zero
            && AllItems(p.width) && AllItems(p.precision) && (!p.dot ==> p.precision == [] && ConvFirst(p) != '.')
            && (p.modifier == ['l'] || p.modifier == ['L'] || p.modifier == [])
            && !IsItem(DotFirst(p)) && !IsItem(ConvFirst(p))
  {
    DotCanonical(left, zero, f[..Span(f)], f[Span(f)..]);
  }

  /** The pieces the code reads are canonical but for a bare l or L, which leaves nothing behind it. */
  lemma FieldCanonical(f: string)
    requires ParseField(f).Some?
    ensures var (p, rest) := ParseField(f).value;
            (Canonical(p) && !EndsBare(p)) || (EndsBare(p) && rest == [])
  {
    hide ParseWidth;
    var f1 := if Starts(f, '-') then f[1..] else f;
    var f2 := if Starts(f1, '.') then f1[1..] else f1;
    WidthCanonical(Starts(f, '-'), Starts(f1, '.'), f2);
  }

  lemma {:induction false} ParseCanonical(f: string)
    requires Parse(f).Some?
    ensures var ps := Parse(f).value;
            forall k :: 0 <= k < |ps| ==> (Canonical(ps[k]) && !EndsBare(ps[k])) || (EndsBare(ps[k]) && k == |ps| - 1)
    decreases |f|
  {
    hide Canonical, ParseField;
    if f != [] {
      if f[0] != '%' {
        ParseCanonical(f[1..]);
        LiteralCanonical(f[0]);
      } else {
        FieldCanonical(f[1..]);
        ParseCanonical(ParseField(f[1..]).value.1);
      }
    }
  }

  lemma LiteralCanonical(c: char)
    requires c != '%'
    ensures Canonical(Literal(c))
  {
  }

  lemma CanonicalIsNotBare(p: Piece)
    requires Canonical(p)
    ensures !EndsBare(p)
  {
  }

  /** A format has a list of canonical pieces, and then exactly one, if and only if its last directive
      neither runs into the end nor ends with a bare l or L. */
  lemma HasCanonicalPiecesIff(f: string)
    ensures (exists ps :: (forall k :: 0 <= k < |ps| ==> Canonical(ps[k])) && Unparse(ps) == f)
            <==> Parse(f).Some? && (Parse(f).value == [] || !EndsBare(Parse(f).value[|Parse(f).value| - 1]))
  {
    hide Canonical, EndsBare, Unparse, Parse;
    if Parse(f).Some? {
      ParseWrites(f);
      ParseCanonical(f);
    }
    forall ps | (forall k :: 0 <= k < |ps| ==> Canonical(ps[k])) && Unparse(ps) == f
      ensures Parse(f) == Some(ps) && (ps == [] || !EndsBare(ps[|ps| - 1]))
    {
      ParseReads(ps);
      if ps != [] {
        CanonicalIsNotBare(ps[|ps| - 1]);
      }
    }
  }

  /* ---------- what a field shows ---------- */

  function Max(a: int, b: int): int { if a >= b then a else b }

  /** A field is as wide as its width or its body, whichever is more, and shows the whole body. */
  lemma FieldShape(body: string, width: int, zero: bool, left: bool)
    ensures var out := Layout(body, width, zero, left);
            && |out| == Max(width, |body|)
            && (left ==> body <= out)
            && (!left && !(zero && Starts(body, '-')) ==> out[|out| - |body|..] == body)
            && (!left && zero && Starts(body, '-') ==> out[0] == '-' && out[|out| - |body| + 1..] == body[1..])
  {
  }

  /** A string is cut at its precision, and at 32767 characters without one. */
  lemma StringIsCut(precision: int, args: seq<Arg>, k: nat)
    requires precision >= 0
    ensures var text := UpToNul(TextAt(args, k));
            var body := Body('s', precision, args, k);
            body <= text && |body| == if |text| <= (if precision == 0 then MAX_PRECISION else precision) then |text|
                                      else if precision == 0 then MAX_PRECISION else precision
  {
  }

  /** The number a signed decimal text denotes. */
  function SignedValue(s: string): int {
    if Starts(s, '-') then -Value(s[1..], 10) else Value(s, 10)
  }

  lemma {:induction false} LeadingZeros(n: nat, s: string)
    ensures Value(Repeat('0', n) + s, 10) == Value(s, 10)
    decreases n + |s|
  {
    var t := Repeat('0', n) + s;
    if s != [] {
      assert t[..|t| - 1] == Repeat('0', n) + s[..|s| - 1];
      LeadingZeros(n, s[..|s| - 1]);
    } else if n > 0 {
      assert t[..|t| - 1] == Repeat('0', n - 1) + s;
      LeadingZeros(n - 1, s);
    }
  }

  lemma {:induction false} TrailingZeros(s: string, n: nat)
    ensures Value(s + Repeat('0', n), 10) == Value(s, 10) * Power(10, n)
    decreases n
  {
    hide Value;
    if n == 0 {
      assert s + Repeat('0', n) == s;
    } else {
      assert s + Repeat('0', n) == s + Repeat('0', n - 1) + ['0'];
      ValueSnoc(s + Repeat('0', n - 1), '0', 10);
      TrailingZeros(s, n - 1);
      TenMore(Value(s, 10), Power(10, n - 1));
    }
  }

  lemma TenMore(v: int, p: int)
    ensures v * p * 10 == v * (10 * p)
  {
  }

  lemma DecimalStart(v: int)
    ensures Decimal(v) != [] && (Starts(Decimal(v), '-') <==> v < 0)
    ensures SignedValue(Decimal(v)) == v
  {
    var u := if v < 0 then -v else v;
    NumeralRoundTrip(u, 10);
    FirstIsDigit(u);
    if v < 0 {
      assert Decimal(v)[1..] == Numeral(u, 10);
    }
  }

  lemma {:induction false} FirstIsDigit(u: nat)
    ensures Numeral(u, 10) != [] && '0' <= Numeral(u, 10)[0] <= '9'
    decreases u
  {
    if u >= 10 {
      FirstIsDigit(u / 10);
      assert Numeral(u, 10)[0] == Numeral(u / 10, 10)[0];
    }
  }

  /** A number shown in a zero filled field at the right is still that number, sign included. */
  lemma ZeroFillKeepsNumber(v: int, width: int)
    ensures SignedValue(Layout(Decimal(v), width, true, false)) == v
  {
    hide Value, Decimal;
    var body := Decimal(v);
    var pad: nat := if width > |body| then width - |body| else 0;
    var out := Layout(body, width, true, false);
    DecimalStart(v);
    if v < 0 {
      LeadingZeros(pad, body[1..]);
      assert out[1..] == Repeat('0', pad) + body[1..];
    } else {
      LeadingZeros(pad, body);
      assert out == Repeat('0', pad) + body;
    }
  }

  /** At the left the same filler goes behind it, and multiplies it by a power of ten: the field shows
      the number exactly when that leaves it as it is. */
  lemma ZeroFillAtLeftIff(v: int, width: int)
    ensures SignedValue(Layout(Decimal(v), width, true, true)) == v <==> width <= |Decimal(v)| || v == 0
  {
    hide Value, Decimal, Power;
    var body := Decimal(v);
    var pad: nat := if width > |body| then width - |body| else 0;
    var out := Layout(body, width, true, true);
    DecimalStart(v);
    if v < 0 {
      TrailingZeros(body[1..], pad);
      assert out[1..] == body[1..] + Repeat('0', pad);
    } else {
      TrailingZeros(body, pad);
    }
    TenTimes(v, pad);
  }

  lemma TenTimes(v: int, n: nat)
    ensures v * Power(10, n) == v <==> n == 0 || v == 0
  {
    if n > 0 {
      PowerPositive(10, n - 1);
      var p := Power(10, n);
      assert p >= 10;
      assert v * p - v == v * (p - 1);
      assert v > 0 ==> v * (p - 1) >= p - 1 by { MulMonotone(p - 1, 1, v); }
      assert v < 0 ==> v * (p - 1) <= -(p - 1) by { MulMonotone(p - 1, v, -1); }
    }
  }

  /* ---------- the function itself ---------- */

  lemma {:induction false} NumberAppend(items: string, c: char, args: seq<Arg>, k: nat, acc: int)
    ensures Number(items + [c], args, k, acc)
            == Number(items, args, k, acc) * 10
               + if c == '*' then IntAt(args, k + Stars(items)) % 256 else c as int - '0' as int
    ensures Stars(items + [c]) == Stars(items) + if c == '*' then 1 else 0
    decreases |items|
  {
    if items == [] {
      assert items + [c] == [c] && [c][1..] == [];
    } else {
      assert (items + [c])[1..] == items[1..] + [c];
      if items[0] == '*' {
        NumberAppend(items[1..], c, args, k + 1, acc * 10 + IntAt(args, k) % 256);
      } else {
        NumberAppend(items[1..], c, args, k, acc * 10 + (items[0] as int - '0' as int));
      }
    }
  }

  /** The loops that read a width or a precision; `c` is the character that ends it. */
  method ReadNumber(fmt: string, start: nat, args: seq<Arg>, used: nat)
      returns (value: int, c: char, next: nat, k: nat)
    requires start <= |fmt| && Span(fmt[start..]) < |fmt[start..]|
    ensures start < next <= |fmt|
    ensures var f := fmt[start..];
            value == Number(f[..Span(f)], args, used, 0) && k == used + Stars(f[..Span(f)])
            && f[Span(f)..] == [c] + fmt[next..]
  {
    ghost var f := fmt[start..];
    value, next, k := 0, start, used;
    while true
      invariant start <= next <= start + Span(f)
      invariant value == Number(f[..next - start], args, used, 0) && k == used + Stars(f[..next - start])
      decreases |fmt| - next
    {
      c := fmt[next];
      assert c == f[next - start];
      next := next + 1;
      if '0' <= c <= '9' {
        value := value * 10 + (c as int - '0' as int);
      } else if c == '*' {
        value := value * 10 + ToChar(IntAt(args, k)) as int;
        k := k + 1;
      } else {
        break;
      }
      NumberAppend(f[..next - 1 - start], c, args, used, 0);
      assert f[..next - start] == f[..next - 1 - start] + [c];
    }
    assert f[next - 1 - start..] == [c] + fmt[next..];
  }

  /** The conversion of a signed number in the scratch buffer. Negating the least `int` leaves it as it
      is, which the unsigned division reads as its magnitude. */
  method PutSigned(tmp: array<char>, v: int) returns (p: nat)
    requires tmp.Length == 2 * MAX_FILLER + 1 && IsLong(v)
    modifies tmp
    ensures p <= tmp.Length && tmp[..p] == Decimal(v)
  {
    hide Digits, Length;
    var l := v;
    p := 0;
    if l < 0 {
      tmp[p] := '-';
      p := p + 1;
      l := if l == -0x8000_0000 then l else -l;
      assert Unsigned(l) == -v;
    }
    var start := p;
    ghost var sign := tmp[..start];
    p := LongToString(tmp, p, l, 10, 0);
    assert tmp[..p] == sign + tmp[start..p];
  }

  method PutUnsigned(tmp: array<char>, v: int, radix: int) returns (p: nat)
    requires tmp.Length == 2 * MAX_FILLER + 1 && IsLong(v) && IsRadix(radix)
    modifies tmp
    ensures p <= tmp.Length && tmp[..p] == Numeral(Unsigned(v), radix)
  {
    p := LongToString(tmp, 0, v, radix, 0);
    assert tmp[..p] == tmp[0..p];
  }

  method PutReal(tmp: array<char>, r: real) returns (p: nat)
    requires tmp.Length == 2 * MAX_FILLER + 1 && -2147483648.0 < r < 2147483648.0
    modifies tmp
    ensures p <= tmp.Length && tmp[..p] == if r < 0.0 then "-" + Fixed(-r) else Fixed(r)
  {
    hide Digits, Length;
    var f := r;
    p := 0;
    if f < 0.0 {
      tmp[p] := '-';
      p := p + 1;
      f := -f;
    }
    var start := p;
    ghost var sign := tmp[..start];
    FloatScratchIsTight(f);
    p := Ftoa(tmp, p, f);
    assert tmp[..p] == tmp[..start] + tmp[start..p];
  }

  /** The length of a string cut at a precision: the loop over `p`. */
  method CutLength(s: string, precision: int) returns (p: nat)
    ensures p <= |s| && s[..p] == Cut(UpToNul(s), precision)
  {
    var left := if precision == 0 then MAX_PRECISION else precision;
    p := 0;
    while p < |s| && s[p] != '\0' && left > 0
      invariant p <= |UpToNul(s)|
      invariant left == (if precision == 0 then MAX_PRECISION else precision) - p
      invariant p == 0 || left >= 0
    {
      left := left - 1;
      p := p + 1;
    }
  }

  /** The switch over the conversion character. */
  method Convert(tmp: array<char>, conv: char, precision: int, args: seq<Arg>, k: nat)
      returns (body: string, used: nat)
    requires tmp.Length == 2 * MAX_FILLER + 1
    modifies tmp
    ensures body == Body(conv, precision, args, k) && used == k + if TakesArg(conv) then 1 else 0
  {
    hide Decimal, Numeral, Fixed, Cut, UpToNul, Unsigned, IntAt, TextAt, RealAt;
    used := k + 1;
    var p := 0;
    if conv == 'c' {
      tmp[0] := ToChar(IntAt(args, k));
      p := 1;
    } else if conv == 's' {
      var s := TextAt(args, k);
      p := CutLength(s, precision);
      return s[..p], used;
    } else if conv == 'D' || conv == 'd' {
      p := PutSigned(tmp, IntAt(args, k));
    } else if conv == 'f' {
      p := PutReal(tmp, RealAt(args, k));
    } else if conv == 'X' || conv == 'x' {
      p := PutUnsigned(tmp, IntAt(args, k), 16);
    } else if conv == 'U' || conv == 'u' {
      p := PutUnsigned(tmp, IntAt(args, k), 10);
    } else if conv == 'O' || conv == 'o' {
      p := PutUnsigned(tmp, IntAt(args, k), 8);
    } else {
      tmp[0] := conv;
      p := 1;
      used := k;
    }
    body := tmp[..p];
  }

  lemma RepeatMore(prefix: string, c: char, n: nat)
    ensures prefix + Repeat(c, n) + [c] == prefix + Repeat(c, n + 1)
  {
  }

  lemma TakeMore(prefix: string, s: string, j: nat, k: nat)
    requires j <= k < |s|
    ensures prefix + s[j..k] + [s[k]] == prefix + s[j..k + 1]
  {
  }

  /** The filler before the body of a field aligned to the right, and the sign that goes before a zero
      filler: `width` is counted up from its negative. */
  method EmitPadding(body: string, fieldWidth: int, filler: char) returns (out: string, s: nat)
    requires fieldWidth < 0
    ensures s <= |body|
    ensures s == if Starts(body, '-') && filler == '0' then 1 else 0
    ensures out == body[..s] + Repeat(filler, -fieldWidth)
  {
    var width := fieldWidth;
    out, s := "", 0;
    if |body| > 0 && body[s] == '-' && filler == '0' {
      out := out + [body[s]];
      s := s + 1;
    }
    assert body[..s] + Repeat(filler, 0) == out;
    while width != 0
      invariant fieldWidth <= width <= 0 && out == body[..s] + Repeat(filler, width - fieldWidth)
    {
      RepeatMore(body[..s], filler, width - fieldWidth);
      out := out + [filler];
      width := width + 1;
    }
  }

  /** The output of one field. */
  method Emit(body: string, fieldWidth: int, zero: bool, left: bool) returns (out: string)
    ensures out == Layout(body, fieldWidth, zero, left)
  {
    var filler := if zero then '0' else ' ';
    var width := fieldWidth - |body|;
    if width < 0 {
      width := 0;
    }
    if !left {
      width := -width;
    }
    out := "";
    var s: nat := 0;
    if width < 0 {
      out, s := EmitPadding(body, width, filler);
      width := 0;
    }
    ghost var prefix, first := out, s;
    assert prefix + body[first..first] == out;
    var i := |body| - s;
    while i > 0
      invariant first <= s <= |body| && i == |body| - s
      invariant out == prefix + body[first..s]
    {
      TakeMore(prefix, body, first, s);
      out := out + [body[s]];
      s := s + 1;
      i := i - 1;
    }
    ghost var done, w := out, width;
    assert done + Repeat(filler, 0) == out;
    while width != 0
      invariant 0 <= width <= w && out == done + Repeat(filler, w - width)
    {
      RepeatMore(done, filler, w - width);
      out := out + [filler];
      width := width - 1;
    }
    LayoutIs(body, fieldWidth, zero, left, first, out);
  }

  lemma LayoutIs(body: string, width: int, zero: bool, left: bool, s: nat, out: string)
    requires s <= |body|
    requires var pad := if width > |body| then width - |body| else 0;
             var filler := Repeat(if zero then '0' else ' ', pad);
             if left || pad == 0 then s == 0 && out == [] + body[0..|body|] + filler
             else s == (if Starts(body, '-') && zero then 1 else 0) && out == body[..s] + filler + body[s..|body|] + []
    ensures out == Layout(body, width, zero, left)
  {
  }

  method ReadFlags(fmt: string, start: nat) returns (left: bool, zero: bool, next: nat)
    requires start <= |fmt|
    ensures start <= next <= |fmt| && ParseField(fmt[start..]) == ParseWidth(left, zero, fmt[next..])
  {
    hide ParseWidth;
    next := start;
    left := next < |fmt| && fmt[next] == '-';
    if left {
      next := next + 1;
      assert fmt[start..][1..] == fmt[next..];
    }
    ghost var f := fmt[next..];
    zero := next < |fmt| && fmt[next] == '.';
    if zero {
      next := next + 1;
      assert f[1..] == fmt[next..];
    }
  }

  /** Width and precision, up to the character `c` that follows them. */
  method ReadNumbers(fmt: string, start: nat, left: bool, zero: bool, args: seq<Arg>, used: nat)
      returns (width: int, precision: int, c: char, next: nat, k: nat,
               ghost w: string, ghost d: bool, ghost prec: string)
    requires start <= |fmt| && ParseWidth(left, zero, fmt[start..]).Some?
    ensures start < next <= |fmt|
    ensures ParseWidth(left, zero, fmt[start..]) == ParseConv(left, zero, w, d, prec, [c] + fmt[next..])
    ensures width == Number(w, args, used, 0) && precision == Number(prec, args, used + Stars(w), 0)
    ensures k == used + Stars(w) + Stars(prec)
  {
    hide Number, Stars, ParseConv, IsItem, Span, ParseDot, ParseWidth;
    ghost var f := fmt[start..];
    WidthThenDot(left, zero, f);
    width, c, next, k := ReadNumber(fmt, start, args, used) by { SomethingFollows(left, zero, f); }
    w := f[..Span(f)];
    Parts([c], fmt[next..]);
    DotThenConv(left, zero, w, c, fmt[next..]);
    d, prec, precision := c == '.', "", 0;
    NumberOfNothing(args, k);
    if c == '.' {
      ghost var g := fmt[next..];
      precision, c, next, k := ReadNumber(fmt, next, args, k) by {
        ConvNeedsText(left, zero, w, true, g[..Span(g)], g[Span(g)..]);
      }
      prec := g[..Span(g)];
    }
  }

  lemma WidthThenDot(left: bool, zero: bool, f: string)
    ensures ParseWidth(left, zero, f) == ParseDot(left, zero, f[..Span(f)], f[Span(f)..])
  {
  }

  lemma DotThenConv(left: bool, zero: bool, w: string, c: char, g: string)
    ensures ParseDot(left, zero, w, [c] + g)
            == if c == '.' then ParseConv(left, zero, w, true, g[..Span(g)], g[Span(g)..])
               else ParseConv(left, zero, w, false, "", [c] + g)
  {
    assert ([c] + g)[1..] == g;
  }

  lemma ConvNeedsText(left: bool, zero: bool, w: string, d: bool, prec: string, f: string)
    requires ParseConv(left, zero, w, d, prec, f).Some?
    ensures f != []
  {
  }

  lemma SomethingFollows(left: bool, zero: bool, f: string)
    requires ParseWidth(left, zero, f).Some?
    ensures Span(f) < |f|
  {
  }

  /** Flags, width, precision and conversion character of one directive, from after its percent sign. */
  method ReadDirective(fmt: string, start: nat, args: seq<Arg>, used: nat)
      returns (left: bool, zero: bool, width: int, precision: int, c: char, next: nat, k: nat)
    requires start <= |fmt| && ParseField(fmt[start..]).Some?
    ensures start < next <= |fmt|
    ensures var p := ParseField(fmt[start..]).value.0;
            ParseField(fmt[start..]).value.1 == fmt[next..]
            && p.left == left && p.zero == zero && p.conv == c
            && width == Number(p.width, args, used, 0)
            && precision == Number(p.precision, args, used + Stars(p.width), 0)
            && k == used + Stars(p.width) + Stars(p.precision)
  {
    hide Number, Stars, ParseField, ParseWidth;
    left, zero, next := ReadFlags(fmt, start);
    ghost var w, d, prec;
    width, precision, c, next, k, w, d, prec := ReadNumbers(fmt, next, left, zero, args, used);
    ghost var rest := fmt[next..];
    Parts([c], rest);
    if c == 'l' || c == 'L' {
      if next < |fmt| {
        c := fmt[next];
        next := next + 1;
        assert fmt[next..] == rest[1..];
      }
    }
  }

  lemma NumberOfNothing(args: seq<Arg>, k: nat)
    ensures Number("", args, k, 0) == 0 && Stars("") == 0
  {
  }

  /** One directive, with its output. */
  method Directive(fmt: string, start: nat, args: seq<Arg>, used: nat, tmp: array<char>)
      returns (out: string, next: nat, k: nat)
    requires start <= |fmt| && ParseField(fmt[start..]).Some? && tmp.Length == 2 * MAX_FILLER + 1
    modifies tmp
    ensures var r := ParseField(fmt[start..]).value;
            start < next <= |fmt| && fmt[next..] == r.1
            && out == RenderPiece(r.0, args, used) && k == used + Uses(r.0)
  {
    hide Body, Number, Stars, Layout, ParseField;
    var left, zero, width, precision, c, body;
    left, zero, width, precision, c, next, k := ReadDirective(fmt, start, args, used);
    body, k := Convert(tmp, c, precision, args, k);
    out := Emit(body, width, zero && c != 'c' && c != 's', left);
  }

  /** `chprintf`: the output is the format's pieces, rendered in order. */
  method Chprintf(fmt: string, args: seq<Arg>) returns (out: string)
    requires '\0' !in fmt && Parse(fmt).Some?
    ensures out == Render(Parse(fmt).value, args, 0)
  {
    hide RenderPiece, Render, ParseField;
    var tmp := new char[23];
    out := "";
    var pos, used := 0, 0;
    ghost var all := Render(Parse(fmt).value, args, 0);
    assert fmt[0..] == fmt;
    while pos < |fmt|
      invariant 0 <= pos <= |fmt| && 0 <= used && Parse(fmt[pos..]).Some?
      invariant all == out + Render(Parse(fmt[pos..]).value, args, used)
      decreases |fmt| - pos
    {
      ghost var f := fmt[pos..];
      assert f[1..] == fmt[pos + 1..];
      var c := fmt[pos];
      pos := pos + 1;
      if c != '%' {
        RenderCons(Literal(c), Parse(f[1..]).value, args, used);
        RenderLiteral(c, args, used);
        out := out + [c];
      } else {
        ghost var r := ParseField(f[1..]).value;
        RenderCons(r.0, Parse(r.1).value, args, used);
        var field;
        field, pos, used := Directive(fmt, pos, args, used, tmp);
        out := out + field;
      }
    }
    RenderNothing(args, used);
  }

  lemma RenderNothing(args: seq<Arg>, k: nat)
    ensures Render([], args, k) == []
  {
  }

  lemma RenderLiteral(c: char, args: seq<Arg>, k: nat)
    ensures RenderPiece(Literal(c), args, k) == [c] && Uses(Literal(c)) == 0
  {
  }

  lemma RenderCons(p: Piece, ps: seq<Piece>, args: seq<Arg>, k: nat)
    ensures Render([p] + ps, args, k) == RenderPiece(p, args, k) + Render(ps, args, k + Uses(p))
  {
    hide RenderPiece;
    assert ([p] + ps)[1..] == ps;
  }
}
