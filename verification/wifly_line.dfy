/** The line parser of the WiFly service: the byte at a time branch of `wifly_loop` in `serv_wifly.c`,
    against a description of what a line means. */
module WiflyLine {

  /** A value handed over by `sdGetTimeout`: a byte, or -1 when the queue was empty. */
  type Input = int

  const NEWLINE: int := 10
  const RETURN: int := 13
  const SPACE: int := 32
  const STAR: int := 42
  const HELLO: seq<int> := [42, 72, 69, 76, 76, 79, 42]
  const ID_SIZE: int := 16
  const ARGS_SIZE: int := 1024

  /** What the protocol callback returns; M_MESSAGE says that it has sent an answer of its own. */
  datatype Message = Ok | Error | Sent

  datatype Text = OverflowText | HelloText | OkText | ErrorText

  /** What the service does: calls the protocol callback, sends one of its fixed answers, empties the
      input queue. */
  datatype Effect = Call(id: seq<int>, args: seq<int>) | Send(text: Text) | Flush

  type Callback = (seq<int>, seq<int>) -> Message

  /** Assignment of an `int` to a `char`; -1 becomes 255. */
  function AsChar(x: Input): int { x % 256 }

  lemma AsCharIs(x: Input)
    requires -1 <= x < 256
    ensures AsChar(x) == if x == -1 then 255 else x
  {
  }

  /* ---------- what a line means ---------- */

  /** The characters of a line: carriage returns and newlines are skipped. */
  function Body(s: seq<Input>): seq<int>
    decreases |s|
  {
    if s == [] then []
    else
      var last := s[|s| - 1];
      if last == RETURN || last == NEWLINE then Body(s[..|s| - 1]) else Body(s[..|s| - 1]) + [AsChar(last)]
  }

  /** The length of what stands before the first space. */
  function WordLength(b: seq<int>): (n: nat)
    ensures n <= |b|
    ensures forall k :: 0 <= k < n ==> b[k] != SPACE
    ensures n < |b| ==> b[n] == SPACE
    decreases |b|
  {
    if b == [] || b[0] == SPACE then 0 else 1 + WordLength(b[1..])
  }

  function IdOf(b: seq<int>): seq<int> { b[..WordLength(b)] }

  /** Everything after the first space, further spaces included. */
  function ArgsOf(b: seq<int>): seq<int> {
    if WordLength(b) < |b| then b[WordLength(b) + 1..] else []
  }

  predicate TooLong(b: seq<int>) { |IdOf(b)| >= ID_SIZE || |ArgsOf(b)| >= ARGS_SIZE }

  /** The piece of input `s` ends here: with its newline, or because it no longer fits. */
  predicate Ends(s: seq<Input>) { s != [] && (s[|s| - 1] == NEWLINE || TooLong(Body(s))) }

  /** What a C string function sees of a buffer. */
  function CString(b: seq<int>): seq<int>
    decreases |b|
  {
    if b == [] || b[0] == 0 then [] else [b[0]] + CString(b[1..])
  }

  /** An identifier of the form *...*, longer than two characters. */
  predicate IsStatus(id: seq<int>) { |id| > 2 && id[0] == STAR && id[|id| - 1] == STAR }

  function Answer(m: Message): seq<Effect> {
    match m
    case Ok => [Send(OkText)]
    case Error => [Send(ErrorText)]
    case Sent => []
  }

  /** The effects of one piece of input. */
  function Meaning(cb: Callback, s: seq<Input>): seq<Effect> {
    var id, args := IdOf(Body(s)), ArgsOf(Body(s));
    if TooLong(Body(s)) then [Send(OverflowText), Flush]
    else if IsStatus(id) then [Send(if CString(id) == HELLO then HelloText else ErrorText)]
    else [Call(CString(id), CString(args))] + Answer(cb(CString(id), CString(args)))
  }

  /** The end of the first piece of `s`, looking from place `k` on; 0 when there is none. */
  function FirstEnd(s: seq<Input>, k: nat): (e: nat)
    requires 0 < k
    ensures e == 0 ==> forall j :: k <= j <= |s| ==> !Ends(s[..j])
    ensures e > 0 ==> k <= e <= |s| && Ends(s[..e]) && forall j :: k <= j < e ==> !Ends(s[..j])
    decreases |s| - k
  {
    if k > |s| then 0 else if Ends(s[..k]) then k else FirstEnd(s, k + 1)
  }

  /** The effects of an input stream: those of its pieces in order; what is left over waits. */
  function StreamMeaning(cb: Callback, s: seq<Input>): seq<Effect>
    decreases |s|
  {
    var e := FirstEnd(s, 1);
    if e == 0 then [] else Meaning(cb, s[..e]) + StreamMeaning(cb, s[e..])
  }

  /** The unfinished piece at the end of the stream. */
  function Rest(s: seq<Input>): seq<Input>
    decreases |s|
  {
    var e := FirstEnd(s, 1);
    if e == 0 then s else Rest(s[e..])
  }

  /* ---------- the parser ---------- */

  datatype Parser = Parser(id: seq<int>, args: seq<int>, readId: bool)

  const START := Parser([], [], true)

  predicate Valid(p: Parser) {
    |p.id| < ID_SIZE && |p.args| < ARGS_SIZE && (p.readId ==> p.args == [])
  }

  /** One value stored. */
  function Store(p: Parser, x: Input): Parser {
    if p.readId then
      if x == SPACE then p.(readId := false)
      else if x != RETURN && x != NEWLINE then p.(id := p.id + [AsChar(x)])
      else p
    else if x != RETURN && x != NEWLINE then p.(args := p.args + [AsChar(x)])
    else p
  }

  predicate Full(p: Parser) { |p.id| == ID_SIZE || |p.args| == ARGS_SIZE }

  function Dispatch(cb: Callback, p: Parser): seq<Effect> {
    if IsStatus(p.id) then [Send(if CString(p.id) == HELLO then HelloText else ErrorText)]
    else [Call(CString(p.id), CString(p.args))] + Answer(cb(CString(p.id), CString(p.args)))
  }

  function Next(p: Parser, x: Input): Parser {
    if Full(Store(p, x)) || x == NEWLINE then START else Store(p, x)
  }

  function Effects(cb: Callback, p: Parser, x: Input): seq<Effect> {
    if Full(Store(p, x)) then [Send(OverflowText), Flush]
    else if x == NEWLINE then Dispatch(cb, Store(p, x))
    else []
  }

  function Run(p: Parser, s: seq<Input>): Parser
    decreases |s|
  {
    if s == [] then p else Run(Next(p, s[0]), s[1..])
  }

  function RunEffects(cb: Callback, p: Parser, s: seq<Input>): seq<Effect>
    decreases |s|
  {
    if s == [] then [] else Effects(cb, p, s[0]) + RunEffects(cb, Next(p, s[0]), s[1..])
  }

  /* ---------- the parser says what lines mean ---------- */

  /** No piece of input has ended yet. */
  ghost predicate Open(s: seq<Input>) { forall k :: 0 < k <= |s| ==> !Ends(s[..k]) }

  function ParserOf(s: seq<Input>): Parser {
    Parser(IdOf(Body(s)), ArgsOf(Body(s)), WordLength(Body(s)) == |Body(s)|)
  }

  /** What `sdGetTimeout` can return. */
  ghost predicate Values(s: seq<Input>) { forall k :: 0 <= k < |s| ==> -1 <= s[k] < 256 }

  lemma {:induction false} WordLengthAppend(b: seq<int>, c: int)
    ensures WordLength(b + [c]) == if WordLength(b) < |b| || c == SPACE then WordLength(b) else |b| + 1
    decreases |b|
  {
    if b != [] && b[0] != SPACE {
      assert (b + [c])[1..] == b[1..] + [c];
      WordLengthAppend(b[1..], c);
    }
  }

  lemma BodyAppend(s: seq<Input>, x: Input)
    ensures Body(s + [x]) == if x == RETURN || x == NEWLINE then Body(s) else Body(s) + [AsChar(x)]
  {
    assert (s + [x])[..|s|] == s;
  }

  /** Storing a value is adding it to the line. */
  lemma StoreIsAppend(s: seq<Input>, x: Input)
    requires -1 <= x < 256
    ensures Store(ParserOf(s), x) == ParserOf(s + [x])
  {
    hide Body, WordLength;
    var b := Body(s);
    BodyAppend(s, x);
    if x != RETURN && x != NEWLINE {
      WordLengthAppend(b, AsChar(x));
      var n := WordLength(b);
      var c := b + [AsChar(x)];
      if n < |b| {
        assert c[..n] == b[..n];
        assert c[n + 1..] == b[n + 1..] + [AsChar(x)];
      } else if x == SPACE {
        assert c[..n] == b[..n] && c[n + 1..] == [];
      } else {
        assert c[..n + 1] == b[..n] + [AsChar(x)];
      }
    }
  }

  lemma OpenIsValid(s: seq<Input>)
    requires Open(s)
    ensures Valid(ParserOf(s))
  {
    if s != [] {
      assert s[..|s|] == s;
    }
  }

  lemma FullIffTooLong(s: seq<Input>, x: Input)
    requires Open(s) && -1 <= x < 256
    ensures Full(Store(ParserOf(s), x)) <==> TooLong(Body(s + [x]))
  {
    OpenIsValid(s);
    StoreIsAppend(s, x);
  }

  lemma FirstEndIs(s: seq<Input>, p: seq<Input>, k: nat)
    requires Open(p) && 0 < k <= |p| + 1 <= |s| && s[..|p|] == p && Ends(s[..|p| + 1])
    ensures FirstEnd(s, k) == |p| + 1
    decreases |p| + 1 - k
  {
    if k <= |p| {
      assert s[..k] == p[..k];
      FirstEndIs(s, p, k + 1);
    }
  }

  lemma FirstEndOfOpen(s: seq<Input>)
    requires Open(s)
    ensures FirstEnd(s, 1) == 0
  {
  }

  /** From an open piece `p` on: the parser does what the stream means, and ends with its rest. */
  lemma {:induction false} ParserRefinesFrom(cb: Callback, p: seq<Input>, s: seq<Input>)
    requires Open(p)
    requires Values(s)
    ensures RunEffects(cb, ParserOf(p), s) == StreamMeaning(cb, p + s)
    ensures Run(ParserOf(p), s) == ParserOf(Rest(p + s))
    decreases |s|
  {
    if s == [] {
      assert p + s == p;
      FirstEndOfOpen(p);
    } else {
      var x, tail := s[0], s[1..];
      var q := p + [x];
      assert q + tail == p + s;
      StoreIsAppend(p, x);
      FullIffTooLong(p, x);
      if Ends(q) {
        assert (p + s)[..|p| + 1] == q && (p + s)[..|p|] == p && (p + s)[|p| + 1..] == tail;
        FirstEndIs(p + s, p, 1);
        assert Open([]);
        assert ParserOf([]) == START;
        ParserRefinesFrom(cb, [], tail);
        assert [] + tail == tail;
      } else {
        assert Open(q) by {
          forall k | 0 < k <= |q|
            ensures !Ends(q[..k])
          {
            assert q[..k] == if k == |q| then q else p[..k];
          }
        }
        ParserRefinesFrom(cb, q, tail);
      }
    }
  }

  /** For every stream the callback calls and the answers of the service are those of its lines, and
      what it still holds is the unfinished rest. */
  lemma ParserRefinesLines(cb: Callback, s: seq<Input>)
    requires Values(s)
    ensures RunEffects(cb, START, s) == StreamMeaning(cb, s)
    ensures Run(START, s) == ParserOf(Rest(s))
    ensures Valid(Run(START, s))
  {
    assert Open([]);
    assert ParserOf([]) == START;
    ParserRefinesFrom(cb, [], s);
    assert [] + s == s;
    RestIsOpen(s);
    OpenIsValid(Rest(s));
  }

  lemma {:induction false} RestIsOpen(s: seq<Input>)
    ensures Open(Rest(s))
    decreases |s|
  {
    var e := FirstEnd(s, 1);
    if e > 0 {
      RestIsOpen(s[e..]);
    }
  }

  lemma {:induction false} CStringStops(b: seq<int>, n: nat)
    requires n < |b| && b[n] == 0
    ensures CString(b) == CString(b[..n])
    decreases n
  {
    if n > 0 && b[0] != 0 {
      CStringStops(b[1..], n - 1);
      assert b[..n][1..] == b[1..][..n - 1];
    }
  }

  /* ---------- round trip ---------- */

  /** Characters that stand for themselves inside a line. */
  ghost predicate Plain(w: seq<int>) {
    forall k :: 0 <= k < |w| ==> 0 < w[k] < 256 && w[k] != 13 && w[k] != 10
  }

  lemma {:induction false} PlainIsString(w: seq<int>)
    requires Plain(w)
    ensures CString(w) == w
    decreases |w|
  {
    if w != [] {
      PlainIsString(w[1..]);
    }
  }

  lemma {:induction false} ReadsId(cb: Callback, id: seq<int>, w: seq<int>, s: seq<Input>)
    requires Plain(w) && SPACE !in w && |id| + |w| < ID_SIZE
    ensures RunEffects(cb, Parser(id, [], true), w + s) == RunEffects(cb, Parser(id + w, [], true), s)
    decreases |w|
  {
    hide Dispatch, Values;
    if w == [] {
      assert w + s == s && id + w == id;
    } else {
      assert (w + s)[1..] == w[1..] + s && id + [w[0]] + w[1..] == id + w;
      ReadsId(cb, id + [w[0]], w[1..], s);
    }
  }

  lemma {:induction false} ReadsArgs(cb: Callback, id: seq<int>, args: seq<int>, w: seq<int>, s: seq<Input>)
    requires Plain(w) && |id| < ID_SIZE && |args| + |w| < ARGS_SIZE
    ensures RunEffects(cb, Parser(id, args, false), w + s) == RunEffects(cb, Parser(id, args + w, false), s)
    decreases |w|
  {
    hide Dispatch;
    if w == [] {
      assert w + s == s && args + w == args;
    } else {
      assert (w + s)[1..] == w[1..] + s && args + [w[0]] + w[1..] == args + w;
      ReadsArgs(cb, id, args + [w[0]], w[1..], s);
    }
  }

  lemma ReadsLine(cb: Callback, id: seq<int>, args: seq<int>, s: seq<Input>)
    requires Plain(id) && SPACE !in id && |id| < ID_SIZE
    requires Plain(args) && |args| < ARGS_SIZE
    ensures RunEffects(cb, START, id + ([SPACE] + (args + s))) == RunEffects(cb, Parser(id, args, false), s)
  {
    hide Dispatch, Plain;
    ReadsId(cb, [], id, [SPACE] + (args + s));
    assert [] + id == id && [] + args == args;
    assert ([SPACE] + (args + s))[1..] == args + s;
    ReadsArgs(cb, id, [], args, s);
  }

  lemma FourParts(a: seq<int>, b: seq<int>, c: seq<int>, d: seq<int>, e: seq<int>)
    ensures a + b + c + d + e == a + (b + (c + (d + e))) && a + b + e == a + (b + e)
  {
  }

  lemma ValuesOfParts(a: seq<int>, b: seq<int>)
    requires (Plain(a) || Values(a)) && (Plain(b) || Values(b))
    ensures Values(a + b)
  {
  }

  /** A command written as a line calls the callback with its own two words, whatever follows, and sends
      the answer that the callback's result asks for. */
  lemma CommandRoundTrip(cb: Callback, id: seq<int>, args: seq<int>, rest: seq<Input>)
    requires Plain(id) && 32 !in id && |id| < 16 && !(|id| > 2 && id[0] == 42 && id[|id| - 1] == 42)
    requires Plain(args) && |args| < 1024
    requires Values(rest)
    ensures var answer := match cb(id, args)
                          case Ok => [Send(OkText)]
                          case Error => [Send(ErrorText)]
                          case Sent => [];
            StreamMeaning(cb, id + [32] + args + [13, 10] + rest) == [Call(id, args)] + answer + StreamMeaning(cb, rest)
  {
    LineIs(cb, id, args, rest);
    PlainIsString(id);
    PlainIsString(args);
  }

  /** So does a single word, with no second one. */
  lemma WordRoundTrip(cb: Callback, id: seq<int>, rest: seq<Input>)
    requires Plain(id) && 32 !in id && |id| < 16 && !(|id| > 2 && id[0] == 42 && id[|id| - 1] == 42)
    requires Values(rest)
    ensures var answer := match cb(id, [])
                          case Ok => [Send(OkText)]
                          case Error => [Send(ErrorText)]
                          case Sent => [];
            StreamMeaning(cb, id + [13, 10] + rest) == [Call(id, [])] + answer + StreamMeaning(cb, rest)
  {
    WordIs(cb, id, rest);
    PlainIsString(id);
    PlainIsString([]);
  }

  /** A word between stars is a status: *HELLO* is returned, any other one is an error, and the callback is
      not asked. */
  lemma StatusRoundTrip(cb: Callback, id: seq<int>, args: seq<int>, rest: seq<Input>)
    requires Plain(id) && 32 !in id && 2 < |id| < 16 && id[0] == 42 && id[|id| - 1] == 42
    requires Plain(args) && |args| < 1024
    requires Values(rest)
    ensures var answer := [Send(if id == [42, 72, 69, 76, 76, 79, 42] then HelloText else ErrorText)];
            && StreamMeaning(cb, id + [32] + args + [13, 10] + rest) == answer + StreamMeaning(cb, rest)
            && StreamMeaning(cb, id + [13, 10] + rest) == answer + StreamMeaning(cb, rest)
  {
    LineIs(cb, id, args, rest);
    WordIs(cb, id, rest);
    PlainIsString(id);
  }

  /** A first word of sixteen characters is reported and forgotten, and the input queue emptied. */
  lemma LongWordOverflows(cb: Callback, id: seq<int>, last: int, rest: seq<Input>)
    requires Plain(id) && 32 !in id && |id| == 15 && Plain([last]) && last != 32
    requires Values(rest)
    ensures StreamMeaning(cb, id + [last] + rest) == [Send(OverflowText), Flush] + StreamMeaning(cb, rest)
  {
    hide StreamMeaning, RunEffects, Values;
    FillsBuffer(cb, Parser(id, [], true), last, rest);
    hide Plain;
    ValuesOfParts(id, [last]);
    ValuesOfParts(id + [last], rest);
    FourParts(id, [last], [], [], rest);
    ParserRefinesLines(cb, rest);
    ParserRefinesLines(cb, id + [last] + rest);
    assert [] + id == id;
    ReadsId(cb, [], id, [last] + rest);
  }

  /** So is a line with 1024 characters behind its first word. */
  lemma LongArgumentsOverflow(cb: Callback, id: seq<int>, args: seq<int>, last: int, rest: seq<Input>)
    requires Plain(id) && 32 !in id && |id| < 16 && Plain(args) && |args| == 1023 && Plain([last])
    requires Values(rest)
    ensures StreamMeaning(cb, id + [32] + args + [last] + rest) == [Send(OverflowText), Flush] + StreamMeaning(cb, rest)
  {
    hide StreamMeaning, RunEffects, Values;
    FillsBuffer(cb, Parser(id, args, false), last, rest);
    hide Plain;
    FourParts(id, [32], args, [last], rest);
    LineValues(id, args, [last], rest);
    ParserRefinesLines(cb, rest);
    ParserRefinesLines(cb, id + [32] + args + [last] + rest);
    ReadsLine(cb, id, args, [last] + rest);
  }

  lemma FillsBuffer(cb: Callback, p: Parser, last: int, rest: seq<Input>)
    requires Plain([last]) && (if p.readId then |p.id| == 15 && last != 32 else |p.args| == 1023)
    ensures RunEffects(cb, p, [last] + rest) == [Send(OverflowText), Flush] + RunEffects(cb, START, rest)
  {
    assert [last][0] == last && ([last] + rest)[1..] == rest;
  }

  lemma LineValues(id: seq<int>, args: seq<int>, end: seq<int>, rest: seq<int>)
    requires Plain(id) && Plain(args) && (Plain(end) || Values(end)) && Values(rest)
    ensures Values(id + [32] + args + end + rest)
  {
    ValuesOfParts(id, [32]);
    ValuesOfParts(id + [32], args);
    ValuesOfParts(id + [32] + args, end);
    ValuesOfParts(id + [32] + args + end, rest);
  }

  lemma LineIs(cb: Callback, id: seq<int>, args: seq<int>, rest: seq<Input>)
    requires Plain(id) && 32 !in id && |id| < 16 && Plain(args) && |args| < 1024 && Values(rest)
    ensures StreamMeaning(cb, id + [32] + args + [13, 10] + rest)
            == Dispatch(cb, Parser(id, args, false)) + StreamMeaning(cb, rest)
  {
    hide Dispatch, StreamMeaning, RunEffects, Plain;
    assert Values([13, 10]);
    hide Values;
    LineValues(id, args, [13, 10], rest);
    FourParts(id, [32], args, [13, 10], rest);
    ParserRefinesLines(cb, id + [32] + args + [13, 10] + rest);
    ParserRefinesLines(cb, rest);
    ReadsLine(cb, id, args, [13, 10] + rest);
    EndsLine(cb, Parser(id, args, false), rest);
  }

  lemma WordIs(cb: Callback, id: seq<int>, rest: seq<Input>)
    requires Plain(id) && 32 !in id && |id| < 16 && Values(rest)
    ensures StreamMeaning(cb, id + [13, 10] + rest) == Dispatch(cb, Parser(id, [], true)) + StreamMeaning(cb, rest)
  {
    hide Dispatch, StreamMeaning, RunEffects, Plain;
    assert Values([13, 10]);
    hide Values;
    ValuesOfParts(id, [13, 10]);
    ValuesOfParts(id + [13, 10], rest);
    FourParts(id, [13, 10], [], [], rest);
    ParserRefinesLines(cb, id + [13, 10] + rest);
    ParserRefinesLines(cb, rest);
    assert [] + id == id;
    ReadsId(cb, [], id, [13, 10] + rest);
    EndsLine(cb, Parser(id, [], true), rest);
  }

  lemma EndsLine(cb: Callback, p: Parser, rest: seq<Input>)
    requires Valid(p)
    ensures RunEffects(cb, p, [RETURN, NEWLINE] + rest) == Dispatch(cb, p) + RunEffects(cb, START, rest)
  {
    hide Dispatch;
    var end := [RETURN, NEWLINE] + rest;
    assert end[1..] == [NEWLINE] + rest && ([NEWLINE] + rest)[1..] == rest;
  }

  /** A C string function sees the characters before the first terminator. */
  lemma {:induction false} CStringIs(b: seq<int>)
    ensures var c := CString(b);
            c <= b && 0 !in c && (|c| < |b| ==> b[|c|] == 0)
    decreases |b|
  {
    if b != [] && b[0] != 0 {
      CStringIs(b[1..]);
    }
  }

  /* ---------- the loop ---------- */

  /** The locals of `wifly_loop`, and what it does to the outside. */
  class Service {
    const cb: Callback
    const id: array<int>
    const args: array<int>
    var i: int
    var j: int
    var readId: bool
    var log: seq<Effect>

    ghost predicate Valid()
      reads this, id, args
    {
      && id.Length == ID_SIZE && args.Length == ARGS_SIZE && id != args
      && 0 <= i < ID_SIZE && 0 <= j < ARGS_SIZE
      && (readId ==> j == 0)
    }

    ghost function Parsed(): Parser
      reads this, id, args
      requires Valid()
    {
      Parser(id[..i], args[..j], readId)
    }

    constructor (cb: Callback)
      ensures Valid() && Parsed() == START && log == [] && this.cb == cb
      ensures fresh(id) && fresh(args)
    {
      this.cb := cb;
      id := new int[16];
      args := new int[1024];
      i := 0;
      j := 0;
      readId := true;
      log := [];
    }

    /** One value is taken from the queue; `ended` says that it ends a piece of input. */
    method Take(x: Input) returns (ended: bool)
      requires Valid()
      modifies this, id, args
      ensures Valid()
      ensures Parsed() == Next(old(Parsed()), x)
      ensures log == old(log) + Effects(cb, old(Parsed()), x)
      ensures ended <==> Full(Store(old(Parsed()), x)) || x == NEWLINE
    {
      StoreValue(x);
      ended := i == 16 || j == 1024 || x == NEWLINE;
      if i == 16 || j == 1024 {
        log := log + [Send(OverflowText), Flush];
        i, j := 0, 0;
        readId := true;
      } else if x == NEWLINE {
        EndOfLine();
        i, j := 0, 0;
        readId := true;
      }
    }

    method StoreValue(x: Input)
      requires Valid()
      modifies this`i, this`j, this`readId, id, args
      ensures 0 <= i <= ID_SIZE && 0 <= j <= ARGS_SIZE
      ensures Parser(id[..i], args[..j], readId) == Store(old(Parsed()), x)
      ensures readId ==> j == 0
    {
      if readId {
        if x == SPACE {
          readId := false;
        } else if x != RETURN && x != NEWLINE {
          id[i] := AsChar(x);
          i := i + 1;
          assert id[..i] == old(id[..i]) + [AsChar(x)];
        }
      } else {
        if x != RETURN && x != NEWLINE {
          args[j] := AsChar(x);
          j := j + 1;
          assert args[..j] == old(args[..j]) + [AsChar(x)];
        }
      }
    }

    method EndOfLine()
      requires Valid()
      modifies this`log, id, args
      ensures log == old(log) + Dispatch(cb, old(Parsed()))
    {
      hide CString;
      id[i] := 0;
      args[j] := 0;
      assert id[..i] == old(id[..i]) && args[..j] == old(args[..j]);
      assert id[..][..i] == id[..i] && args[..][..j] == args[..j];
      CStringStops(id[..], i);
      CStringStops(args[..], j);
      if i > 2 && id[0] == STAR && id[i - 1] == STAR {
        if CString(id[..]) == HELLO {
          log := log + [Send(HelloText)];
        } else {
          log := log + [Send(ErrorText)];
        }
      } else {
        var ret := cb(CString(id[..]), CString(args[..]));
        log := log + [Call(CString(id[..]), CString(args[..]))];
        if ret == Ok {
          log := log + [Send(OkText)];
        } else if ret != Sent {
          log := log + [Send(ErrorText)];
        }
      }
    }

    /** The loop over a stream of values: from the start its effects are those of the lines. */
    method Serve(s: seq<Input>)
      requires Valid() && Parsed() == START
      requires Values(s)
      modifies this, id, args
      ensures Valid() && Parsed() == ParserOf(Rest(s))
      ensures log == old(log) + StreamMeaning(cb, s)
    {
      hide Effects, Next, Run, RunEffects, Values;
      ParserRefinesLines(cb, s);
      var n := 0;
      while n < |s|
        invariant 0 <= n <= |s| && Valid()
        invariant Run(Parsed(), s[n..]) == Run(START, s)
        invariant log + RunEffects(cb, Parsed(), s[n..]) == old(log) + RunEffects(cb, START, s)
      {
        RunFrom(cb, Parsed(), s, n);
        ghost var more := RunEffects(cb, Next(Parsed(), s[n]), s[n + 1..]);
        assert log + (Effects(cb, Parsed(), s[n]) + more) == log + Effects(cb, Parsed(), s[n]) + more;
        var _ := Take(s[n]);
        n := n + 1;
      }
      RunNone(cb, Parsed());
      assert s[|s|..] == [] && log + [] == log;
    }
  }

  lemma RunFrom(cb: Callback, p: Parser, s: seq<Input>, n: nat)
    requires n < |s|
    ensures Run(p, s[n..]) == Run(Next(p, s[n]), s[n + 1..])
    ensures RunEffects(cb, p, s[n..]) == Effects(cb, p, s[n]) + RunEffects(cb, Next(p, s[n]), s[n + 1..])
  {
    assert s[n..][1..] == s[n + 1..];
  }

  lemma RunNone(cb: Callback, p: Parser)
    ensures Run(p, []) == p && RunEffects(cb, p, []) == []
  {
  }
}
