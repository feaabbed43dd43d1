/** The front end of the shell: the line editor `shellGetLine`, the tokenizer `_strtok` and the argument
    loop of `shell_thread` in `os/various/shell.c`. Characters are bytes; `char` is unsigned. */
module Shell {
  import opened Wrappers

  const NUL: int := 0
  const CTRL_D: int := 4
  const BACKSPACE: int := 8
  const RETURN: int := 13
  const SPACE: int := 32
  const SHELL_MAX_ARGUMENTS: int := 4

  /* ---------- the line editor ---------- */

  predicate Ends(c: int) { c == CTRL_D || c == RETURN }

  /** The keys before the first one that ends the line. */
  function KeysBeforeEnd(input: seq<int>): (n: nat)
    ensures n <= |input|
    ensures forall k :: 0 <= k < n ==> !Ends(input[k])
    ensures n < |input| ==> Ends(input[n])
    decreases |input|
  {
    if input == [] || Ends(input[0]) then 0 else 1 + KeysBeforeEnd(input[1..])
  }

  /** The keys that end a line are Ctrl-D (4) and return (13). */
  lemma LineEndsAt(input: seq<int>, n: nat)
    ensures n == KeysBeforeEnd(input) <==>
              && n <= |input| && (forall k :: 0 <= k < n ==> input[k] != 4 && input[k] != 13)
              && (n < |input| ==> input[n] == 4 || input[n] == 13)
  {
    var e := KeysBeforeEnd(input);
    assert e < n <= |input| ==> Ends(input[e]);
    assert n < e ==> !Ends(input[n]);
  }

  /** The line that keys make: a backspace takes back the last character, other control characters are
      skipped, and what no longer fits is dropped. */
  function Edited(keys: seq<int>, room: nat): (line: seq<int>)
    ensures |line| <= room
    ensures forall k :: 0 <= k < |line| ==> line[k] >= SPACE
    decreases |keys|
  {
    if keys == [] then []
    else
      var before := Edited(keys[..|keys| - 1], room);
      var c := keys[|keys| - 1];
      if c == BACKSPACE then (if before == [] then [] else before[..|before| - 1])
      else if c >= SPACE && |before| < room then before + [c]
      else before
  }

  /** A terminal line: its cells and its cursor. Printable characters overwrite, a backspace moves back. */
  datatype Screen = Screen(cells: seq<int>, cursor: nat)

  predicate ValidScreen(s: Screen) { s.cursor <= |s.cells| }

  function Show(s: Screen, c: int): (t: Screen)
    requires ValidScreen(s)
    ensures ValidScreen(t)
  {
    if c == BACKSPACE then s.(cursor := if s.cursor == 0 then 0 else s.cursor - 1)
    else Screen(s.cells[..s.cursor] + [c] + (if s.cursor < |s.cells| then s.cells[s.cursor + 1..] else []), s.cursor + 1)
  }

  function ShowAll(s: Screen, out: seq<int>): (t: Screen)
    requires ValidScreen(s)
    ensures ValidScreen(t)
    decreases |out|
  {
    if out == [] then s else Show(ShowAll(s, out[..|out| - 1]), out[|out| - 1])
  }

  /** The screen shows a line: the line up to the cursor and nothing but blanks behind it. */
  ghost predicate Shows(s: Screen, line: seq<int>) {
    && ValidScreen(s) && s.cursor == |line| && s.cells[..s.cursor] == line
    && forall k :: s.cursor <= k < |s.cells| ==> s.cells[k] == SPACE
  }

  const BLANK := Screen([], 0)

  lemma ShowMore(s: Screen, out: seq<int>, c: int)
    requires ValidScreen(s)
    ensures ShowAll(s, out + [c]) == Show(ShowAll(s, out), c)
  {
    assert (out + [c])[..|out|] == out;
  }

  lemma ShowErase(s: Screen, out: seq<int>, line: seq<int>)
    requires ValidScreen(s) && Shows(ShowAll(s, out), line) && line != []
    ensures Shows(ShowAll(s, out + [BACKSPACE] + [SPACE] + [BACKSPACE]), line[..|line| - 1])
  {
    hide Show, Shows;
    ShowMore(s, out, BACKSPACE);
    ShowMore(s, out + [BACKSPACE], SPACE);
    ShowMore(s, out + [BACKSPACE] + [SPACE], BACKSPACE);
    Erase(ShowAll(s, out), line);
  }

  lemma Erase(t: Screen, line: seq<int>)
    requires Shows(t, line) && line != []
    ensures Shows(Show(Show(Show(t, BACKSPACE), SPACE), BACKSPACE), line[..|line| - 1])
  {
    var n := t.cursor;
    var u := Show(t, BACKSPACE);
    assert u == Screen(t.cells, n - 1);
    var v := Show(u, SPACE);
    assert v.cells == t.cells[..n - 1] + [SPACE] + t.cells[n..];
    assert v.cursor == n;
    assert Show(v, BACKSPACE) == Screen(v.cells, n - 1);
    assert v.cells[..n - 1] == t.cells[..n][..n - 1] == line[..n - 1];
  }

  lemma ShowChar(s: Screen, out: seq<int>, line: seq<int>, c: int)
    requires ValidScreen(s) && Shows(ShowAll(s, out), line) && c >= SPACE
    ensures Shows(ShowAll(s, out + [c]), line + [c])
  {
    ShowMore(s, out, c);
  }

  /** What one more key does: a backspace (8) takes back the last character, a printable one (32 and more) is
      added while there is room, and anything else leaves the line as it is. */
  lemma EditedMore(keys: seq<int>, c: int, room: nat)
    ensures var before, after := Edited(keys, room), Edited(keys + [c], room);
            && (c == 8 && before == [] ==> after == [])
            && (c == 8 && before != [] ==> after == before[..|before| - 1])
            && (c != 8 && c < 32 ==> after == before)
            && (c >= 32 && |before| < room ==> after == before + [c])
            && (c >= 32 && |before| == room ==> after == before)
  {
    assert (keys + [c])[..|keys|] == keys;
  }

  lemma NothingTyped(room: nat)
    ensures Edited([], room) == [] && Shows(ShowAll(BLANK, []), [])
  {
  }

  /** `shellGetLine` on an input that ends with a reset of the channel. `stop` is its result; `echo` is
      what it has sent back before the final answer `tail`. Whatever is typed, the terminal shows the
      edited line, and after a return the buffer holds it as a string. */
  method GetLine(line: array<int>, input: seq<int>) returns (stop: bool, n: nat, echo: seq<int>, tail: seq<int>)
    requires line.Length >= 1
    modifies line
    ensures var e := KeysBeforeEnd(input);
            && n == |Edited(input[..e], line.Length - 1)| < line.Length
            && line[..n] == Edited(input[..e], line.Length - 1)
            && Shows(ShowAll(BLANK, echo), line[..n])
            && (!stop <==> e < |input| && input[e] == 13)
            && (!stop ==> line[n] == 0 && tail == [13, 10])
            && (stop ==> tail == if e < |input| then ['^' as int, 'D' as int] else [])
  {
    hide Edited, Shows, ShowAll, KeysBeforeEnd;
    n, echo, tail := 0, [], [];
    var i := 0;
    NothingTyped(line.Length - 1);
    while true
      invariant 0 <= i <= KeysBeforeEnd(input)
      invariant n == |Edited(input[..i], line.Length - 1)| && line[..n] == Edited(input[..i], line.Length - 1)
      invariant Shows(ShowAll(BLANK, echo), line[..n])
      invariant tail == []
      decreases |input| - i
    {
      if i == |input| {
        return true, n, echo, tail;
      }
      var c := input[i];
      if c == CTRL_D {
        tail := ['^' as int, 'D' as int];
        return true, n, echo, tail;
      }
      ghost var before := line[..n];
      if c != RETURN {
        assert input[..i + 1] == input[..i] + [c];
        EditedMore(input[..i], c, line.Length - 1);
      }
      i := i + 1;
      if c == BACKSPACE {
        if n != 0 {
          ShowErase(BLANK, echo, before);
          echo := echo + [c] + [SPACE] + [c];
          n := n - 1;
          assert line[..n] == before[..|before| - 1];
        }
        continue;
      }
      if c == RETURN {
        tail := [RETURN, 10];
        line[n] := NUL;
        assert line[..n] == before;
        return false, n, echo, tail;
      }
      if c < SPACE {
        continue;
      }
      if n < line.Length - 1 {
        ShowChar(BLANK, echo, before, c);
        echo := echo + [c];
        line[n] := c;
        n := n + 1;
        assert line[..n] == before + [c];
      }
    }
  }

  /* ---------- words ---------- */

  /** The delimiter string " \009" is a space, a terminator and the digit 9: an octal escape has no 9. */
  predicate IsDelim(c: int) { c == SPACE }

  /** The delimiters at the start of a text. */
  function Skip(s: seq<int>): (n: nat)
    ensures n <= |s|
    ensures forall k :: 0 <= k < n ==> IsDelim(s[k])
    ensures n < |s| ==> !IsDelim(s[n])
    decreases |s|
  {
    if s == [] || !IsDelim(s[0]) then 0 else 1 + Skip(s[1..])
  }

  /** The run of other characters at its start. */
  function RunLength(s: seq<int>): (n: nat)
    ensures n <= |s|
    ensures forall k :: 0 <= k < n ==> !IsDelim(s[k])
    ensures n < |s| ==> IsDelim(s[n])
    decreases |s|
  {
    if s == [] || IsDelim(s[0]) then 0 else 1 + RunLength(s[1..])
  }

  /** What is left of a text behind its delimiters, its first run, and what is left behind that. */
  function FromWord(s: seq<int>): (t: seq<int>)
    ensures |t| <= |s| && (t == [] || !IsDelim(t[0]))
  {
    s[Skip(s)..]
  }

  function FirstWord(t: seq<int>): seq<int> { t[..RunLength(t)] }

  function AfterWord(t: seq<int>): (u: seq<int>)
    ensures t != [] && !IsDelim(t[0]) ==> |u| < |t|
    ensures u == [] || IsDelim(u[0])
  {
    t[RunLength(t)..]
  }

  /** The maximal runs of characters that are not delimiters, in order. */
  function Words(s: seq<int>): seq<seq<int>>
    decreases |s|
  {
    var t := FromWord(s);
    if t == [] then [] else [FirstWord(t)] + Words(AfterWord(t))
  }

  ghost predicate AllDelims(s: seq<int>) { forall k :: 0 <= k < |s| ==> IsDelim(s[k]) }

  ghost predicate IsWord(w: seq<int>) { w != [] && forall k :: 0 <= k < |w| ==> !IsDelim(w[k]) }

  /** Words set apart by gaps, with one gap before them and one behind. */
  function Spread(ws: seq<seq<int>>, gaps: seq<seq<int>>): seq<int>
    requires |gaps| == |ws| + 1
    decreases |ws|
  {
    if ws == [] then gaps[0] else gaps[0] + (ws[0] + Spread(ws[1..], gaps[1..]))
  }

  ghost predicate Separated(ws: seq<seq<int>>, gaps: seq<seq<int>>) {
    && |gaps| == |ws| + 1
    && (forall k :: 0 <= k < |ws| ==> IsWord(ws[k]))
    && (forall k :: 0 <= k < |gaps| ==> AllDelims(gaps[k]))
    && (forall k :: 1 <= k < |ws| ==> gaps[k] != [])
  }

  lemma {:induction false} SkipIs(g: seq<int>, t: seq<int>)
    requires AllDelims(g) && (t == [] || !IsDelim(t[0]))
    ensures Skip(g + t) == |g|
    decreases |g|
  {
    if g == [] {
      assert g + t == t;
    } else {
      assert (g + t)[1..] == g[1..] + t;
      SkipIs(g[1..], t);
    }
  }

  lemma {:induction false} RunIs(w: seq<int>, t: seq<int>)
    requires (forall k :: 0 <= k < |w| ==> !IsDelim(w[k])) && (t == [] || IsDelim(t[0]))
    ensures RunLength(w + t) == |w|
    decreases |w|
  {
    if w == [] {
      assert w + t == t;
    } else {
      assert (w + t)[1..] == w[1..] + t;
      RunIs(w[1..], t);
    }
  }

  lemma WordsCons(g: seq<int>, w: seq<int>, t: seq<int>)
    requires AllDelims(g) && IsWord(w) && (t == [] || IsDelim(t[0]))
    ensures Words(g + (w + t)) == [w] + Words(t)
  {
    SkipIs(g, w + t);
    RunIs(w, t);
    assert (g + (w + t))[|g|..] == w + t;
    assert (w + t)[..|w|] == w && (w + t)[|w|..] == t;
  }

  lemma WordsOfGap(g: seq<int>)
    requires AllDelims(g)
    ensures Words(g) == []
  {
    assert g + [] == g;
    SkipIs(g, []);
  }

  lemma SpreadStart(ws: seq<seq<int>>, gaps: seq<seq<int>>)
    requires Separated(ws, gaps) && (ws != [] ==> gaps[0] != [])
    ensures Spread(ws, gaps) == [] || IsDelim(Spread(ws, gaps)[0])
  {
  }

  /** Words are found again whatever delimiters stand between them. */
  lemma {:induction false} WordsOfSpread(ws: seq<seq<int>>, gaps: seq<seq<int>>)
    requires Separated(ws, gaps)
    ensures Words(Spread(ws, gaps)) == ws
    decreases |ws|
  {
    if ws == [] {
      WordsOfGap(gaps[0]);
    } else {
      assert Separated(ws[1..], gaps[1..]);
      SpreadStart(ws[1..], gaps[1..]);
      WordsCons(gaps[0], ws[0], Spread(ws[1..], gaps[1..]));
      WordsOfSpread(ws[1..], gaps[1..]);
    }
  }

  /** The gaps of a text. */
  function Gaps(s: seq<int>): seq<seq<int>>
    decreases |s|
  {
    var t := FromWord(s);
    [s[..Skip(s)]] + if t == [] then [] else Gaps(AfterWord(t))
  }

  /** And every text is its words set apart by its gaps: the words are its maximal runs. */
  lemma {:induction false} SpreadOfWords(s: seq<int>)
    ensures Separated(Words(s), Gaps(s))
    ensures Spread(Words(s), Gaps(s)) == s
    ensures s != [] && IsDelim(s[0]) ==> Gaps(s)[0] != []
    decreases |s|
  {
    hide Skip, RunLength, Spread, Separated;
    var g, t := s[..Skip(s)], FromWord(s);
    GapAt(s);
    if t != [] {
      var w, u := FirstWord(t), AfterWord(t);
      WordAt(t);
      SpreadOfWords(u);
      SeparatedCons(g, w, Words(u), Gaps(u), u);
      SpreadCons(g, w, Words(u), Gaps(u));
    } else {
      assert Words(s) == [] && Gaps(s) == [g];
      SpreadOfGap(g);
    }
  }

  lemma GapAt(s: seq<int>)
    ensures AllDelims(s[..Skip(s)]) && s == s[..Skip(s)] + FromWord(s)
    ensures s != [] && IsDelim(s[0]) ==> s[..Skip(s)] != []
  {
    hide Skip;
    var n := Skip(s);
    assert n == 0 && s != [] ==> !IsDelim(s[n]);
    Halves(s, n);
  }

  lemma Halves(s: seq<int>, n: nat)
    requires n <= |s|
    ensures s == s[..n] + s[n..]
  {
  }

  lemma WordAt(t: seq<int>)
    requires t != [] && !IsDelim(t[0])
    ensures IsWord(FirstWord(t)) && t == FirstWord(t) + AfterWord(t)
  {
    hide RunLength;
  }

  lemma SpreadOfGap(g: seq<int>)
    requires AllDelims(g)
    ensures Separated([], [g]) && Spread([], [g]) == g
  {
  }

  lemma SpreadCons(g: seq<int>, w: seq<int>, ws: seq<seq<int>>, gaps: seq<seq<int>>)
    requires |gaps| == |ws| + 1
    ensures Spread([w] + ws, [g] + gaps) == g + (w + Spread(ws, gaps))
  {
    assert ([w] + ws)[1..] == ws && ([g] + gaps)[1..] == gaps;
  }

  lemma SeparatedCons(g: seq<int>, w: seq<int>, ws: seq<seq<int>>, gaps: seq<seq<int>>, u: seq<int>)
    requires AllDelims(g) && IsWord(w) && Separated(ws, gaps) && Spread(ws, gaps) == u
    requires (u == [] || IsDelim(u[0])) && (u != [] && IsDelim(u[0]) ==> gaps[0] != [])
    ensures Separated([w] + ws, [g] + gaps)
  {
  }

  /* ---------- the tokenizer ---------- */

  /** The C string `w` stands at place `p` of a buffer. */
  ghost predicate Holds(s: seq<int>, p: nat, w: seq<int>) {
    p + |w| < |s| && s[p..p + |w|] == w && s[p + |w|] == 0 && 0 !in w
  }

  /** The text that is left to be tokenized. */
  ghost predicate Left(s: seq<int>, from: Option<nat>, end: nat) {
    && end < |s| && s[end] == NUL
    && (from.Some? ==> from.value <= end && forall k :: from.value <= k < end ==> s[k] != NUL)
  }

  ghost function LeftWords(s: seq<int>, from: Option<nat>, end: nat): seq<seq<int>>
    requires Left(s, from, end)
  {
    if from.None? then [] else Words(s[from.value..end])
  }

  /** `strspn` and `strpbrk` over the delimiters, up to the terminator. */
  method Span(line: array<int>, p: nat, ghost end: nat) returns (q: nat)
    requires Left(line[..], Some(p), end)
    ensures q == p + Skip(line[p..end])
  {
    q := p;
    while IsDelim(line[q])
      invariant p <= q <= end && q - p <= Skip(line[p..end])
      decreases end - q
    {
      assert line[q] == line[p..end][q - p];
      q := q + 1;
    }
    assert q < end ==> line[q] == line[p..end][q - p];
  }

  method Break(line: array<int>, p: nat, ghost end: nat) returns (q: nat)
    requires Left(line[..], Some(p), end)
    ensures q == p + RunLength(line[p..end])
  {
    q := p;
    while line[q] != NUL && !IsDelim(line[q])
      invariant p <= q <= end && q - p <= RunLength(line[p..end])
      decreases end - q
    {
      assert line[q] == line[p..end][q - p];
      q := q + 1;
    }
    assert q < end ==> line[q] == line[p..end][q - p];
  }

  /** The delimiter behind a word becomes its terminator; at the end of the text nothing is written. */
  method Terminate(line: array<int>, q: nat, ghost end: nat) returns (save: Option<nat>)
    requires Left(line[..], Some(q), end) && (q < end ==> IsDelim(line[q]))
    modifies line
    ensures save == if q < end then Some(q + 1) else None
    ensures line[q] == NUL && forall k :: 0 <= k < line.Length && k != q ==> line[k] == old(line[k])
    ensures Left(line[..], save, end) && LeftWords(line[..], save, end) == old(Words(line[q..end]))
  {
    hide Words;
    save := None;
    if line[q] != NUL {
      ghost var rest := line[q + 1..end];
      assert line[q..end] == [line[q]] + rest;
      DelimSkipped(line[q], rest);
      line[q] := NUL;
      save := Some(q + 1);
      assert line[q + 1..end] == rest == line[..][q + 1..end];
    } else {
      assert line[q..end] == [];
      WordsStep([]);
    }
  }

  /** `_strtok`, after `str` or the saved place: the next word is terminated in place, and only the one
      delimiter behind it is overwritten. */
  method StrTok(line: array<int>, from: Option<nat>, ghost end: nat) returns (token: Option<nat>, save: Option<nat>)
    requires Left(line[..], from, end)
    modifies line
    ensures Left(line[..], save, end)
    ensures var ws := old(LeftWords(line[..], from, end));
            && (ws == [] ==> token == None && save == None && line[..] == old(line[..]))
            && (ws != [] ==>
                  && token.Some? && from.Some? && from.value <= token.value
                  && Holds(line[..], token.value, ws[0])
                  && LeftWords(line[..], save, end) == ws[1..]
                  && (save.Some? ==> token.value + |ws[0]| < save.value)
                  && forall k :: 0 <= k < line.Length && k != token.value + |ws[0]| ==> line[k] == old(line[k]))
  {
    if from.None? {
      return None, None;
    }
    assert line[..][from.value..end] == line[from.value..end];
    hide Words;
    token, save := NextToken(line, from.value, end);
  }

  method NextToken(line: array<int>, from: nat, ghost end: nat) returns (token: Option<nat>, save: Option<nat>)
    requires Left(line[..], Some(from), end)
    modifies line
    ensures Left(line[..], save, end)
    ensures old(Words(line[from..end])) == [] ==> token == None && save == None && line[..] == old(line[..])
    ensures var ws := old(Words(line[from..end]));
            ws != [] ==>
              && token.Some? && from <= token.value
              && Holds(line[..], token.value, ws[0])
              && LeftWords(line[..], save, end) == ws[1..]
              && (save.Some? ==> token.value + |ws[0]| < save.value)
              && forall k :: 0 <= k < line.Length && k != token.value + |ws[0]| ==> line[k] == old(line[k])
  {
    hide Words, Skip, RunLength, Holds, LeftWords;
    ghost var s := line[..];
    assert s[from..end] == line[from..end];
    var p := Span(line, from, end);
    assert s[p..end] == line[p..end];
    var q := Break(line, p, end);
    NextWord(s, from, end, p, q);
    assert s[q..end] == line[q..end];
    save := Terminate(line, q, end);
    assert line[..][p..q] == s[p..q];
    WordHeld(line[..], p, q, s[p..q]);
    token := if line[p] != NUL then Some(p) else None;
  }

  /** Where the two scans stop. */
  lemma NextWord(s: seq<int>, from: nat, end: nat, p: nat, q: nat)
    requires Left(s, Some(from), end)
    requires p == from + Skip(s[from..end]) && q == p + RunLength(s[p..end])
    ensures from <= p <= q <= end && (q < end ==> IsDelim(s[q])) && NUL !in s[p..q]
    ensures p == q <==> p == end
    ensures Words(s[from..end]) == if p == end then [] else [s[p..q]] + Words(s[q..end])
  {
    hide Words, Skip, RunLength;
    RunBounds(s, from, end, p, q);
    NoNul(s, from, end, p, q);
    var text := s[from..end];
    var t := FromWord(text);
    assert t == s[p..end] by { SliceOfSlice(s, from, end, p - from); }
    assert FirstWord(t) == s[p..q] && AfterWord(t) == s[q..end] by { SliceOfSlice(s, p, end, q - p); }
    hide FromWord, FirstWord, AfterWord;
    WordsStep(text);
    assert t == [] <==> p == end;
  }

  lemma RunBounds(s: seq<int>, from: nat, end: nat, p: nat, q: nat)
    requires from <= end < |s|
    requires p == from + Skip(s[from..end]) && p <= end && q == p + RunLength(s[p..end])
    ensures q <= end && (q < end ==> IsDelim(s[q])) && (p == q <==> p == end)
  {
    hide Skip, RunLength;
    var text, t := s[from..end], s[p..end];
    assert p < end ==> !IsDelim(text[p - from]) && text[p - from] == s[p] == t[0];
    assert q < end ==> IsDelim(t[q - p]) && t[q - p] == s[q];
  }

  lemma NoNul(s: seq<int>, from: nat, end: nat, p: nat, q: nat)
    requires Left(s, Some(from), end) && from <= p <= q <= end
    ensures NUL !in s[p..q]
  {
  }

  lemma SliceOfSlice(s: seq<int>, a: nat, b: nat, i: nat)
    requires a <= b <= |s| && a + i <= b
    ensures s[a..b][i..] == s[a + i..b] && s[a..b][..i] == s[a..a + i]
  {
  }

  lemma WordHeld(s: seq<int>, p: nat, q: nat, w: seq<int>)
    requires p <= q < |s| && s[p..q] == w && s[q] == NUL && NUL !in w
    ensures Holds(s, p, w)
  {
  }

  lemma WordsStep(s: seq<int>)
    ensures var t := FromWord(s);
            Words(s) == if t == [] then [] else [FirstWord(t)] + Words(AfterWord(t))
    ensures FromWord([]) == []
  {
  }

  lemma DelimSkipped(d: int, s: seq<int>)
    requires IsDelim(d)
    ensures Words([d] + s) == Words(s)
  {
    assert ([d] + s)[1..] == s;
    assert FromWord([d] + s) == FromWord(s);
  }

  /* ---------- the argument loop ---------- */

  /** The pointer `p` shows the word `w`, before the place from where the tokenizer goes on. */
  ghost predicate Points(s: seq<int>, p: Option<nat>, w: seq<int>, save: Option<nat>) {
    p.Some? && Holds(s, p.value, w) && (save.Some? ==> p.value + |w| < save.value)
  }

  /** Pointers to the words `ws[1..]`, as many as there are. */
  ghost predicate PointAll(s: seq<int>, args: seq<Option<nat>>, ws: seq<seq<int>>, save: Option<nat>) {
    |args| < |ws| && forall k :: 0 <= k < |args| ==> Points(s, args[k], ws[k + 1], save)
  }

  /** What one more token leaves of the pointers before it. */
  ghost predicate Later(s: seq<int>, t: seq<int>, save: Option<nat>, next: Option<nat>) {
    && |s| == |t|
    && (save.None? ==> s == t && next.None?)
    && (save.Some? ==> (forall k :: 0 <= k < |s| && k < save.value ==> t[k] == s[k])
                       && (next.Some? ==> save.value <= next.value))
  }

  lemma PointsLater(s: seq<int>, t: seq<int>, p: Option<nat>, w: seq<int>, save: Option<nat>, next: Option<nat>)
    requires Points(s, p, w, save) && Later(s, t, save, next)
    ensures Points(t, p, w, next)
  {
    if save.Some? {
      assert t[p.value..p.value + |w|] == s[p.value..p.value + |w|];
    }
  }

  lemma PointAllLater(s: seq<int>, t: seq<int>, args: seq<Option<nat>>, ws: seq<seq<int>>,
                      save: Option<nat>, next: Option<nat>)
    requires PointAll(s, args, ws, save) && Later(s, t, save, next)
    ensures PointAll(t, args, ws, next)
  {
    forall k | 0 <= k < |args|
      ensures Points(t, args[k], ws[k + 1], next)
    {
      PointsLater(s, t, args[k], ws[k + 1], save, next);
    }
  }

  /** One call of the tokenizer, in the terms of the argument loop. */
  method NextArgument(line: array<int>, save: Option<nat>, ghost end: nat)
      returns (token: Option<nat>, next: Option<nat>)
    requires Left(line[..], save, end)
    modifies line
    ensures Left(line[..], next, end) && Later(old(line[..]), line[..], save, next)
    ensures var ws := old(LeftWords(line[..], save, end));
            && (token == None <==> ws == [])
            && LeftWords(line[..], next, end) == (if ws == [] then [] else ws[1..])
            && (ws != [] ==> Points(line[..], token, ws[0], next))
  {
    hide Words, Holds;
    token, next := StrTok(line, save, end);
  }

  /** The argument loop of `shell_thread` on a line of `n` characters. For every line, the command and its
      arguments are the words of the line, none damaged by the terminators written later; a command with
      more than four arguments is dropped; and the closing null pointer stays inside the vector. */
  method ParseArguments(line: array<int>, n: nat) returns (cmd: Option<nat>, args: array<Option<nat>>, count: nat)
    requires Left(line[..], Some(0), n)
    modifies line
    ensures args.Length == SHELL_MAX_ARGUMENTS + 1 && count < args.Length && args[count] == None
    ensures var ws := old(Words(line[..n]));
            && (ws == [] ==> cmd == None && count == 0)
            && (ws != [] ==> PointAll(line[..], args[..count], ws, None))
            && (0 < |ws| <= SHELL_MAX_ARGUMENTS + 1 ==> count == |ws| - 1 && Points(line[..], cmd, ws[0], None))
            && (|ws| > SHELL_MAX_ARGUMENTS + 1 ==> count == SHELL_MAX_ARGUMENTS && cmd == None)
  {
    hide Words, LeftWords, Later, Points;
    args := new Option<nat>[SHELL_MAX_ARGUMENTS + 1](_ => None);
    ghost var ws := Words(line[..n]);
    WholeLine(line[..], n);
    var save;
    cmd, save := NextArgument(line, Some(0), n);
    count := 0;
    while true
      invariant 0 <= count <= SHELL_MAX_ARGUMENTS && Left(line[..], save, n)
      invariant ws == [] ==> cmd == None && count == 0 && LeftWords(line[..], save, n) == []
      invariant ws != [] ==> count < |ws| && LeftWords(line[..], save, n) == ws[1 + count..]
      invariant ws != [] ==> Points(line[..], cmd, ws[0], save) && PointAll(line[..], args[..count], ws, save)
      decreases |LeftWords(line[..], save, n)|
    {
      ghost var s0, save0 := line[..], save;
      var lp;
      lp, save := NextArgument(line, save, n);
      if ws != [] {
        PointsLater(s0, line[..], cmd, ws[0], save0, save);
        PointAllLater(s0, line[..], args[..count], ws, save0, save);
      }
      if lp == None {
        break;
      }
      if count >= SHELL_MAX_ARGUMENTS {
        cmd := None;
        break;
      }
      args[count] := lp;
      count := count + 1;
      assert args[..count] == args[..count - 1] + [lp];
    }
    ghost var found := args[..count];
    args[count] := None;
    assert args[..count] == found;
    if ws != [] {
      PointAllLater(line[..], line[..], found, ws, save, None) by { AtTheEnd(line[..], save); }
      if cmd != None {
        PointsLater(line[..], line[..], cmd, ws[0], save, None) by { AtTheEnd(line[..], save); }
      }
    }
  }

  lemma AtTheEnd(s: seq<int>, save: Option<nat>)
    ensures Later(s, s, save, None)
  {
  }

  lemma WholeLine(s: seq<int>, n: nat)
    requires Left(s, Some(0), n)
    ensures LeftWords(s, Some(0), n) == Words(s[..n])
  {
    assert s[0..n] == s[..n];
  }

  const SHELL_MAX_LINE_LENGTH: int := 64

  /** One command from the channel, as `shell_thread` reads it into its line buffer. */
  method ReadCommand(input: seq<int>)
      returns (stop: bool, line: array<int>, cmd: Option<nat>, args: array<Option<nat>>, count: nat)
    ensures args.Length == 5 && count < args.Length && args[count] == None
    ensures var e := KeysBeforeEnd(input);
            var ws := Words(Edited(input[..e], 63));
            && (!stop <==> e < |input| && input[e] == 13)
            && (stop ==> cmd == None && count == 0)
            && (!stop && ws != [] ==> PointAll(line[..], args[..count], ws, None))
            && (!stop && 0 < |ws| <= 5 ==>
                  count == |ws| - 1 && Points(line[..], cmd, ws[0], None))
            && (!stop && (ws == [] || |ws| > 5) ==> cmd == None)
  {
    hide Words, Points, PointAll, Edited, Shows, ShowAll;
    line := new int[SHELL_MAX_LINE_LENGTH];
    var n, echo, tail;
    stop, n, echo, tail := GetLine(line, input);
    if stop {
      args := new Option<nat>[SHELL_MAX_ARGUMENTS + 1](_ => None);
      cmd, count := None, 0;
    } else {
      assert forall k :: 0 <= k < n ==> line[k] == line[..n][k];
      cmd, args, count := ParseArguments(line, n);
    }
  }

  /* ---------- what a user may rely on ---------- */

  /** Taking back a character undoes it exactly while the line has room; at a full line the character
      was never taken, and the backspace removes one that was. */
  lemma BackspaceUndoesIff(keys: seq<int>, c: int, room: nat)
    requires c >= SPACE && room > 0
    ensures Edited(keys + [c] + [BACKSPACE], room) == Edited(keys, room) <==> |Edited(keys, room)| < room
  {
    EditedMore(keys, c, room);
    EditedMore(keys + [c], BACKSPACE, room);
  }

  lemma {:induction false} EditedPlain(keys: seq<int>, room: nat)
    requires |keys| <= room && forall k :: 0 <= k < |keys| ==> keys[k] >= SPACE
    ensures Edited(keys, room) == keys
    decreases |keys|
  {
    if keys != [] {
      EditedPlain(keys[..|keys| - 1], room);
    }
  }

  /** Words typed with any number of spaces (32) around them arrive as they were typed. */
  lemma TypedWordsArrive(ws: seq<seq<int>>, gaps: seq<seq<int>>, room: nat)
    requires |gaps| == |ws| + 1 && |Spread(ws, gaps)| <= room
    requires forall k :: 0 <= k < |ws| ==> ws[k] != [] && forall j :: 0 <= j < |ws[k]| ==> ws[k][j] > 32
    requires forall k :: 0 <= k < |gaps| ==> forall j :: 0 <= j < |gaps[k]| ==> gaps[k][j] == 32
    requires forall k :: 1 <= k < |ws| ==> gaps[k] != []
    ensures Words(Edited(Spread(ws, gaps), room)) == ws
  {
    assert Separated(ws, gaps);
    SpreadIsPrintable(ws, gaps);
    EditedPlain(Spread(ws, gaps), room);
    WordsOfSpread(ws, gaps);
  }

  lemma {:induction false} SpreadIsPrintable(ws: seq<seq<int>>, gaps: seq<seq<int>>)
    requires |gaps| == |ws| + 1
    requires forall k :: 0 <= k < |ws| ==> forall j :: 0 <= j < |ws[k]| ==> ws[k][j] >= 32
    requires forall k :: 0 <= k < |gaps| ==> forall j :: 0 <= j < |gaps[k]| ==> gaps[k][j] >= 32
    ensures forall j :: 0 <= j < |Spread(ws, gaps)| ==> Spread(ws, gaps)[j] >= 32
    decreases |ws|
  {
    if ws != [] {
      SpreadIsPrintable(ws[1..], gaps[1..]);
    }
  }
}
