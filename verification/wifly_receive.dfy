/** Reading one line from the WiFly service: `wifly_receive` in `serv_wifly.c`, for every schedule of
    arrivals, events and errors. */
module WiflyReceive {
  import opened WiflyLine

  datatype Status = Okay | Failed | Overflow | Timeout | Reset

  /** What one round of the waiting loop meets: no event within a second; or flags, of which those matter
      that say input is available and that the value exceeds 32, with what the queue then gives. */
  datatype Wakeup = NoEvent | Flags(input: bool, large: bool, got: Got)

  datatype Got = Byte(b: int) | Nothing

  /* ---------- the line in the bytes that arrive ---------- */

  /** The waiting loop goes round again without a byte. */
  predicate Idle(w: Wakeup) { w.Flags? && !w.input && !w.large }

  predicate Delivers(w: Wakeup) { w.Flags? && w.input && w.got.Byte? }

  /** The bytes that the wake-ups deliver before one of them ends the waiting. */
  function Delivered(later: seq<Wakeup>): seq<int>
    decreases |later|
  {
    if later == [] then []
    else if Idle(later[0]) then Delivered(later[1..])
    else if Delivers(later[0]) then [later[0].got.b] + Delivered(later[1..])
    else []
  }

  /** Why it ends. */
  function Cause(later: seq<Wakeup>): (s: Status)
    ensures s != Okay && s != Overflow
    decreases |later|
  {
    if later == [] || later[0].NoEvent? then Timeout
    else if Idle(later[0]) || Delivers(later[0]) then Cause(later[1..])
    else if later[0].input then Reset
    else Failed
  }

  /** The line is complete, or fills the buffer up to its terminator. */
  predicate Stops(s: seq<int>, maxL: int) {
    s != [] && (s[|s| - 1] == NEWLINE || |Body(s)| == maxL - 1)
  }

  function FirstStop(s: seq<int>, maxL: int, k: nat): (e: nat)
    requires 0 < k
    ensures e == 0 ==> forall j :: k <= j <= |s| ==> !Stops(s[..j], maxL)
    ensures e > 0 ==> k <= e <= |s| && Stops(s[..e], maxL) && forall j :: k <= j < e ==> !Stops(s[..j], maxL)
    decreases |s| - k
  {
    if k > |s| then 0 else if Stops(s[..k], maxL) then k else FirstStop(s, maxL, k + 1)
  }

  /** The bytes that belong to this line. */
  function LineOf(s: seq<int>, maxL: int): seq<int> {
    var e := FirstStop(s, maxL, 1);
    if e == 0 then s else s[..e]
  }

  function Outcome(s: seq<int>, later: seq<Wakeup>, maxL: int): Status {
    var e := FirstStop(s, maxL, 1);
    if e == 0 then Cause(later) else if s[e - 1] == NEWLINE then Okay else Overflow
  }

  ghost predicate Unfinished(s: seq<int>, maxL: int) { forall k :: 0 < k <= |s| ==> !Stops(s[..k], maxL) }

  lemma UnfinishedNext(s: seq<int>, x: int, maxL: int)
    requires Unfinished(s, maxL) && !Stops(s + [x], maxL)
    ensures Unfinished(s + [x], maxL)
  {
    forall k | 0 < k <= |s| + 1
      ensures !Stops((s + [x])[..k], maxL)
    {
      assert (s + [x])[..k] == if k == |s| + 1 then s + [x] else s[..k];
    }
  }

  lemma FirstStopIs(t: seq<int>, s: seq<int>, x: int, rest: seq<int>, maxL: int, k: nat)
    requires t == s + [x] + rest
    requires Unfinished(s, maxL) && Stops(s + [x], maxL) && 0 < k <= |s| + 1
    ensures FirstStop(t, maxL, k) == |s| + 1
    ensures k == 1 ==> LineOf(t, maxL) == s + [x]
    decreases |s| + 1 - k
  {
    assert t[..|s| + 1] == s + [x];
    if k <= |s| {
      assert t[..k] == s[..k];
      FirstStopIs(t, s, x, rest, maxL, k + 1);
    }
  }

  /** The byte `x` ends the line. */
  lemma LineEnds(t: seq<int>, s: seq<int>, x: int, rest: seq<int>, later: seq<Wakeup>, maxL: int)
    requires t == s + [x] + rest
    requires Unfinished(s, maxL) && Stops(s + [x], maxL)
    ensures FirstStop(t, maxL, 1) > 0 && LineOf(t, maxL) == s + [x]
    ensures Outcome(t, later, maxL) == if x == NEWLINE then Okay else Overflow
  {
    FirstStopIs(t, s, x, rest, maxL, 1);
  }

  lemma LineGoesOn(s: seq<int>, later: seq<Wakeup>, maxL: int)
    requires Unfinished(s, maxL)
    ensures LineOf(s, maxL) == s && Outcome(s, later, maxL) == Cause(later)
  {
  }

  lemma UnfinishedPrefix(s: seq<int>, n: nat, maxL: int)
    requires n <= |s| && forall k :: 0 < k <= n ==> !Stops(s[..k], maxL)
    ensures Unfinished(s[..n], maxL)
  {
    forall k | 0 < k <= n
      ensures !Stops(s[..n][..k], maxL)
    {
      assert s[..n][..k] == s[..k];
    }
  }

  /** A buffer that is not yet full has room for one more character and the terminator. */
  lemma RoomLeft(s: seq<int>, maxL: int)
    requires Unfinished(s, maxL) && maxL >= 2
    ensures |Body(s)| < maxL - 1
  {
    if s != [] {
      assert s[..|s|] == s;
      UnfinishedPrefix(s, |s| - 1, maxL);
      RoomLeft(s[..|s| - 1], maxL);
    }
  }

  /* ---------- the two loops ---------- */

  /** The message buffer holds the characters of `taken`. */
  ghost predicate Holds(msg: array<int>, taken: seq<int>, i: int)
    reads msg
  {
    0 <= i <= msg.Length && i == |Body(taken)| && msg[..i] == Body(taken)
  }

  method PutChar(msg: array<int>, x: int, i: int, ghost taken: seq<int>) returns (next: int)
    requires Holds(msg, taken, i) && i < msg.Length
    modifies msg
    ensures Holds(msg, taken + [x], next)
  {
    BodyAppend(taken, x);
    next := i;
    if x != RETURN && x != NEWLINE {
      msg[i] := AsChar(x);
      next := i + 1;
      assert msg[..i + 1] == msg[..i] + [AsChar(x)];
    }
  }

  /** What both loops do with a byte: store it, and see whether it ends the line. */
  method TakeByte(msg: array<int>, maxL: int, x: int, i: int, ghost taken: seq<int>, ghost rest: seq<int>,
                  ghost later: seq<Wakeup>)
      returns (ended: bool, s: Status, next: int)
    requires 2 <= maxL <= msg.Length && Holds(msg, taken, i) && Unfinished(taken, maxL)
    modifies msg
    ensures Holds(msg, taken + [x], next) && next < maxL
    ensures !ended ==> Unfinished(taken + [x], maxL)
    ensures ended ==> var t := taken + [x] + rest;
                      && LineOf(t, maxL) == taken + [x] && FirstStop(t, maxL, 1) > 0
                      && s == Outcome(t, later, maxL) && (s == Okay || s == Overflow)
  {
    hide FirstStop, LineOf, Outcome, Body;
    RoomLeft(taken, maxL);
    BodyAppend(taken, x);
    next := PutChar(msg, x, i, taken);
    ended := next == maxL - 1 || x == NEWLINE;
    s := if next == maxL - 1 then Overflow else Okay;
    if ended {
      LineEnds(taken + [x] + rest, taken, x, rest, later, maxL);
    } else {
      UnfinishedNext(taken, x, maxL);
    }
  }

  /** `wifly_receive`. `first` are the bytes found in the queue before it is seen empty, `later` what the
      waiting loop meets; when that runs out nothing happens any more. */
  method Receive(msg: array<int>, maxL: int, first: seq<int>, later: seq<Wakeup>)
      returns (s: Status, taken: seq<int>, flushed: bool)
    requires 2 <= maxL <= msg.Length
    modifies msg
    ensures taken == LineOf(first + Delivered(later), maxL)
    ensures s == Outcome(first + Delivered(later), later, maxL)
    ensures flushed <==> s == Overflow
    ensures |Body(taken)| < maxL && msg[..|Body(taken)|] == Body(taken) && msg[|Body(taken)|] == 0
  {
    var i;
    s, taken, i := TakeQueued(msg, maxL, first, Delivered(later));
    flushed := s == Overflow;
    if s == Timeout {
      s, taken, i, flushed := TakeLater(msg, maxL, taken, i, later);
    }
    msg[i] := 0;
    assert msg[..i] == Body(taken);
  }

  /** The first loop; it answers `Timeout` when the queue ran empty before the line was finished. */
  method TakeQueued(msg: array<int>, maxL: int, first: seq<int>, ghost rest: seq<int>)
      returns (s: Status, taken: seq<int>, i: int)
    requires 2 <= maxL <= msg.Length
    modifies msg
    ensures Holds(msg, taken, i) && i < maxL
    ensures s == Timeout ==> taken == first && Unfinished(first, maxL)
    ensures s != Timeout ==> taken == LineOf(first + rest, maxL) && s == Outcome(first + rest, [], maxL)
    ensures s == Timeout || s == Okay || s == Overflow
    ensures s != Timeout ==> FirstStop(first + rest, maxL, 1) > 0
  {
    hide FirstStop, LineOf, Outcome, Stops;
    s, taken, i := Timeout, [], 0;
    while |taken| < |first|
      invariant |taken| <= |first| && taken == first[..|taken|]
      invariant Holds(msg, taken, i) && Unfinished(taken, maxL)
      decreases |first| - |taken|
    {
      var x := first[|taken|];
      ghost var behind := first[|taken| + 1..] + rest;
      assert first + rest == taken + [x] + behind;
      var ended, status;
      ended, status, i := TakeByte(msg, maxL, x, i, taken, behind, []);
      taken := taken + [x];
      if ended {
        s := status;
        return;
      }
    }
    RoomLeft(taken, maxL);
  }

  /** The second loop. */
  method TakeLater(msg: array<int>, maxL: int, first: seq<int>, start: int, later: seq<Wakeup>)
      returns (s: Status, taken: seq<int>, i: int, flushed: bool)
    requires 2 <= maxL <= msg.Length
    requires Holds(msg, first, start) && Unfinished(first, maxL)
    modifies msg
    ensures Holds(msg, taken, i) && i < maxL
    ensures taken == LineOf(first + Delivered(later), maxL)
    ensures s == Outcome(first + Delivered(later), later, maxL)
    ensures flushed <==> s == Overflow
  {
    hide FirstStop, LineOf, Outcome, Unfinished, Delivered, Cause, Holds;
    s, taken, i, flushed := Timeout, first, start, false;
    var n := 0;
    ghost var all := first + Delivered(later);
    assert later[0..] == later;
    while true
      invariant 0 <= n <= |later|
      invariant Holds(msg, taken, i) && Unfinished(taken, maxL)
      invariant all == taken + Delivered(later[n..]) && Cause(later) == Cause(later[n..])
      invariant !flushed
      decreases |later| - n
    {
      Wakes(later, n);
      if n == |later| || later[n].NoEvent? {
        s := Timeout;
        break;
      }
      var w := later[n];
      if w.input {
        if w.got == Nothing {
          s := Reset;
          break;
        }
        var x := w.got.b;
        ghost var behind := Delivered(later[n + 1..]);
        var ended, status;
        assert all == taken + [x] + behind;
        ended, status, i := TakeByte(msg, maxL, x, i, taken, behind, later);
        taken := taken + [x];
        if ended {
          s, flushed := status, status == Overflow;
          return;
        }
      } else if w.large {
        s := Failed;
        break;
      }
      n := n + 1;
    }
    assert all == taken;
    NoEnd(msg, taken, i, later, maxL);
  }

  /** What the rest of the schedule from one wake-up on delivers, and why it ends. */
  lemma Wakes(later: seq<Wakeup>, n: nat)
    requires n <= |later|
    ensures var rest := later[n..];
            if n == |later| || later[n].NoEvent? then Delivered(rest) == [] && Cause(rest) == Timeout
            else if Delivers(later[n]) then
              Delivered(rest) == [later[n].got.b] + Delivered(later[n + 1..]) && Cause(rest) == Cause(later[n + 1..])
            else if Idle(later[n]) then
              Delivered(rest) == Delivered(later[n + 1..]) && Cause(rest) == Cause(later[n + 1..])
            else Delivered(rest) == [] && Cause(rest) == (if later[n].input then Reset else Failed)
  {
    if n < |later| {
      assert later[n..][1..] == later[n + 1..];
    }
  }

  lemma NoEnd(msg: array<int>, taken: seq<int>, i: int, later: seq<Wakeup>, maxL: int)
    requires 2 <= maxL && Unfinished(taken, maxL) && Holds(msg, taken, i)
    ensures i < maxL && LineOf(taken, maxL) == taken && Outcome(taken, later, maxL) == Cause(later)
  {
    RoomLeft(taken, maxL);
    LineGoesOn(taken, later, maxL);
  }

  /* ---------- what a caller may rely on ---------- */

  /** The call succeeds exactly when it ends with the line's newline, the first one taken. */
  lemma OkayIffNewline(s: seq<int>, later: seq<Wakeup>, maxL: int)
    ensures var line := LineOf(s, maxL);
            Outcome(s, later, maxL) == Okay <==> line != [] && line[|line| - 1] == NEWLINE
    ensures forall k :: 0 <= k < |LineOf(s, maxL)| - 1 ==> s[k] != NEWLINE
  {
    var e := FirstStop(s, maxL, 1);
    var n := |LineOf(s, maxL)|;
    forall k | 0 <= k < n && (k < n - 1 || e == 0)
      ensures s[k] != NEWLINE
    {
      assert !Stops(s[..k + 1], maxL);
    }
  }

  /** The message is as long as the buffer allows exactly on overflow. */
  lemma FullIffOverflow(s: seq<int>, later: seq<Wakeup>, maxL: int)
    requires maxL >= 2
    ensures |Body(LineOf(s, maxL))| == maxL - 1 <==> Outcome(s, later, maxL) == Overflow
  {
    var e := FirstStop(s, maxL, 1);
    if e == 0 {
      RoomLeft(s, maxL);
    } else {
      var before := s[..e - 1];
      UnfinishedPrefix(s, e - 1, maxL);
      RoomLeft(before, maxL);
      assert s[..e] == before + [s[e - 1]];
      BodyAppend(before, s[e - 1]);
    }
  }

  lemma {:induction false} BodyOfPlain(w: seq<int>)
    requires Plain(w)
    ensures Body(w) == w
    decreases |w|
  {
    if w != [] {
      BodyOfPlain(w[..|w| - 1]);
    }
  }

  /** A line that fits is received as it was sent, however its bytes are spread over the two loops. */
  lemma LineRoundTrip(w: seq<int>, rest: seq<int>, later: seq<Wakeup>, maxL: int)
    requires Plain(w) && |w| < maxL - 1
    ensures var s := w + [RETURN, NEWLINE] + rest;
            Outcome(s, later, maxL) == Okay && LineOf(s, maxL) == w + [RETURN, NEWLINE] && Body(LineOf(s, maxL)) == w
  {
    var s := w + [RETURN, NEWLINE] + rest;
    var line := w + [RETURN];
    BodyOfPlain(w);
    BodyAppend(w, RETURN);
    BodyAppend(line, NEWLINE);
    assert line + [NEWLINE] == w + [RETURN, NEWLINE];
    forall k | 0 < k <= |line|
      ensures !Stops(line[..k], maxL)
    {
      if k <= |w| {
        assert line[..k] == w[..k];
        BodyOfPlain(w[..k]);
      } else {
        assert line[..k] == line;
      }
    }
    FirstStopIs(s, line, NEWLINE, rest, maxL, 1);
  }
}
