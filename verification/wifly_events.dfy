/** The WiFly command loop and the serial driver's events: `wifly_loop` and `wifly_send` in
    `serv_wifly.c` over `os/hal/src/serial.c`, interleaved with interrupts.

    The driver reports input only when its queue stops being empty, and the loop takes one byte per
    report. Interrupts may fall between any two kernel calls of the loop. Every piece of input that ends
    is answered with one `wifly_send`: by the loop, or by the protocol callback itself before it returns
    M_MESSAGE (`main.c`). While it holds no character the loop also sends the messages of other threads. A
    message may come at every wait here, while the code looks for one before each wait, so the runs of the code
    are among these. The callback reads nothing, and no other thread asks for a message to be read. */
module WiflyEvents {
  import opened WiflyLine

  /** `SERIAL_BUFFERS_SIZE`. */
  const QUEUE_SIZE: int := 1024

  /** The flags of the listener: CHN_INPUT_AVAILABLE (4), CHN_OUTPUT_EMPTY (8), CHN_TRANSMISSION_END (16),
      SD_PARITY_ERROR (32), and the line errors of value 64 and more, overrun among them. */
  datatype Flags = Flags(input: bool, output: bool, ended: bool, parity: bool, severe: bool)

  const NONE := Flags(false, false, false, false, false)

  /** `flags > 32`, tested only when no input is available. */
  predicate Exceeds32(f: Flags) { f.severe || (f.parity && (f.output || f.ended)) }

  /** Before which kernel call the loop stands. `full` says that the text being sent is *OVERFLOW*. */
  datatype Place =
    | AtWait
    | AtFlags
    | AtTake
    | AtReset
    | Sending(full: bool)
    | SendFlags(full: bool)
    | AtFlush

  /** `accepted` are the bytes put into the input queue, `taken` the values `sdGetTimeout` gave; `edges`
      counts the reports of input, `resets` the emptyings of the queue, `stale` those made while a report
      was pending. */
  datatype State = State(queue: seq<int>, flags: Flags, pending: bool, place: Place, parser: Parser,
                         accepted: seq<int>, taken: seq<int>, effects: seq<Effect>,
                         edges: nat, resets: nat, stale: nat)

  datatype Event =
    | Arrive(b: int)
    | LineError(parity: bool, severe: bool)
    | OutputEmpty
    | TransmissionEnd
    | Message
    | Loop

  /** The state when the loop starts to listen. */
  function Start(queue: seq<int>): State { State(queue, NONE, false, AtWait, START, queue, [], [], 0, 0, 0) }

  /* ---------- the driver ---------- */

  /** `sdIncomingDataI`. */
  function Incoming(s: State, b: int): State {
    var s1 := if s.queue == [] then s.(flags := s.flags.(input := true), pending := true, edges := s.edges + 1) else s;
    if |s1.queue| < QUEUE_SIZE then s1.(queue := s1.queue + [b], accepted := s1.accepted + [b])
    else s1.(flags := s1.flags.(severe := true), pending := true)
  }

  function Raise(s: State, f: Flags): State {
    s.(pending := true, flags := Flags(s.flags.input || f.input, s.flags.output || f.output, s.flags.ended || f.ended,
                                       s.flags.parity || f.parity, s.flags.severe || f.severe))
  }

  /** `chIQResetI`. */
  function ResetInput(s: State): State {
    s.(queue := [], resets := s.resets + 1, stale := if s.flags.input then s.stale + 1 else s.stale)
  }

  /* ---------- the loop ---------- */

  /** The value ends a piece of input, which is then answered: it is a newline, or fills a buffer. */
  predicate EndsPiece(p: Parser, x: int) { Full(Store(p, x)) || x == NEWLINE }

  /** `sdGetTimeout`. */
  function NextValue(s: State): int { if s.queue == [] then -1 else s.queue[0] }

  /** The value taken and parsed. */
  function TakeOne(cb: Callback, s: State): State {
    var x := NextValue(s);
    s.(queue := if s.queue == [] then [] else s.queue[1..],
       parser := Next(s.parser, x),
       taken := s.taken + [x],
       effects := s.effects + Effects(cb, s.parser, x),
       place := if EndsPiece(s.parser, x) then Sending(Full(Store(s.parser, x))) else AtWait)
  }

  /** `i == 0 && j == 0`: no character of a piece of input is held. */
  predicate HoldsNothing(p: Parser) { p.id == [] && p.args == [] }

  /** Another thread has a message waiting: it is sent now, unless a character is held. */
  function SendMessage(s: State): State {
    if s.place == AtWait && HoldsNothing(s.parser) then s.(place := Sending(false)) else s
  }

  function LoopStep(cb: Callback, s: State): State {
    match s.place
    case AtWait => if s.pending then s.(pending := false, place := AtFlags) else s
    case AtFlags =>
      s.(flags := NONE,
         place := if s.flags.input then AtTake else if Exceeds32(s.flags) then AtReset else AtWait)
    case AtTake => TakeOne(cb, s)
    case AtReset => ResetInput(s).(place := AtWait)
    case Sending(full) => if s.pending then s.(pending := false, place := SendFlags(full)) else s
    case SendFlags(full) =>
      s.(flags := NONE, place := if !s.flags.output then Sending(full) else if full then AtFlush else AtWait)
    case AtFlush => ResetInput(s).(place := AtWait)
  }

  /** The flags as the number that the code tests; a line error counts 64 or more. */
  function Word(f: Flags): int {
    (if f.input then 4 else 0) + (if f.output then 8 else 0) + (if f.ended then 16 else 0) + (if f.parity then 32 else 0)
    + (if f.severe then 64 else 0)
  }

  /** The loop takes a byte if and only if input is reported, and resets the queue if and only if it is not and
      the flags exceed 32. */
  lemma FlagsDecide(cb: Callback, s: State)
    requires s.place == AtFlags
    ensures var t := LoopStep(cb, s);
            && t.flags == NONE && t.queue == s.queue && t.taken == s.taken
            && (t.place == AtTake <==> s.flags.input)
            && (t.place == AtReset <==> !s.flags.input && Word(s.flags) > 32)
            && (t.place == AtWait <==> !s.flags.input && Word(s.flags) <= 32)
  {
  }

  function Step(cb: Callback, s: State, e: Event): State {
    match e
    case Arrive(b) => Incoming(s, b)
    case LineError(parity, severe) => Raise(s, NONE.(parity := parity, severe := severe))
    case OutputEmpty => Raise(s, NONE.(output := true))
    case TransmissionEnd => Raise(s, NONE.(ended := true))
    case Message => SendMessage(s)
    case Loop => LoopStep(cb, s)
  }

  function RunAll(cb: Callback, s: State, es: seq<Event>): State
    decreases |es|
  {
    if es == [] then s else RunAll(cb, Step(cb, s, es[0]), es[1..])
  }

  /** The bits of the flags. */
  function Bits(f: Flags): set<int> {
    (if f.input then {4} else {}) + (if f.output then {8} else {}) + (if f.ended then {16} else {})
    + (if f.parity then {32} else {}) + (if f.severe then {64} else {})
  }

  /** What an interrupt reports: input when the queue stops being empty, an overrun when it is full, and the
      other events as what they are. */
  function Reports(s: State, e: Event): set<int> {
    match e
    case Arrive(_) => (if s.queue == [] then {4} else {}) + (if |s.queue| >= 1024 then {64} else {})
    case LineError(parity, severe) => (if parity then {32} else {}) + (if severe then {64} else {})
    case OutputEmpty => {8}
    case TransmissionEnd => {16}
    case _ => {}
  }

  /** Reports add up until the flags are read; a byte is queued behind the others or dropped. */
  lemma ReportsAddUp(cb: Callback, s: State, e: Event)
    requires e != Loop && e != Message
    ensures var t := Step(cb, s, e);
            && Bits(t.flags) == Bits(s.flags) + Reports(s, e)
            && (t.pending <==> s.pending || e.LineError? || Reports(s, e) != {})
            && t.queue == (if e.Arrive? && |s.queue| < 1024 then s.queue + [e.b] else s.queue)
            && t.place == s.place
  {
  }

  /** The wait for the output ends if and only if the flags read say that it is empty; then the queue is
      emptied if the text was *OVERFLOW*. */
  lemma SendDecides(cb: Callback, s: State)
    requires s.place.SendFlags?
    ensures var t := LoopStep(cb, s);
            && t.flags == NONE && t.queue == s.queue && t.taken == s.taken
            && t.place == (if 8 !in Bits(s.flags) then Sending(s.place.full)
                           else if s.place.full then AtFlush else AtWait)
  {
  }

  /** A wait takes the pending event, if there is one, and nothing else; a reset empties the queue, and the
      loop waits again. */
  lemma WaitDecides(cb: Callback, s: State)
    ensures s.place == AtWait || s.place.Sending? ==>
              LoopStep(cb, s)
              == if !s.pending then s
                 else s.(pending := false,
                         place := if s.place.Sending? then SendFlags(s.place.full) else AtFlags)
    ensures s.place == AtReset || s.place == AtFlush ==>
              var t := LoopStep(cb, s);
              t.place == AtWait && t.queue == [] && t.flags == s.flags && t.pending == s.pending && t.taken == s.taken
  {
  }

  /** A value is answered with the sending of a text if and only if it has an effect, and the queue is emptied
      behind the text if and only if that is one of them. */
  lemma TakeDecides(cb: Callback, s: State)
    requires s.place == AtTake
    ensures var t, effects := LoopStep(cb, s), Effects(cb, s.parser, NextValue(s));
            && t.place == (if effects == [] then AtWait else Sending(Flush in effects))
            && t.effects == s.effects + effects
            && (s.queue != [] ==> t.taken == s.taken + [s.queue[0]] && t.queue == s.queue[1..])
            && (s.queue == [] ==> t.taken == s.taken + [-1] && t.queue == [])
  {
  }

  /** Another thread's message is sent, when the loop waits, if and only if what was taken since the last line
      is nothing, or one space and no character. */
  lemma MessageSentIff(cb: Callback, s: State)
    requires s.place == AtWait && Values(s.taken) && s.parser == Run(START, s.taken)
    ensures var t := Step(cb, s, Message);
            && (t.place == Sending(false) <==> Body(Rest(s.taken)) == [] || Body(Rest(s.taken)) == [32])
            && (t.place != Sending(false) ==> t == s)
            && t.queue == s.queue && t.flags == s.flags && t.taken == s.taken && t.effects == s.effects
  {
    hide Body, Rest, IdOf, ArgsOf, WordLength, Run, Values;
    ParserRefinesLines(cb, s.taken);
    NothingHeldIff(Body(Rest(s.taken)));
  }

  lemma NothingHeldIff(b: seq<int>)
    ensures IdOf(b) == [] && ArgsOf(b) == [] <==> b == [] || b == [32]
  {
    var n := WordLength(b);
    if n == 0 && b != [] {
      assert b[0] == 32;
      assert |b| == 1 ==> b == [32];
    }
  }

  lemma {:induction false} RunAppend(cb: Callback, s: State, a: seq<Event>, b: seq<Event>)
    ensures RunAll(cb, s, a + b) == RunAll(cb, RunAll(cb, s, a), b)
    decreases |a|
  {
    if a == [] {
      assert a + b == b;
    } else {
      assert (a + b)[1..] == a[1..] + b;
      RunAppend(cb, Step(cb, s, a[0]), a[1..], b);
    }
  }

  /* ---------- reports and bytes ---------- */

  /** The reports of input that have not been used up: the flag, and the one the loop holds in hand. */
  function Tokens(s: State): nat { (if s.flags.input then 1 else 0) + (if s.place == AtTake then 1 else 0) }

  lemma StepUsesReports(cb: Callback, s: State, e: Event)
    requires |s.taken| + Tokens(s) <= s.edges
    ensures |Step(cb, s, e).taken| + Tokens(Step(cb, s, e)) <= Step(cb, s, e).edges
  {
    hide EndsPiece, Effects, Next;
  }

  lemma {:induction false} TakenAtMostReports(cb: Callback, s: State, es: seq<Event>)
    requires |s.taken| + Tokens(s) <= s.edges
    ensures |RunAll(cb, s, es).taken| + Tokens(RunAll(cb, s, es)) <= RunAll(cb, s, es).edges
    decreases |es|
  {
    if es != [] {
      StepUsesReports(cb, s, es[0]);
      TakenAtMostReports(cb, Step(cb, s, es[0]), es[1..]);
    }
  }

  /** Over every run the loop takes at most one value for every time the queue stopped being empty. */
  lemma OneBytePerReport(cb: Callback, queue: seq<int>, es: seq<Event>)
    ensures |RunAll(cb, Start(queue), es).taken| <= RunAll(cb, Start(queue), es).edges
  {
    TakenAtMostReports(cb, Start(queue), es);
  }

  lemma StepResets(cb: Callback, s: State, e: Event)
    ensures s.resets <= Step(cb, s, e).resets && s.stale <= Step(cb, s, e).stale
    ensures Step(cb, s, e).stale - s.stale <= Step(cb, s, e).resets - s.resets
  {
    hide EndsPiece, Effects, Next;
  }

  lemma {:induction false} ResetsGrow(cb: Callback, s: State, es: seq<Event>)
    ensures s.resets <= RunAll(cb, s, es).resets && s.stale <= RunAll(cb, s, es).stale
    ensures RunAll(cb, s, es).stale - s.stale <= RunAll(cb, s, es).resets - s.resets
    decreases |es|
  {
    hide Step;
    if es != [] {
      StepResets(cb, s, es[0]);
      ResetsGrow(cb, Step(cb, s, es[0]), es[1..]);
    }
  }

  /* ---------- the stall ---------- */

  /** More bytes are queued than reports are left for them. */
  predicate Stalled(s: State) { |s.queue| > Tokens(s) }

  lemma StepKeepsStall(cb: Callback, s: State, e: Event)
    requires Stalled(s) && Step(cb, s, e).resets == s.resets
    ensures var t := Step(cb, s, e);
            Stalled(t) && t.edges == s.edges && |t.taken| + Tokens(t) <= |s.taken| + Tokens(s)
  {
  }

  /** Until the queue is reset, a stalled loop never sees it empty and takes no more bytes than it has
      reports left, however many arrive. */
  lemma {:induction false} StallLasts(cb: Callback, s: State, es: seq<Event>)
    requires Stalled(s) && RunAll(cb, s, es).resets == s.resets
    ensures var t := RunAll(cb, s, es);
            t.queue != [] && Stalled(t) && t.edges == s.edges && |t.taken| + Tokens(t) <= |s.taken| + Tokens(s)
    decreases |es|
  {
    if es != [] {
      var s1 := Step(cb, s, es[0]);
      ResetsGrow(cb, s1, es[1..]);
      ResetsGrow(cb, s, [es[0]]);
      assert RunAll(cb, s, [es[0]]) == s1 by { assert [es[0]][1..] == []; }
      StepKeepsStall(cb, s, es[0]);
      StallLasts(cb, s1, es[1..]);
    }
  }

  /** At most one report is about, and it has its byte. */
  ghost predicate Backed(s: State) { Tokens(s) <= 1 && Tokens(s) <= |s.queue| && Bytes(s.queue) }

  /** The values taken since `s` are bytes. */
  ghost predicate TookBytes(s: State, t: State) {
    s.taken <= t.taken && forall k :: |s.taken| <= k < |t.taken| ==> 0 <= t.taken[k] < 256
  }

  lemma TookBytesBoth(s: State, t: State, u: State)
    requires TookBytes(s, t) && TookBytes(t, u)
    ensures TookBytes(s, u)
  {
    forall k | |s.taken| <= k < |u.taken|
      ensures 0 <= u.taken[k] < 256
    {
      assert k < |t.taken| ==> u.taken[k] == t.taken[k];
    }
  }

  lemma StepKeepsBacked(cb: Callback, s: State, e: Event)
    requires Backed(s) && (e.Arrive? ==> 0 <= e.b < 256)
    requires Step(cb, s, e).stale == s.stale
    ensures Backed(Step(cb, s, e)) && TookBytes(s, Step(cb, s, e))
  {
  }

  ghost predicate Bytes(q: seq<int>) { forall k :: 0 <= k < |q| ==> 0 <= q[k] < 256 }

  ghost predicate ByteEvents(es: seq<Event>) { forall k :: 0 <= k < |es| && es[k].Arrive? ==> 0 <= es[k].b < 256 }

  /** Unless the queue is reset while a report is pending, every report has its byte, and the loop never
      takes from an empty queue. */
  lemma {:induction false} BackedUnlessStale(cb: Callback, s: State, es: seq<Event>)
    requires Backed(s) && ByteEvents(es)
    requires RunAll(cb, s, es).stale == s.stale
    ensures Backed(RunAll(cb, s, es)) && TookBytes(s, RunAll(cb, s, es))
    decreases |es|
  {
    if es != [] {
      var s1 := Step(cb, s, es[0]);
      ResetsGrow(cb, s1, es[1..]);
      assert s.stale <= s1.stale;
      StepKeepsBacked(cb, s, es[0]);
      assert ByteEvents(es[1..]) by {
        assert forall k :: 0 <= k < |es| - 1 ==> es[1..][k] == es[k + 1];
      }
      BackedUnlessStale(cb, s1, es[1..]);
      TookBytesBoth(s, s1, RunAll(cb, s1, es[1..]));
    }
  }

  /** An invariant of every run: a report that is pending has an event pending with it, unless the loop
      has just taken the event and is about to read the flags. */
  predicate Noticed(s: State) { s.flags.input ==> s.pending || s.place == AtFlags || s.place.SendFlags? }

  lemma {:induction false} RunNoticed(cb: Callback, s: State, es: seq<Event>)
    requires Noticed(s)
    ensures Noticed(RunAll(cb, s, es))
    decreases |es|
  {
    if es != [] {
      RunNoticed(cb, Step(cb, s, es[0]), es[1..]);
    }
  }

  /* ---------- a byte that arrives behind another ---------- */

  /** The queue stays non-empty over every continuation without a reset. */
  ghost predicate NeverEmpties(cb: Callback, s: State) {
    forall more :: RunAll(cb, s, more).resets == s.resets ==> RunAll(cb, s, more).queue != []
  }

  /** Stalled, or about to be: the last report but one is being used for a value whose answer will clear
      the last one, or that answer is being sent. */
  predicate Stalling(s: State) {
    || Stalled(s)
    || (s.place == AtTake && |s.queue| >= 2 && EndsPiece(s.parser, s.queue[0]))
    || (s.queue != [] && (s.place.Sending? || s.place.SendFlags?))
  }

  lemma StepKeepsStalling(cb: Callback, s: State, e: Event)
    requires Stalling(s) && Step(cb, s, e).resets == s.resets
    ensures Stalling(Step(cb, s, e))
  {
  }

  lemma {:induction false} StallingLasts(cb: Callback, s: State, es: seq<Event>)
    requires Stalling(s) && RunAll(cb, s, es).resets == s.resets
    ensures RunAll(cb, s, es).queue != []
    decreases |es|
  {
    if es != [] {
      var s1 := Step(cb, s, es[0]);
      StepResets(cb, s, es[0]);
      ResetsGrow(cb, s1, es[1..]);
      StepKeepsStalling(cb, s, es[0]);
      StallingLasts(cb, s1, es[1..]);
    }
  }

  /** With a byte of its own for each of two reports, and no answer in between, four rounds of kernel calls
      empty the queue. */
  lemma TwoReportsEmpty(cb: Callback, s: State)
    requires s.place == AtTake && s.flags.input && s.pending && |s.queue| == 2 && !EndsPiece(s.parser, s.queue[0])
    ensures var t := RunAll(cb, s, [Loop, Loop, Loop, Loop]);
            t.queue == [] && t.resets == s.resets
  {
    var t1 := Step(cb, s, Loop);
    assert t1.place == AtWait && t1.pending && t1.flags.input && t1.queue == s.queue[1..];
    ThreeSteps(cb, t1);
    assert [Loop, Loop, Loop, Loop][1..] == [Loop, Loop, Loop];
  }

  /** Main result: in every state of every run, a byte that arrives while another one is queued keeps the
      queue from ever being empty before a reset if and only if there is no report too many, or the next
      value ends a piece of input, so that its answer clears the report that is too many. */
  lemma LateArrivalBlocksIff(cb: Callback, queue: seq<int>, es: seq<Event>, b: int)
    requires RunAll(cb, Start(queue), es).queue != []
    ensures var s := RunAll(cb, Start(queue), es);
            NeverEmpties(cb, Incoming(s, b)) <==> Tokens(s) <= |s.queue| || EndsPiece(s.parser, s.queue[0])
  {
    var s := RunAll(cb, Start(queue), es);
    var t := Incoming(s, b);
    RunNoticed(cb, Start(queue), es);
    if Tokens(s) <= |s.queue| || EndsPiece(s.parser, s.queue[0]) {
      assert Stalling(t);
      forall more | RunAll(cb, t, more).resets == t.resets
        ensures RunAll(cb, t, more).queue != []
      {
        StallingLasts(cb, t, more);
      }
    } else {
      TwoReportsEmpty(cb, t);
      assert RunAll(cb, t, [Loop, Loop, Loop, Loop]).queue == [];
    }
  }

  /* ---------- bytes queued while a text is sent ---------- */

  /** Nothing is taken over any continuation without a reset. */
  ghost predicate TakesNothing(cb: Callback, s: State) {
    forall more :: RunAll(cb, s, more).resets == s.resets ==> RunAll(cb, s, more).taken == s.taken
  }

  /** A text is being sent, whose end clears the report, or the next step of the loop is a reset. */
  predicate SendsOrResets(p: Place) { p.Sending? || p.SendFlags? || p == AtReset || p == AtFlush }

  predicate Stranded(s: State) { s.queue != [] && (SendsOrResets(s.place) || Tokens(s) == 0) }

  lemma StepKeepsStranded(cb: Callback, s: State, e: Event)
    requires Stranded(s) && Step(cb, s, e).resets == s.resets
    ensures Stranded(Step(cb, s, e)) && Step(cb, s, e).taken == s.taken
  {
  }

  lemma {:induction false} StrandedStays(cb: Callback, s: State, es: seq<Event>)
    requires Stranded(s) && RunAll(cb, s, es).resets == s.resets
    ensures RunAll(cb, s, es).taken == s.taken && RunAll(cb, s, es).queue != []
    decreases |es|
  {
    if es != [] {
      var s1 := Step(cb, s, es[0]);
      StepResets(cb, s, es[0]);
      ResetsGrow(cb, s1, es[1..]);
      StepKeepsStranded(cb, s, es[0]);
      StrandedStays(cb, s1, es[1..]);
    }
  }

  /** The steps of the loop up to the next value taken. */
  function UpToTake(p: Place): seq<Event> {
    if p == AtWait then [Loop, Loop, Loop] else if p == AtFlags then [Loop, Loop] else [Loop]
  }

  lemma TakesOne(cb: Callback, s: State)
    requires Noticed(s) && Tokens(s) >= 1 && !SendsOrResets(s.place)
    ensures var t := RunAll(cb, s, UpToTake(s.place));
            t.taken == s.taken + [NextValue(s)] && t.resets == s.resets && (|s.queue| == 1 ==> t.queue == [])
  {
    if s.place == AtWait {
      ThreeSteps(cb, s);
    } else if s.place == AtFlags {
      assert [Loop, Loop][1..] == [Loop];
    }
  }

  /** Main result: in every state of every run with bytes queued, none of them is taken before a reset,
      over all continuations, if and only if there is no report of them, or a text is being sent, for the
      loop itself or for another thread, or a reset comes next. */
  lemma TakesNothingIff(cb: Callback, queue: seq<int>, es: seq<Event>)
    requires RunAll(cb, Start(queue), es).queue != []
    ensures var s := RunAll(cb, Start(queue), es);
            TakesNothing(cb, s) <==> Tokens(s) == 0 || SendsOrResets(s.place)
  {
    var s := RunAll(cb, Start(queue), es);
    if Stranded(s) {
      forall more | RunAll(cb, s, more).resets == s.resets
        ensures RunAll(cb, s, more).taken == s.taken
      {
        StrandedStays(cb, s, more);
      }
    } else {
      RunNoticed(cb, Start(queue), es);
      TakesOne(cb, s);
      assert RunAll(cb, s, UpToTake(s.place)).taken != s.taken;
    }
  }

  /** The sister of LateArrivalBlocksIff: a byte that arrives on the empty queue is reported, and keeps the
      queue from ever being empty before a reset if and only if a text is being sent or a reset comes next. */
  lemma FirstArrivalBlocksIff(cb: Callback, queue: seq<int>, es: seq<Event>, b: int)
    requires RunAll(cb, Start(queue), es).queue == []
    ensures var s := RunAll(cb, Start(queue), es);
            NeverEmpties(cb, Incoming(s, b)) <==> SendsOrResets(s.place)
  {
    var s := RunAll(cb, Start(queue), es);
    var t := Incoming(s, b);
    if SendsOrResets(s.place) {
      forall more | RunAll(cb, t, more).resets == t.resets
        ensures RunAll(cb, t, more).queue != []
      {
        StrandedStays(cb, t, more);
      }
    } else {
      RunNoticed(cb, Start(queue), es);
      TakesOne(cb, t);
      assert RunAll(cb, t, UpToTake(t.place)).queue == [];
    }
  }

  /** And while the queue is stalled at most as many values are taken as reports are left: after such an
      arrival in a state without a report too many, at most one more. */
  lemma LateArrivalBlocks(cb: Callback, queue: seq<int>, es: seq<Event>, b: int, more: seq<Event>)
    requires var s := RunAll(cb, Start(queue), es);
             s.queue != [] && Tokens(s) <= |s.queue| && RunAll(cb, Incoming(s, b), more).resets == s.resets
    ensures var s := RunAll(cb, Start(queue), es);
            var t := RunAll(cb, Incoming(s, b), more);
            t.queue != [] && t.edges == s.edges && |t.taken| + Tokens(t) <= |s.taken| + Tokens(s)
  {
    StallLasts(cb, Incoming(RunAll(cb, Start(queue), es), b), more);
  }

  /** A report too many comes from a reset that falls on a pending report, and from nothing else. */
  lemma NoReportTooMany(cb: Callback, queue: seq<int>, es: seq<Event>)
    requires Bytes(queue) && ByteEvents(es) && RunAll(cb, Start(queue), es).stale == 0
    ensures var s := RunAll(cb, Start(queue), es);
            Tokens(s) <= 1 && Tokens(s) <= |s.queue|
  {
    BackedUnlessStale(cb, Start(queue), es);
  }

  /* ---------- a reset under a pending report ---------- */

  /** A value that is no byte is taken in some continuation without a further reset. */
  ghost predicate MayTakeNoByte(cb: Callback, s: State) {
    exists more :: ByteEvents(more) && RunAll(cb, s, more).resets == s.resets && !TookBytes(s, RunAll(cb, s, more))
  }

  /** In every state of every run at which the loop resets the queue: a value that was never sent may be
      taken before the next reset if and only if a report is pending at the reset. Then the next three
      kernel calls of the loop take the queue's failure code, which is stored as character 255. */
  lemma ResetMakesAByteIff(cb: Callback, queue: seq<int>, es: seq<Event>)
    requires var s := RunAll(cb, Start(queue), es); s.place == AtReset || s.place == AtFlush
    ensures var s := RunAll(cb, Start(queue), es);
            var t := LoopStep(cb, s);
            && (MayTakeNoByte(cb, t) <==> s.flags.input)
            && (s.flags.input ==> RunAll(cb, t, [Loop, Loop, Loop]).taken == s.taken + [-1])
  {
    var s := RunAll(cb, Start(queue), es);
    var t := LoopStep(cb, s);
    RunNoticed(cb, Start(queue), es);
    if s.flags.input {
      ThreeSteps(cb, t);
      var u := RunAll(cb, t, [Loop, Loop, Loop]);
      assert u.taken == t.taken + [-1] && u.resets == t.resets;
      assert u.taken[|t.taken|] == -1;
      assert ByteEvents([Loop, Loop, Loop]);
    } else {
      forall more | ByteEvents(more) && RunAll(cb, t, more).resets == t.resets
        ensures TookBytes(t, RunAll(cb, t, more))
      {
        ResetsGrow(cb, t, more);
        BackedUnlessStale(cb, t, more);
      }
    }
  }

  /** Bytes queued before the loop starts to listen stall it from the beginning. */
  lemma QueuedBeforeListening(cb: Callback, queue: seq<int>, es: seq<Event>)
    requires queue != [] && RunAll(cb, Start(queue), es).resets == 0
    ensures RunAll(cb, Start(queue), es).taken == []
  {
    StallLasts(cb, Start(queue), es);
  }

  /** A reset of the queue that falls on a pending report. */
  const STALE_RESET := [LineError(false, true), Loop, Loop, Arrive(65), Loop]

  function AfterStaleReset(): State {
    Start([]).(flags := NONE.(input := true), pending := true, accepted := [65], edges := 1, resets := 1, stale := 1)
  }

  lemma StaleResetRun(cb: Callback)
    ensures RunAll(cb, Start([]), STALE_RESET) == AfterStaleReset()
  {
    var s1 := Start([]).(flags := NONE.(severe := true), pending := true);
    assert Step(cb, Start([]), LineError(false, true)) == s1;
    assert STALE_RESET[1..] == [Loop, Loop, Arrive(65), Loop];
    var s2 := Start([]).(place := AtReset);
    assert Step(cb, Step(cb, s1, Loop), Loop) == s2;
    assert RunAll(cb, s1, [Loop, Loop, Arrive(65), Loop]) == RunAll(cb, s2, [Arrive(65), Loop]) by {
      RunAppend(cb, s1, [Loop, Loop], [Arrive(65), Loop]);
      assert [Loop, Loop] + [Arrive(65), Loop] == [Loop, Loop, Arrive(65), Loop];
    }
    var s3 := s2.(queue := [65], accepted := [65], flags := NONE.(input := true), pending := true, edges := 1);
    assert Step(cb, s2, Arrive(65)) == s3;
  }

  /** The loop then takes a byte that was never sent: the queue's failure code becomes character 255 of
      the next identifier. */
  lemma StaleReportMakesAByte(cb: Callback)
    ensures var s := RunAll(cb, Start([]), STALE_RESET + [Loop, Loop, Loop]);
            s.taken == [-1] && s.parser.id == [255]
  {
    hide Dispatch;
    RunAppend(cb, Start([]), STALE_RESET, [Loop, Loop, Loop]);
    StaleResetRun(cb);
    var s := AfterStaleReset();
    var t := s.(flags := NONE, pending := false, place := AtTake);
    assert Step(cb, Step(cb, s, Loop), Loop) == t;
    assert RunAll(cb, s, [Loop, Loop, Loop]) == RunAll(cb, t, [Loop]) by {
      RunAppend(cb, s, [Loop, Loop], [Loop]);
      assert [Loop, Loop] + [Loop] == [Loop, Loop, Loop];
    }
  }

  /** And a byte that arrives while another one is queued need not stall the loop: both are taken. */
  lemma StaleReportServesLateByte(cb: Callback)
    ensures var s := RunAll(cb, AfterStaleReset(), [Loop, Loop, Arrive(66)]);
            var t := RunAll(cb, Incoming(s, 67), [Loop, Loop, Loop, Loop]);
            s.queue != [] && t.resets == s.resets && t.queue == [] && t.taken == [66, 67]
  {
    var s0 := AfterStaleReset();
    var s1 := s0.(flags := NONE, pending := false, place := AtTake);
    assert Step(cb, Step(cb, s0, Loop), Loop) == s1;
    assert RunAll(cb, s0, [Loop, Loop, Arrive(66)]) == RunAll(cb, s1, [Arrive(66)]) by {
      RunAppend(cb, s0, [Loop, Loop], [Arrive(66)]);
      assert [Loop, Loop] + [Arrive(66)] == [Loop, Loop, Arrive(66)];
    }
    var s := Step(cb, s1, Arrive(66));
    assert RunAll(cb, s1, [Arrive(66)]) == s;
    var t0 := Incoming(s, 67);
    var t1 := Step(cb, t0, Loop);
    assert t1.queue == [67] && t1.taken == [66] && t1.place == AtWait && t1.flags.input && t1.pending;
    var t2 := t1.(flags := NONE, pending := false, place := AtTake);
    assert Step(cb, Step(cb, t1, Loop), Loop) == t2;
    assert RunAll(cb, t0, [Loop, Loop, Loop, Loop]) == RunAll(cb, t2, [Loop]) by {
      RunAppend(cb, t0, [Loop, Loop, Loop], [Loop]);
      assert [Loop, Loop, Loop] + [Loop] == [Loop, Loop, Loop, Loop];
      assert RunAll(cb, t0, [Loop, Loop, Loop]) == RunAll(cb, t1, [Loop, Loop]) by {
        assert [Loop, Loop, Loop][1..] == [Loop, Loop];
      }
    }
  }

  /** What ends a stall: the queue overruns, and the next round empties both the queue and the loop's
      memory of it. */
  lemma OverrunEndsStall(cb: Callback, s: State, b: int)
    requires |s.queue| == QUEUE_SIZE && s.place == AtWait && !s.flags.input
    ensures var t := RunAll(cb, s, [Arrive(b), Loop, Loop, Loop]);
            t.queue == [] && t.resets == s.resets + 1 && t.taken == s.taken && t.place == AtWait && Tokens(t) == 0
  {
    var s1 := Incoming(s, b);
    var s2 := s1.(flags := NONE, pending := false, place := AtReset);
    assert Step(cb, Step(cb, s1, Loop), Loop) == s2;
    assert RunAll(cb, s1, [Loop, Loop, Loop]) == RunAll(cb, s2, [Loop]) by {
      RunAppend(cb, s1, [Loop, Loop], [Loop]);
      assert [Loop, Loop] + [Loop] == [Loop, Loop, Loop];
    }
    assert [Arrive(b), Loop, Loop, Loop][1..] == [Loop, Loop, Loop];
  }

  /* ---------- what the service answers ---------- */

  /** The effects so far are those of the lines in the values taken, which with the queue are the bytes
      accepted as long as nothing was reset. */
  ghost predicate Faithful(cb: Callback, s: State) {
    && s.parser == Run(START, s.taken)
    && s.effects == RunEffects(cb, START, s.taken)
    && (s.resets == 0 ==> s.taken + s.queue == s.accepted)
  }

  lemma {:induction false} RunEffectsSnoc(cb: Callback, p: Parser, s: seq<Input>, x: Input)
    ensures RunEffects(cb, p, s + [x]) == RunEffects(cb, p, s) + Effects(cb, Run(p, s), x)
    ensures Run(p, s + [x]) == Next(Run(p, s), x)
    decreases |s|
  {
    hide Effects, Next;
    if s == [] {
      assert s + [x] == [x] && [x][1..] == [];
    } else {
      assert (s + [x])[1..] == s[1..] + [x];
      RunEffectsSnoc(cb, Next(p, s[0]), s[1..], x);
    }
  }

  lemma StepKeepsFaithful(cb: Callback, s: State, e: Event)
    requires Faithful(cb, s) && Backed(s)
    ensures Faithful(cb, Step(cb, s, e))
  {
    hide EndsPiece, Effects, Next, Exceeds32;
    if e == Loop && s.place == AtTake {
      RunEffectsSnoc(cb, START, s.taken, s.queue[0]);
      assert s.taken + [s.queue[0]] + s.queue[1..] == s.taken + s.queue;
    } else if e.Arrive? {
      assert s.taken + (s.queue + [e.b]) == s.taken + s.queue + [e.b];
    }
  }

  lemma {:induction false} RunKeepsFaithful(cb: Callback, s: State, es: seq<Event>)
    requires Faithful(cb, s) && Backed(s) && ByteEvents(es)
    requires RunAll(cb, s, es).stale == s.stale
    ensures Faithful(cb, RunAll(cb, s, es))
    decreases |es|
  {
    if es != [] {
      var s1 := Step(cb, s, es[0]);
      ResetsGrow(cb, s1, es[1..]);
      assert s.stale <= s1.stale;
      StepKeepsBacked(cb, s, es[0]);
      StepKeepsFaithful(cb, s, es[0]);
      assert ByteEvents(es[1..]) by {
        assert forall k :: 0 <= k < |es| - 1 ==> es[1..][k] == es[k + 1];
      }
      RunKeepsFaithful(cb, s1, es[1..]);
    }
  }

  /** Over every run without a reset the service answers exactly the lines in a prefix of the bytes that
      arrived; the others are still queued. */
  lemma ServiceAnswersPrefix(cb: Callback, queue: seq<int>, es: seq<Event>)
    requires Bytes(queue) && ByteEvents(es)
    requires RunAll(cb, Start(queue), es).resets == 0
    ensures var s := RunAll(cb, Start(queue), es);
            s.effects == StreamMeaning(cb, s.taken) && s.taken + s.queue == s.accepted
  {
    var s := RunAll(cb, Start(queue), es);
    ResetsGrow(cb, Start(queue), es);
    RunKeepsFaithful(cb, Start(queue), es);
    BackedUnlessStale(cb, Start(queue), es);
    ParserRefinesLines(cb, s.taken);
  }

  /* ---------- the driver's calls ---------- */

  /** The fields of the serial driver and of the listener. */
  class Port {
    var queue: seq<int>
    var output: seq<int>
    var flags: Flags
    var pending: bool

    ghost predicate Shows(s: State)
      reads this
    {
      queue == s.queue && flags == s.flags && pending == s.pending
    }

    constructor (queue: seq<int>)
      ensures Shows(Start(queue)) && output == []
    {
      this.queue := queue;
      output := [];
      flags := NONE;
      pending := false;
    }

    /** `sdIncomingDataI`. */
    method IncomingDataI(b: int, ghost s: State)
      requires Shows(s)
      modifies this`queue, this`flags, this`pending
      ensures Shows(Incoming(s, b))
    {
      if queue == [] {
        flags := flags.(input := true);
        pending := true;
      }
      if |queue| < QUEUE_SIZE {
        queue := queue + [b];
      } else {
        flags := flags.(severe := true);
        pending := true;
      }
    }

    /** `sdRequestDataI`: the next byte to send, or -1. */
    method RequestDataI(ghost s: State) returns (b: int)
      requires Shows(s)
      modifies this`output, this`flags, this`pending
      ensures old(output) == [] ==> b == -1 && output == [] && Shows(Raise(s, NONE.(output := true)))
      ensures old(output) != [] ==> old(output) == [b] + output && Shows(s)
    {
      if output == [] {
        flags := flags.(output := true);
        pending := true;
        return -1;
      }
      b := output[0];
      output := output[1..];
    }

    /** One round of `wifly_loop` without interrupts in between, up to the sending of a text: `message` says
        that another thread has one to send, and `sending` that `wifly_send` is called now. */
    method Round(service: Service, message: bool, ghost s: State) returns (sending: bool)
      requires service.Valid() && Shows(s) && s.place == AtWait
      requires service.Parsed() == s.parser && service.log == s.effects
      modifies this`queue, this`output, this`flags, this`pending, service, service.id, service.args
      ensures service.Valid()
      ensures var t := RunAll(service.cb, s, RoundEvents(s, message));
              && Shows(t) && service.Parsed() == t.parser && service.log == t.effects
              && (sending <==> t.place.Sending?)
    {
      if message && service.i == 0 && service.j == 0 {
        return true;
      }
      if !pending {
        return false;
      }
      sending := ServeEvent(service, s);
    }

    method ServeEvent(service: Service, ghost s: State) returns (sending: bool)
      requires service.Valid() && Shows(s) && s.place == AtWait && s.pending
      requires service.Parsed() == s.parser && service.log == s.effects
      modifies this`queue, this`output, this`flags, this`pending, service, service.id, service.args
      ensures service.Valid()
      ensures var t := RunAll(service.cb, s, [Loop, Loop, Loop]);
              && Shows(t) && service.Parsed() == t.parser && service.log == t.effects
              && (sending <==> t.place.Sending?)
    {
      hide Store, Full, Next, Effects, Exceeds32, RunAll;
      ThreeSteps(service.cb, s);
      pending := false;
      var got := flags;
      flags := NONE;
      sending := false;
      if got.input {
        var x := -1;
        if queue != [] {
          x := queue[0];
          queue := queue[1..];
        }
        sending := service.Take(x);
      } else if Exceeds32(got) {
        queue := [];
        output := [];
      }
    }

    /** One round of the loop in `wifly_send`, when an event is pending: true ends it. */
    method SendRound(ghost cb: Callback, ghost s: State) returns (sent: bool)
      requires Shows(s) && s.place.Sending? && s.pending
      modifies this`flags, this`pending
      ensures Shows(RunAll(cb, s, [Loop, Loop]))
      ensures sent <==> !RunAll(cb, s, [Loop, Loop]).place.Sending?
    {
      assert [Loop, Loop][1..] == [Loop];
      pending := false;
      sent := flags.output;
      flags := NONE;
    }
  }

  /** The events of one round of the loop. */
  function RoundEvents(s: State, message: bool): seq<Event> {
    if message && HoldsNothing(s.parser) then [Message] else if s.pending then [Loop, Loop, Loop] else [Loop]
  }

  lemma ThreeSteps(cb: Callback, s: State)
    ensures RunAll(cb, s, [Loop, Loop, Loop]) == LoopStep(cb, LoopStep(cb, LoopStep(cb, s)))
  {
    var s1 := Step(cb, s, Loop);
    var s2 := Step(cb, s1, Loop);
    assert [Loop, Loop, Loop][1..] == [Loop, Loop] && [Loop, Loop][1..] == [Loop] && [Loop][1..] == [];
    assert RunAll(cb, s1, [Loop, Loop]) == RunAll(cb, s2, [Loop]);
  }
}
