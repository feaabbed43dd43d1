/** Which bytes the control endpoint moves, told from the bytes of the SETUP packets.

    `TransferData` gives every block prepared for the host, and every size prepared for its packets, over
    a whole transfer. The lemmas about standard requests read chapter 9 of USB 2.0 off the raw packet and
    the history of the run: what was last configured, what was last stalled. */
module UsbControlData {
  import opened UsbControl
  import opened UsbControlRuns
  import opened UsbControlStarts
  import opened Wrappers

  /* ---------- the packets of a transfer ---------- */

  /** The sizes prepared for packets from the host. */
  function OutSizes(log: seq<Effect>): seq<nat>
    decreases |log|
  {
    if log == [] then []
    else
      var last := log[|log| - 1];
      OutSizes(log[..|log| - 1]) + if last.PrepareOut? then [last.size] else []
  }

  lemma OutSizesMore(log: seq<Effect>, e: Effect)
    ensures OutSizes(log + [e]) == OutSizes(log) + if e.PrepareOut? then [e.size] else []
  {
    assert (log + [e])[..|log|] == log;
  }

  /** As many empty blocks. */
  function Empty(k: nat): seq<seq<Byte>> { seq(k, _ => []) }

  /** The IN completions before any other. */
  function LeadingIns(cs: seq<Event>): nat {
    if cs != [] && cs[0].InDone? then 1 + LeadingIns(cs[1..]) else 0
  }

  /** The empty blocks sent after the SETUP: one at every completion of a data stage that announced no
      end of its own, or one for the status stage behind data from the host. */
  function EmptyAfter(phase: Phase, cs: seq<Event>): nat {
    match phase
    case DataIn(ends) => if ends then 0 else LeadingIns(cs)
    case DataOut => if cs != [] && cs[0].OutDone? then 1 else 0
    case _ => 0
  }

  /** The packets awaited after the SETUP: the empty status packet behind data for the host. */
  function AwaitedAfter(phase: Phase, cs: seq<Event>): seq<nat> {
    if phase == DataIn(true) && cs != [] && cs[0].InDone? then [0] else []
  }

  /** What the SETUP sends: the data for the host, cut to what was asked for, in one block; or, when no data
      come from the host, the empty status packet. */
  function SentFirst(p: Packet, buf: seq<Byte>): seq<seq<Byte>> {
    var len := Min(|buf|, p.length);
    if p.toHost then if len > 0 then [buf[..len]] else []
    else if len > 0 then [] else [[]]
  }

  /** What the SETUP awaits: the data from the host, cut alike, in one size; or the empty status packet. */
  function AwaitedFirst(p: Packet, size: nat): seq<nat> {
    var len := Min(size, p.length);
    if p.toHost then if len > 0 then [] else [0]
    else if len > 0 then [len] else []
  }

  /** Both histories grew by these. */
  predicate Moved(d: Device, d1: Device, sent: seq<seq<Byte>>, awaited: seq<nat>) {
    d1.io.sent == d.io.sent + sent && OutSizes(d1.io.log) == OutSizes(d.io.log) + awaited
  }

  lemma MovedBoth(d: Device, d1: Device, d2: Device, sent: seq<seq<Byte>>, awaited: seq<nat>,
                  sent2: seq<seq<Byte>>, awaited2: seq<nat>)
    requires Moved(d, d1, sent, awaited) && Moved(d1, d2, sent2, awaited2)
    ensures Moved(d, d2, sent + sent2, awaited + awaited2)
  {
    hide OutSizes;
    assert d.io.sent + sent + sent2 == d.io.sent + (sent + sent2);
    assert OutSizes(d.io.log) + awaited + awaited2 == OutSizes(d.io.log) + (awaited + awaited2);
  }

  /** An accepted SETUP prepares its first stage. */
  lemma SetupMoves(mode: AddressMode, d: Device, s: SetupInput)
    requires Accepted(mode, d, s).Some?
    ensures var buf := Accepted(mode, d, s).value.buf;
            Moved(d, SetupStep(mode, d, s), SentFirst(s.packet, buf), AwaitedFirst(s.packet, |buf|))
  {
    hide Begin, Serve, Answer;
    var w := d.(ep0 := WaitingSetup, setup := s.packet);
    ServeFrame(mode, w);
    ServeAwaitsNothing(mode, w);
    var d1 := WithTransfer(if s.hook.Some? then w else Serve(mode, w), Accepted(mode, d, s).value);
    assert SetupStep(mode, d, s) == Begin(d1);
    BeginMoves(d1);
  }

  lemma BeginMoves(d: Device)
    requires d.n == |d.next|
    ensures Moved(d, Begin(d), SentFirst(d.setup, d.next), AwaitedFirst(d.setup, d.n))
  {
    hide OutSizes;
    var len := Min(d.n, d.setup.length);
    OutSizesMore(d.io.log, PrepareOut(if d.setup.toHost then 0 else len));
  }

  lemma ServeAwaitsNothing(mode: AddressMode, d: Device)
    ensures OutSizes(Serve(mode, d).io.log) == OutSizes(d.io.log)
  {
    hide OutSizes;
    match Decode(d.setup) {
      case SetAddress => AddressedAwaitsNothing(d);
      case SetConfiguration => OutSizesMore(d.io.log, Notify(ConfiguredEvent));
      case ClearHalt(ep, isIn) => OutSizesMore(d.io.log, if isIn then ClearIn(ep) else ClearOut(ep));
      case SetHalt(ep, isIn) => OutSizesMore(d.io.log, if isIn then StallIn(ep) else StallOut(ep));
      case _ =>
    }
  }

  lemma AddressedAwaitsNothing(d: Device)
    ensures OutSizes(Addressed(d).io.log) == OutSizes(d.io.log)
  {
    hide OutSizes;
    OutSizesMore(d.io.log, SetHwAddress(d.setup.value));
    OutSizesMore(d.io.log + [SetHwAddress(d.setup.value)], Notify(AddressEvent));
  }

  lemma FailAwaitsNothing(d: Device)
    ensures OutSizes(Fail(d).io.log) == OutSizes(d.io.log)
  {
    hide OutSizes;
    OutSizesMore(d.io.log, StallIn(0));
    OutSizesMore(d.io.log + [StallIn(0)], StallOut(0));
    OutSizesMore(d.io.log + [StallIn(0)] + [StallOut(0)], Notify(StalledEvent));
    assert d.io.log + [StallIn(0)] + [StallOut(0)] + [Notify(StalledEvent)]
           == d.io.log + [StallIn(0), StallOut(0), Notify(StalledEvent)];
  }

  /** The stage a state is in. */
  predicate InPhase(d: Device, phase: Phase) {
    && d.ep0 == Ep0Of(phase)
    && (phase.DataIn? ==> phase.ends == EndsShort(d.max, d.setup.length, d.n) && d.n <= d.setup.length)
  }

  lemma CompletionMoves(mode: AddressMode, d: Device, phase: Phase, e: Event)
    requires InPhase(d, phase) && (e.InDone? || e.OutDone?)
    ensures InPhase(Step(mode, d, e), Advance(phase, e))
    ensures Moved(d, Step(mode, d, e), Empty(EmptyAfter(phase, [e])), AwaitedAfter(phase, [e]))
  {
    hide InPhase, Moved, Step, Advance;
    if e.InDone? {
      InMoves(mode, d, phase);
    } else {
      OutMoves(mode, d, phase, e.received);
    }
  }

  lemma InMoves(mode: AddressMode, d: Device, phase: Phase)
    requires InPhase(d, phase)
    ensures InPhase(Step(mode, d, InDone), Advance(phase, InDone))
    ensures Moved(d, Step(mode, d, InDone), Empty(EmptyAfter(phase, [InDone])), AwaitedAfter(phase, [InDone]))
  {
    hide OutSizes;
    OutSizesMore(d.io.log, PrepareOut(0));
    AddressedAwaitsNothing(d.(io := d.io.(ended := d.io.ended + [d.endcb])));
    FailAwaitsNothing(d);
    assert LeadingIns([InDone]) == 1;
    assert Empty(0) == [] && Empty(1) == [[]];
  }

  lemma OutMoves(mode: AddressMode, d: Device, phase: Phase, received: nat)
    requires InPhase(d, phase)
    ensures InPhase(Step(mode, d, OutDone(received)), Advance(phase, OutDone(received)))
    ensures Moved(d, Step(mode, d, OutDone(received)), Empty(EmptyAfter(phase, [OutDone(received)])),
                  AwaitedAfter(phase, [OutDone(received)]))
  {
    hide OutSizes;
    AddressedAwaitsNothing(d.(io := d.io.(ended := d.io.ended + [d.endcb])));
    FailAwaitsNothing(d);
    assert LeadingIns([OutDone(received)]) == 0;
    assert Empty(0) == [] && Empty(1) == [[]];
  }

  lemma AfterCompletion(phase: Phase, e: Event, cs: seq<Event>)
    requires e.InDone? || e.OutDone?
    ensures EmptyAfter(phase, [e] + cs) == EmptyAfter(phase, [e]) + EmptyAfter(Advance(phase, e), cs)
    ensures AwaitedAfter(phase, [e] + cs) == AwaitedAfter(phase, [e]) + AwaitedAfter(Advance(phase, e), cs)
  {
    assert ([e] + cs)[1..] == cs && [e][1..] == [];
    assert LeadingIns([e]) == if e.InDone? then 1 else 0;
    assert LeadingIns([e] + cs) == if e.InDone? then 1 + LeadingIns(cs) else 0;
  }

  lemma {:induction false} TailMoves(mode: AddressMode, d: Device, phase: Phase, es: seq<Event>)
    requires Tail(es) && InPhase(d, phase)
    ensures Moved(d, Run(mode, d, es), Empty(EmptyAfter(phase, Completions(es))), AwaitedAfter(phase, Completions(es)))
    decreases |es|
  {
    hide Moved, EmptyAfter, AwaitedAfter, InPhase, Advance, Step;
    if es == [] {
      NothingMoved(d, phase);
    } else {
      var e, rest := es[0], es[1..];
      var d1 := Step(mode, d, e);
      if e.InDone? || e.OutDone? {
        var phase1 := Advance(phase, e);
        CompletionMoves(mode, d, phase, e);
        TailMoves(mode, d1, phase1, rest);
        AfterCompletion(phase, e, Completions(rest));
        EmptySum(EmptyAfter(phase, [e]), EmptyAfter(phase1, Completions(rest)));
        MovedBoth(d, d1, Run(mode, d1, rest), Empty(EmptyAfter(phase, [e])), AwaitedAfter(phase, [e]),
                  Empty(EmptyAfter(phase1, Completions(rest))), AwaitedAfter(phase1, Completions(rest)));
      } else {
        OtherMoves(mode, d, phase, e);
        TailMoves(mode, d1, phase, rest);
        SameMoves(d, d1, Run(mode, d1, rest), Empty(EmptyAfter(phase, Completions(rest))),
                  AwaitedAfter(phase, Completions(rest)));
      }
    }
  }

  lemma NothingMoved(d: Device, phase: Phase)
    ensures Moved(d, d, Empty(EmptyAfter(phase, [])), AwaitedAfter(phase, []))
  {
  }

  lemma EmptySum(j: nat, k: nat)
    ensures Empty(j) + Empty(k) == Empty(j + k)
  {
  }

  lemma OtherMoves(mode: AddressMode, d: Device, phase: Phase, e: Event)
    requires InPhase(d, phase) && (e.OtherStart? || e.OtherDone?)
    ensures InPhase(Step(mode, d, e), phase)
    ensures Step(mode, d, e).io.sent == d.io.sent && Step(mode, d, e).io.log == d.io.log
  {
  }

  lemma SameMoves(d: Device, d1: Device, d2: Device, sent: seq<seq<Byte>>, awaited: seq<nat>)
    requires d1.io.sent == d.io.sent && d1.io.log == d.io.log && Moved(d1, d2, sent, awaited)
    ensures Moved(d, d2, sent, awaited)
  {
  }

  /** Main result: from any state, an accepted SETUP and any events without a further one have sent the
      data asked for in one block, if they go to the host, and otherwise only empty blocks, and have
      awaited the data asked for in one size, if they come from the host, and otherwise only empty packets. */
  lemma TransferData(mode: AddressMode, d: Device, s: SetupInput, es: seq<Event>)
    requires Tail(es) && Accepted(mode, d, s).Some?
    ensures var buf, cs := Accepted(mode, d, s).value.buf, Completions(es);
            var phase := FirstPhase(d.max, s.packet, Reply(|buf|, NoCallback));
            Moved(d, Run(mode, SetupStep(mode, d, s), es), SentFirst(s.packet, buf) + Empty(EmptyAfter(phase, cs)),
                  AwaitedFirst(s.packet, |buf|) + AwaitedAfter(phase, cs))
  {
    hide SetupStep, Accepted, ReplyTo, Moved, EmptyAfter, AwaitedAfter, SentFirst, AwaitedFirst;
    var buf, p, d0 := Accepted(mode, d, s).value.buf, s.packet, SetupStep(mode, d, s);
    var phase := FirstPhase(d.max, p, Reply(|buf|, NoCallback));
    AcceptedIsReply(mode, d, s);
    SetupStage(mode, d, s);
    SetupMoves(mode, d, s);
    TailMoves(mode, d0, phase, es);
    MovedBoth(d, d0, Run(mode, d0, es), SentFirst(p, buf), AwaitedFirst(p, |buf|),
              Empty(EmptyAfter(phase, Completions(es))), AwaitedAfter(phase, Completions(es)));
  }

  /** So a finished transfer of data from the host has awaited exactly the data, and answered with one
      empty packet; a finished transfer of data to the host has sent exactly the data, and awaited one. */
  lemma FinishedTransferData(mode: AddressMode, d: Device, s: SetupInput, es: seq<Event>)
    requires Tail(es) && Accepted(mode, d, s).Some?
    requires Finishes(FirstPhase(d.max, s.packet, ReplyTo(mode, s)), Completions(es))
    ensures var buf, p := Accepted(mode, d, s).value.buf, s.packet;
            var len := Min(|buf|, p.length);
            Moved(d, Run(mode, SetupStep(mode, d, s), es),
                  if !p.toHost then [[]] else if len > 0 then [buf[..len]] else [],
                  if p.toHost then [0] else if len > 0 then [len] else [])
  {
    hide SetupStep, Accepted, ReplyTo, OutSizes, Moved;
    AcceptedIsReply(mode, d, s);
    TransferData(mode, d, s, es);
    var buf, p := Accepted(mode, d, s).value.buf, s.packet;
    var len := Min(|buf|, p.length);
    var phase, cs := FirstPhase(d.max, p, ReplyTo(mode, s)), Completions(es);
    assert phase == FirstPhase(d.max, p, Reply(|buf|, NoCallback));
    assert Empty(0) == [] && Empty(1) == [[]];
    assert SentFirst(p, buf) + Empty(EmptyAfter(phase, cs)) == if !p.toHost then [[]] else if len > 0 then [buf[..len]] else [];
    assert AwaitedFirst(p, |buf|) + AwaitedAfter(phase, cs) == if p.toHost then [0] else if len > 0 then [len] else [];
  }
}
