/** What the control endpoint does over whole runs.

    `Host` is a reference automaton written from the host's side: it knows the stages of a control
    transfer (section 8.5.3 of the USB 2.0 specification), the device states (section 9.1.1) and the
    rule for SET_ADDRESS (section 9.4.6), and nothing about the driver's fields. `RunRefinesHost` says
    that the driver follows it in every run of resets, SETUP packets and completions in any order;
    `TransferOutcome` says in closed form what one transfer does, whatever came before it. */
module UsbControlRuns {
  import opened UsbControl
  import opened Wrappers

  /** `DataIn(false)` is a data stage that announces no end of its own. */
  datatype Phase = SetupPhase | DataIn(ends: bool) | DataOut | StatusIn | StatusOut | Halted

  datatype Host = Host(max: PacketSize, state: DeviceState, address: Byte, configuration: Byte,
                       phase: Phase, value: Byte, endcb: EndCallback, fired: seq<EndCallback>)

  datatype Reply = NoReply | Reply(size: nat, endcb: EndCallback)

  /** Size and callback of the transfer a SETUP is accepted with: a function of the packet and the
      callbacks' answers alone, whatever happened before. */
  function ReplyTo(mode: AddressMode, s: SetupInput): Reply {
    if s.hook.Some? then Reply(|s.hook.value.buf|, s.hook.value.endcb)
    else match Decode(s.packet)
      case DeviceStatus => Reply(2, NoCallback)
      case SetAddress => Reply(0, if mode == LateAddress then SetAddressCallback else NoCallback)
      case GetDescriptor => if s.descriptor.Some? then Reply(|s.descriptor.value|, NoCallback) else NoReply
      case GetConfiguration => Reply(1, NoCallback)
      case ZeroStatus => Reply(2, NoCallback)
      case EpStatus => if s.epStatus == EpDisabled then NoReply else Reply(2, NoCallback)
      case Unsupported => NoReply
      case _ => Reply(0, NoCallback)
  }

  /** A data stage of `len` bytes announces its own end: all `wanted` bytes or a short packet. */
  predicate EndsShort(max: PacketSize, wanted: nat, len: nat) {
    len == wanted || !Whole(max, len)
  }

  /** The stage after the SETUP stage: data if any bytes move, else status, which runs opposite to the
      direction bit of bmRequestType. */
  function FirstPhase(max: PacketSize, p: Packet, reply: Reply): Phase {
    if reply.NoReply? then Halted
    else
      var len := Min(reply.size, p.length);
      if p.toHost then if len == 0 then StatusOut else DataIn(EndsShort(max, p.length, len))
      else if len == 0 then StatusIn else DataOut
  }

  /** The stage after a completion; anything out of order halts the endpoint. */
  function Advance(phase: Phase, e: Event): Phase {
    match phase
    case DataIn(ends) => if e.InDone? then (if ends then StatusOut else phase) else Halted
    case DataOut => if e.OutDone? then StatusIn else Halted
    case StatusIn => if e.InDone? then SetupPhase else Halted
    case StatusOut => if e == OutDone(0) then SetupPhase else Halted
    case _ => Halted
  }

  function HostSetup(mode: AddressMode, h: Host, s: SetupInput): Host {
    var reply := ReplyTo(mode, s);
    var h1 := h.(phase := FirstPhase(h.max, s.packet, reply), value := s.packet.value,
                 endcb := if reply.Reply? then reply.endcb else NoCallback);
    if s.hook.Some? then h1
    else match Decode(s.packet)
      case SetConfiguration =>
        h1.(configuration := s.packet.value, state := if s.packet.value == 0 then Selected else Active)
      case SetAddress =>
        if mode == EarlyAddress && s.packet.bare then h1.(address := s.packet.value, state := Selected) else h1
      case _ => h1
  }

  /** The callback belongs to the completion of the status stage. */
  function HostDone(h: Host, e: Event): Host {
    var h1 := h.(phase := Advance(h.phase, e));
    if h1.phase == SetupPhase && h.endcb != NoCallback then
      var h2 := h1.(fired := h.fired + [h.endcb]);
      if h.endcb == SetAddressCallback then h2.(address := h.value, state := Selected) else h2
    else h1
  }

  function HostNext(mode: AddressMode, h: Host, e: Event): Host {
    match e
    case BusReset => h.(state := Ready, address := 0, configuration := 0, phase := SetupPhase)
    case Setup(raw, answers) => HostSetup(mode, h, InputOf(raw, answers))
    case InDone => HostDone(h, e)
    case OutDone(_) => HostDone(h, e)
    case _ => h
  }

  function HostRun(mode: AddressMode, h: Host, es: seq<Event>): Host
    decreases |es|
  {
    if es == [] then h else HostRun(mode, HostNext(mode, h, es[0]), es[1..])
  }

  function Ep0Of(phase: Phase): Ep0State {
    match phase
    case SetupPhase => WaitingSetup
    case DataIn(_) => Tx
    case DataOut => Rx
    case StatusIn => SendingSts
    case StatusOut => WaitingSts
    case Halted => Error
  }

  /** The simulation relation. */
  ghost predicate Follows(d: Device, h: Host) {
    && d.max == h.max && d.ep0 == Ep0Of(h.phase)
    && d.state == h.state && d.address == h.address && d.configuration == h.configuration
    && (h.phase != SetupPhase && h.phase != Halted ==> d.setup.value == h.value && d.endcb == h.endcb)
    && (h.phase.DataIn? ==> h.phase.ends == EndsShort(d.max, d.setup.length, d.n) && d.n <= d.setup.length)
  }

  /* ---------- the simulation ---------- */

  /** The first transaction of an accepted SETUP: data to the host or a status packet goes IN. */
  predicate FirstStageIsIn(p: Packet, size: nat) {
    p.toHost <==> size > 0 && p.length > 0
  }

  predicate EndsStatusStage(d: Device, e: Event) {
    (d.ep0 == SendingSts && e.InDone?) || (d.ep0 == WaitingSts && e == OutDone(0))
  }

  /** The end-of-transfer callback is called on the completion of a status stage and at no other
      event, once, and it is the one registered. */
  lemma StepFires(mode: AddressMode, d: Device, e: Event)
    ensures Step(mode, d, e).io.ended
            == d.io.ended + (if EndsStatusStage(d, e) && d.endcb != NoCallback then [d.endcb] else [])
  {
    match e {
      case Setup(raw, answers) => SetupFiresNothing(mode, d, InputOf(raw, answers));
      case _ =>
    }
  }

  lemma SetupFiresNothing(mode: AddressMode, d: Device, s: SetupInput)
    ensures SetupStep(mode, d, s).io.ended == d.io.ended
  {
    hide Serve, Answer;
    ServeFrame(mode, d.(ep0 := WaitingSetup, setup := s.packet));
  }

  /** Every TRUE return of the request handlers has set up a transfer, and which one depends on the
      packet and the callbacks only. */
  lemma AcceptedIsReply(mode: AddressMode, d: Device, s: SetupInput)
    ensures var t := Accepted(mode, d, s);
            ReplyTo(mode, s) == if t.None? then NoReply else Reply(|t.value.buf|, t.value.endcb)
  {
  }

  /** An accepted SETUP enters the stage that its packet and reply call for. */
  lemma BeginFollows(d: Device, h: Host)
    requires d.n == |d.next|
    requires h.phase == FirstPhase(h.max, d.setup, Reply(d.n, d.endcb)) && d.max == h.max
    requires d.setup.value == h.value && d.endcb == h.endcb
    requires d.state == h.state && d.address == h.address && d.configuration == h.configuration
    ensures Follows(Begin(d), h)
  {
  }

  lemma SetupFollows(mode: AddressMode, d: Device, h: Host, s: SetupInput)
    requires d.max == h.max && d.state == h.state && d.address == h.address && d.configuration == h.configuration
    ensures Follows(SetupStep(mode, d, s), HostSetup(mode, h, s))
  {
    hide Begin, Serve, Answer, Decode, FirstPhase;
    var d0 := d.(ep0 := WaitingSetup, setup := s.packet);
    var t := Accepted(mode, d, s);
    AcceptedIsReply(mode, d, s);
    RefusedHalts(h.max, s.packet);
    ServeSets(mode, d0);
    if t.Some? {
      var d1 := if s.hook.Some? then d0 else Serve(mode, d0);
      BeginFollows(WithTransfer(d1, t.value), HostSetup(mode, h, s));
    }
  }

  lemma RefusedHalts(max: PacketSize, p: Packet)
    ensures FirstPhase(max, p, NoReply) == Halted
  {
  }

  /** Device state, address and configuration after the request, and what it leaves alone. */
  lemma ServeSets(mode: AddressMode, d: Device)
    ensures var d1, request := Serve(mode, d), Decode(d.setup);
            && d1.max == d.max && d1.setup == d.setup
            && d1.configuration == (if request == SetConfiguration then d.setup.value else d.configuration)
            && d1.address == (if request == SetAddress && mode == EarlyAddress && d.setup.bare then d.setup.value
                              else d.address)
            && d1.state == (if request == SetConfiguration then (if d.setup.value == 0 then Selected else Active)
                            else if request == SetAddress && mode == EarlyAddress && d.setup.bare then Selected
                            else d.state)
  {
  }

  lemma CompletionFollows(mode: AddressMode, d: Device, h: Host, e: Event)
    requires Follows(d, h) && (e.InDone? || e.OutDone?)
    ensures Follows(Step(mode, d, e), HostDone(h, e))
    ensures EndsStatusStage(d, e) <==> HostDone(h, e).phase == SetupPhase
  {
    hide SetupStep, ReadSetup, Whole;
  }

  /** One step of the driver is one step of the reference automaton, callbacks included. */
  lemma StepFollows(mode: AddressMode, d: Device, h: Host, e: Event)
    requires Follows(d, h) && d.io.ended == h.fired
    ensures Follows(Step(mode, d, e), HostNext(mode, h, e))
    ensures Step(mode, d, e).io.ended == HostNext(mode, h, e).fired
  {
    hide SetupStep, InStep, OutStep;
    StepFires(mode, d, e);
    match e {
      case Setup(raw, answers) => SetupFollows(mode, d, h, InputOf(raw, answers));
      case InDone => CompletionFollows(mode, d, h, e);
      case OutDone(_) => CompletionFollows(mode, d, h, e);
      case _ =>
    }
  }

  lemma {:induction false} RunFollows(mode: AddressMode, d: Device, h: Host, es: seq<Event>)
    requires Follows(d, h) && d.io.ended == h.fired
    ensures Follows(Run(mode, d, es), HostRun(mode, h, es))
    ensures Run(mode, d, es).io.ended == HostRun(mode, h, es).fired
    decreases |es|
  {
    if es != [] {
      StepFollows(mode, d, h, es[0]);
      RunFollows(mode, Step(mode, d, es[0]), HostNext(mode, h, es[0]), es[1..]);
    }
  }

  function HostAfterReset(d: Device): Host {
    Host(d.max, Ready, 0, 0, SetupPhase, 0, NoCallback, d.io.ended)
  }

  /** Main result: in every run after a bus reset, the stage of endpoint zero, the device state,
      address and configuration, and the callbacks made are those of the reference automaton. */
  lemma RunRefinesHost(mode: AddressMode, d: Device, es: seq<Event>)
    ensures var d1, h1 := Run(mode, ResetStep(d), es), HostRun(mode, HostAfterReset(d), es);
            && d1.ep0 == Ep0Of(h1.phase)
            && (d1.state, d1.address, d1.configuration) == (h1.state, h1.address, h1.configuration)
            && d1.io.ended == h1.fired
  {
    RunFollows(mode, ResetStep(d), HostAfterReset(d), es);
  }

  /** Both directions of endpoint zero were stalled, and the application told, by what was last done. */
  predicate JustStalled(before: seq<Effect>, after: seq<Effect>) {
    && |after| >= |before| + 3
    && after[|after| - 3..] == [StallIn(0), StallOut(0), Notify(StalledEvent)]
  }

  /** The error stage and the stalling of both directions are the same thing: an event on endpoint zero
      leads to the one if and only if it does the other. */
  lemma ErrorIffStalled(mode: AddressMode, d: Device, e: Event)
    requires e.Setup? || e.InDone? || e.OutDone?
    ensures Step(mode, d, e).ep0 == Error <==> JustStalled(d.io.log, Step(mode, d, e).io.log)
  {
    match e {
      case Setup(raw, answers) => SetupErrorIffStalled(mode, d, InputOf(raw, answers));
      case _ =>
    }
  }

  lemma SetupErrorIffStalled(mode: AddressMode, d: Device, s: SetupInput)
    ensures SetupStep(mode, d, s).ep0 == Error <==> JustStalled(d.io.log, SetupStep(mode, d, s).io.log)
  {
    var d0 := d.(ep0 := WaitingSetup, setup := s.packet);
    var t := Accepted(mode, d, s);
    if t.Some? {
      hide Begin, Serve, Answer, Decode;
      var d1 := WithTransfer(if s.hook.Some? then d0 else Serve(mode, d0), t.value);
      ServeLogs(mode, d0);
      BeginLogs(d1);
      assert SetupStep(mode, d, s) == Begin(d1);
      var mid, after := d1.io.log, Begin(d1).io.log;
      if |after| >= |d.io.log| + 3 {
        assert after[|after| - 3..][0] == mid[|d.io.log|];
      }
    } else {
      FailStalls(d0);
    }
  }

  lemma BeginLogs(d: Device)
    requires d.n == |d.next|
    ensures Begin(d).ep0 != Error
    ensures Begin(d).io.log == d.io.log || exists size :: Begin(d).io.log == d.io.log + [PrepareOut(size)]
  {
  }

  lemma FailStalls(d: Device)
    ensures Fail(d).ep0 == Error && JustStalled(d.io.log, Fail(d).io.log)
  {
  }

  /** A request logs at most two effects before its transfer starts, and none of them for both directions. */
  lemma ServeLogs(mode: AddressMode, d: Device)
    ensures var more := Serve(mode, d).io.log;
            && d.io.log <= more && |more| <= |d.io.log| + 2
            && (|more| == |d.io.log| + 2 ==> more[|d.io.log|].SetHwAddress?)
  {
  }

  /** Only a SETUP or a reset ends the error stage. */
  lemma {:induction false} ErrorStays(mode: AddressMode, d: Device, es: seq<Event>)
    requires d.ep0 == Error && Tail(es)
    ensures Run(mode, d, es).ep0 == Error
    decreases |es|
  {
    if es != [] {
      assert es[0] in es;
      ErrorStays(mode, Step(mode, d, es[0]), es[1..]);
    }
  }

  /* ---------- one transfer, from any state ---------- */

  /** No SETUP and no reset. */
  predicate Tail(es: seq<Event>) {
    forall e :: e in es ==> !e.BusReset? && !e.Setup?
  }

  /** The completions on endpoint zero. */
  function Completions(es: seq<Event>): seq<Event> {
    if es == [] then []
    else if es[0].InDone? || es[0].OutDone? then [es[0]] + Completions(es[1..])
    else Completions(es[1..])
  }

  /** The completions `cs` carry a transfer from this stage to its end: the rest of the data stage, then
      one status packet in the other direction, empty if it comes from the host. */
  predicate Finishes(phase: Phase, cs: seq<Event>) {
    match phase
    case SetupPhase => cs == []
    case DataIn(ends) => ends && |cs| == 2 && cs[0] == InDone && cs[1] == OutDone(0)
    case DataOut => |cs| == 2 && cs[0].OutDone? && cs[1] == InDone
    case StatusIn => cs == [InDone]
    case StatusOut => cs == [OutDone(0)]
    case Halted => false
  }

  /** Some beginning of `cs` finished the transfer. */
  predicate Completed(phase: Phase, cs: seq<Event>) {
    (|cs| >= 1 && Finishes(phase, cs[..1])) || (|cs| >= 2 && Finishes(phase, cs[..2]))
  }

  function AdvanceAll(phase: Phase, cs: seq<Event>): Phase
    decreases |cs|
  {
    if cs == [] then phase else AdvanceAll(Advance(phase, cs[0]), cs[1..])
  }

  lemma {:induction false} HaltedStays(cs: seq<Event>)
    ensures AdvanceAll(Halted, cs) == Halted
    ensures AdvanceAll(SetupPhase, cs) == if cs == [] then SetupPhase else Halted
    decreases |cs|
  {
    if cs != [] {
      HaltedStays(cs[1..]);
    }
  }

  /** Endpoint zero is ready for the next SETUP if and only if exactly one whole transfer was seen. */
  lemma {:induction false} BackToSetupIffFinished(phase: Phase, cs: seq<Event>)
    ensures AdvanceAll(phase, cs) == SetupPhase <==> Finishes(phase, cs)
    decreases |cs|
  {
    HaltedStays(cs);
    if cs != [] {
      BackToSetupIffFinished(Advance(phase, cs[0]), cs[1..]);
    }
  }

  lemma {:induction false} AdvanceAllAppend(phase: Phase, cs: seq<Event>, e: Event)
    ensures AdvanceAll(phase, cs + [e]) == Advance(AdvanceAll(phase, cs), e)
    decreases |cs|
  {
    if cs != [] {
      assert (cs + [e])[1..] == cs[1..] + [e];
      AdvanceAllAppend(Advance(phase, cs[0]), cs[1..], e);
    }
  }

  /** The completion that finishes a transfer is the first to complete it. */
  lemma CompletedAppend(phase: Phase, cs: seq<Event>, e: Event)
    ensures Completed(phase, cs + [e]) <==> Completed(phase, cs) || (phase != SetupPhase && Finishes(phase, cs + [e]))
    ensures Completed(phase, cs) ==> !Finishes(phase, cs + [e])
  {
    var more := cs + [e];
    if |cs| == 0 {
      assert more[..1] == more;
    } else if |cs| == 1 {
      assert more[..1] == cs[..1] && more[..2] == more;
    } else {
      assert more[..1] == cs[..1] && more[..2] == cs[..2];
    }
  }

  /** The host's view after a SETUP that left `h` and the completions `cs`. */
  function HostAfter(h: Host, cs: seq<Event>): Host {
    var h1 := h.(phase := AdvanceAll(h.phase, cs));
    if Completed(h.phase, cs) && h.endcb != NoCallback then
      var h2 := h1.(fired := h.fired + [h.endcb]);
      if h.endcb == SetAddressCallback then h2.(address := h.value, state := Selected) else h2
    else h1
  }

  lemma HostAfterStep(h: Host, cs: seq<Event>, e: Event)
    requires h.phase != SetupPhase
    ensures HostDone(HostAfter(h, cs), e) == HostAfter(h, cs + [e])
  {
    AdvanceAllAppend(h.phase, cs, e);
    CompletedAppend(h.phase, cs, e);
    BackToSetupIffFinished(h.phase, cs + [e]);
  }

  lemma {:induction false} HostTail(mode: AddressMode, h: Host, es: seq<Event>, cs: seq<Event>)
    requires Tail(es) && h.phase != SetupPhase
    ensures HostRun(mode, HostAfter(h, cs), es) == HostAfter(h, cs + Completions(es))
    decreases |es|
  {
    if es == [] {
      assert cs + [] == cs;
    } else {
      var e, rest := es[0], es[1..];
      if e.InDone? || e.OutDone? {
        HostAfterStep(h, cs, e);
        HostTail(mode, h, rest, cs + [e]);
        assert cs + [e] + Completions(rest) == cs + Completions(es);
      } else {
        HostTail(mode, h, rest, cs);
      }
    }
  }

  /** Whatever the driver did before, a SETUP followed by any events but resets and SETUPs leaves
      endpoint zero in the stage of section 8.5.3 its completions call for; the callback registered
      for this SETUP has been called if and only if its status stage was completed, and only once; and
      the address change of section 9.4.6 has happened at that point. */
  lemma TransferOutcome(mode: AddressMode, d: Device, s: SetupInput, es: seq<Event>)
    requires Tail(es)
    ensures var reply := ReplyTo(mode, s);
            var phase, cs := FirstPhase(d.max, s.packet, reply), Completions(es);
            var d0, d1 := SetupStep(mode, d, s), Run(mode, SetupStep(mode, d, s), es);
            var ends := reply.Reply? && reply.endcb != NoCallback && Completed(phase, cs);
            && d1.ep0 == Ep0Of(AdvanceAll(phase, cs))
            && (d1.ep0 == WaitingSetup <==> Finishes(phase, cs))
            && d1.io.ended == d.io.ended + (if ends then [reply.endcb] else [])
            && d1.configuration == d0.configuration
            && (if ends && reply.endcb == SetAddressCallback
                then d1.address == s.packet.value && d1.state == Selected
                else d1.address == d0.address && d1.state == d0.state)
  {
    var h0 := TransferFollows(mode, d, s, es);
    BackToSetupIffFinished(h0.phase, Completions(es));
  }

  lemma TransferFollows(mode: AddressMode, d: Device, s: SetupInput, es: seq<Event>) returns (h0: Host)
    requires Tail(es)
    ensures var reply := ReplyTo(mode, s);
            && h0.phase == FirstPhase(d.max, s.packet, reply) && h0.value == s.packet.value
            && h0.endcb == (if reply.Reply? then reply.endcb else NoCallback)
            && h0.fired == d.io.ended
    ensures Follows(SetupStep(mode, d, s), h0)
    ensures Follows(Run(mode, SetupStep(mode, d, s), es), HostAfter(h0, Completions(es)))
    ensures Run(mode, SetupStep(mode, d, s), es).io.ended == HostAfter(h0, Completions(es)).fired
  {
    var h := Host(d.max, d.state, d.address, d.configuration, Halted, 0, NoCallback, d.io.ended);
    SetupFollows(mode, d, h, s);
    SetupFiresNothing(mode, d, s);
    h0 := HostSetup(mode, h, s);
    HostSetupFacts(mode, h, s);
    TailFollows(mode, SetupStep(mode, d, s), h0, es);
  }

  lemma HostSetupFacts(mode: AddressMode, h: Host, s: SetupInput)
    ensures var h0, reply := HostSetup(mode, h, s), ReplyTo(mode, s);
            && h0.phase == FirstPhase(h.max, s.packet, reply) && h0.phase != SetupPhase
            && h0.value == s.packet.value && h0.fired == h.fired
            && h0.endcb == (if reply.Reply? then reply.endcb else NoCallback)
  {
  }

  lemma TailFollows(mode: AddressMode, d0: Device, h0: Host, es: seq<Event>)
    requires Tail(es) && Follows(d0, h0) && d0.io.ended == h0.fired && h0.phase != SetupPhase
    ensures Follows(Run(mode, d0, es), HostAfter(h0, Completions(es)))
    ensures Run(mode, d0, es).io.ended == HostAfter(h0, Completions(es)).fired
  {
    RunFollows(mode, d0, h0, es);
    assert HostAfter(h0, []) == h0;
    HostTail(mode, h0, es, []);
    assert [] + Completions(es) == Completions(es);
  }

  /** What a SETUP leaves of address and state before its transfer ends. */
  lemma SetupKeepsAddress(mode: AddressMode, d: Device, s: SetupInput)
    requires s.hook.None? && s.packet.kind == TYPE_STD && Decode(s.packet) == SetAddress
    ensures var d0 := SetupStep(mode, d, s);
            if mode == EarlyAddress && s.packet.bare
            then d0.address == s.packet.value && d0.state == Selected
            else d0.address == d.address && d0.state == d.state
  {
    var h := Host(d.max, d.state, d.address, d.configuration, Halted, 0, NoCallback, d.io.ended);
    SetupFollows(mode, d, h, s);
  }

  /** Section 9.4.6: in late mode a SET_ADDRESS changes address and state when its status stage is
      completed, and leaves both alone until then and if it never is. */
  lemma LateAddressAfterStatus(d: Device, s: SetupInput, es: seq<Event>)
    requires Tail(es) && s.hook.None? && s.packet.kind == TYPE_STD && Decode(s.packet) == SetAddress
    ensures var d1 := Run(LateAddress, SetupStep(LateAddress, d, s), es);
            if Completed(FirstPhase(d.max, s.packet, ReplyTo(LateAddress, s)), Completions(es))
            then d1.address == s.packet.value && d1.state == Selected
            else d1.address == d.address && d1.state == d.state
  {
    TransferOutcome(LateAddress, d, s, es);
    SetupKeepsAddress(LateAddress, d, s);
  }

  /** In early mode the same packet takes effect in its SETUP stage, and the status stage adds nothing. */
  lemma EarlyAddressAtSetup(d: Device, s: SetupInput, es: seq<Event>)
    requires Tail(es) && s.hook.None? && s.packet.bare
    requires s.packet.recipient == RECIPIENT_DEVICE && s.packet.kind == TYPE_STD && s.packet.request == REQ_SET_ADDRESS
    ensures var d1 := Run(EarlyAddress, SetupStep(EarlyAddress, d, s), es);
            d1.address == s.packet.value && d1.state == Selected && d1.io.ended == d.io.ended
  {
    TransferOutcome(EarlyAddress, d, s, es);
    assert Decode(s.packet) == SetAddress;
    SetupKeepsAddress(EarlyAddress, d, s);
  }

  /* ---------- callbacks over a run ---------- */

  function Setups(es: seq<Event>): nat {
    if es == [] then 0 else (if es[0].Setup? then 1 else 0) + Setups(es[1..])
  }

  /** The transfer may still call its callback. */
  predicate MayFire(h: Host) { h.phase != SetupPhase && h.phase != Halted }

  lemma {:induction false} HostFiresOncePerSetup(mode: AddressMode, h: Host, es: seq<Event>)
    ensures |HostRun(mode, h, es).fired| <= |h.fired| + Setups(es) + (if MayFire(h) then 1 else 0)
    decreases |es|
  {
    if es != [] {
      HostFiresOncePerSetup(mode, HostNext(mode, h, es[0]), es[1..]);
    }
  }

  /** In every run the end-of-transfer callback is called at most once per SETUP packet. */
  lemma FiresAtMostOncePerSetup(mode: AddressMode, d: Device, es: seq<Event>)
    ensures |Run(mode, ResetStep(d), es).io.ended| <= |d.io.ended| + Setups(es)
  {
    RunRefinesHost(mode, d, es);
    HostFiresOncePerSetup(mode, HostAfterReset(d), es);
  }

  /* ---------- control reads ---------- */

  function InDones(k: nat): seq<Event> { seq(k, _ => InDone) }

  lemma {:induction false} CompletionsOfCompletions(cs: seq<Event>)
    requires forall e :: e in cs ==> e.InDone? || e.OutDone?
    ensures Completions(cs) == cs
    decreases |cs|
  {
    if cs != [] {
      CompletionsOfCompletions(cs[1..]);
    }
  }

  /** Section 5.5.3 and what the code makes of it: a read whose data the device accepted to send is
      finished by its IN completions and one empty status packet if and only if the first block
      already ended the data stage, by being all that was asked for or by ending short. */
  lemma ControlReadCompletes(mode: AddressMode, d: Device, s: SetupInput, k: nat)
    requires ReplyTo(mode, s).Reply? && ReplyTo(mode, s).size > 0
    requires s.packet.toHost && s.packet.length > 0
    ensures Run(mode, SetupStep(mode, d, s), InDones(k) + [OutDone(0)]).ep0 == WaitingSetup
            <==> k == 1 && (ReplyTo(mode, s).size >= s.packet.length || ReplyTo(mode, s).size % d.max != 0)
  {
    var es := InDones(k) + [OutDone(0)];
    TransferOutcome(mode, d, s, es);
    CompletionsOfCompletions(es);
    assert k > 0 ==> es[0] == InDone;
    assert k == 1 ==> es == [InDone, OutDone(0)];
  }

  function GetDescriptorInput(wanted: nat, descriptor: seq<Byte>): SetupInput {
    SetupInput(Packet(true, TYPE_STD, RECIPIENT_DEVICE, false, REQ_GET_DESCRIPTOR, 0, 0, false, wanted),
               None, Some(descriptor), EpActive)
  }

  /** A standard request of the device without data, as it comes from the host. */
  function NoData(request: Byte, value: Byte): RawSetup
    requires 0 <= request < 256 && 0 <= value < 256
  {
    [0, request, value, 0, 0, 0, 0, 0]
  }

  const PLAIN := Answers(None, None, EpActive)

  lemma NoDataPacket(request: Byte, value: Byte)
    requires 0 <= request < 256 && 0 <= value < 256
    ensures ReadSetup(NoData(request, value))
            == Packet(false, TYPE_STD, RECIPIENT_DEVICE, true, request, value, 0, false, 0)
  {
  }

  /** A descriptor of whole packets, shorter than the host asked for: after its data and the empty packet
      the host answers with its status packet, and the driver stalls. */
  lemma ReadOfWholePacketsFails(mode: AddressMode, d: Device, descriptor: seq<Byte>, wanted: nat)
    requires 0 < |descriptor| < wanted && |descriptor| % d.max == 0
    ensures var s := GetDescriptorInput(wanted, descriptor);
            Run(mode, SetupStep(mode, d, s), [InDone, InDone, OutDone(0)]).ep0 == Error
  {
    var s := GetDescriptorInput(wanted, descriptor);
    var es := [InDone, InDone, OutDone(0)];
    assert Decode(s.packet) == GetDescriptor;
    assert FirstPhase(d.max, s.packet, ReplyTo(mode, s)) == DataIn(false);
    TransferOutcome(mode, d, s, es);
    CompletionsOfCompletions(es);
    var cs := es;
    assert cs[1..] == [InDone, OutDone(0)] && cs[1..][1..] == [OutDone(0)] && cs[1..][1..][1..] == [];
  }

  /** The data stage carries the first min(n, wLength) bytes, in one block. */
  lemma ReadSendsPrefix(mode: AddressMode, d: Device, s: SetupInput)
    requires Accepted(mode, d, s).Some?
    ensures var t := Accepted(mode, d, s).value;
            var len := Min(|t.buf|, s.packet.length);
            SetupStep(mode, d, s).io.sent == d.io.sent
              + (if s.packet.toHost then if len > 0 then [t.buf[..len]] else []
                 else if len > 0 then [] else [[]])
  {
    var d0 := d.(ep0 := WaitingSetup, setup := s.packet);
    ServeFrame(mode, d0);
    var d1 := WithTransfer(if s.hook.Some? then d0 else Serve(mode, d0), Accepted(mode, d, s).value);
    assert SetupStep(mode, d, s) == Begin(d1);
  }

  /** While a data stage does not end, each IN completion sends one more empty packet. */
  lemma {:induction false} EmptyPacketsForever(mode: AddressMode, d: Device, k: nat)
    requires d.ep0 == Tx && d.n < d.setup.length && Whole(d.max, d.n)
    ensures var d1 := Run(mode, d, InDones(k));
            && d1.ep0 == Tx && d1.n == d.n && d1.setup == d.setup
            && d1.io.sent == d.io.sent + seq(k, _ => [])
    decreases k
  {
    if k > 0 {
      var d1 := Step(mode, d, InDone);
      assert InDones(k)[1..] == InDones(k - 1);
      EmptyPacketsForever(mode, d1, k - 1);
      assert [[]] + seq(k - 1, _ => []) == seq<seq<Byte>>(k, _ => []);
    }
  }

  /* ---------- busy bits and configuration ---------- */

  /** A stage in which the driver waits for a completion has that direction's busy bit set; an active
      device has a configuration. */
  predicate Inv(d: Device) {
    && (d.ep0 == Tx || d.ep0 == SendingSts ==> 0 in d.transmitting)
    && (d.ep0 == Rx || d.ep0 == WaitingSts ==> 0 in d.receiving)
    && (d.state == Active ==> d.configuration != 0)
  }

  lemma StepKeepsInv(mode: AddressMode, d: Device, e: Event)
    requires Inv(d)
    ensures Inv(Step(mode, d, e))
  {
    hide SetupStep, ReadSetup;
    match e {
      case Setup(raw, answers) => SetupKeepsInv(mode, d, InputOf(raw, answers));
      case _ =>
    }
  }

  lemma SetupKeepsInv(mode: AddressMode, d: Device, s: SetupInput)
    requires Inv(d)
    ensures Inv(SetupStep(mode, d, s))
  {
    hide Serve, Answer;
    var d0 := d.(ep0 := WaitingSetup, setup := s.packet);
    ServeFrame(mode, d0);
    var t := Accepted(mode, d, s);
    if t.Some? {
      BeginKeepsInv(WithTransfer(if s.hook.Some? then d0 else Serve(mode, d0), t.value));
    }
  }

  lemma BeginKeepsInv(d: Device)
    requires d.n == |d.next| && (d.state == Active ==> d.configuration != 0)
    ensures Inv(Begin(d))
  {
  }

  /** Serving a request touches neither endpoint zero nor its histories. */
  lemma ServeFrame(mode: AddressMode, d: Device)
    ensures var d1 := Serve(mode, d);
            && d1.setup == d.setup && d1.transmitting == d.transmitting && d1.receiving == d.receiving
            && d1.io.sent == d.io.sent && d1.io.starts == d.io.starts && d1.io.ended == d.io.ended
            && ((d.state == Active ==> d.configuration != 0) ==> (d1.state == Active ==> d1.configuration != 0))
  {
    match Decode(d.setup) {
      case SetConfiguration =>
      case SetAddress =>
      case _ =>
    }
  }

  lemma {:induction false} RunKeepsInv(mode: AddressMode, d: Device, es: seq<Event>)
    requires Inv(d)
    ensures Inv(Run(mode, d, es))
    decreases |es|
  {
    if es != [] {
      StepKeepsInv(mode, d, es[0]);
      RunKeepsInv(mode, Step(mode, d, es[0]), es[1..]);
    }
  }

  /** A device is active if and only if it has a configuration. */
  predicate Synced(d: Device) { d.state == Active <==> d.configuration != 0 }

  /** The event that puts a SET_ADDRESS into effect: its SETUP in early mode, the end of its status stage
      in late mode. */
  predicate ChangesAddress(mode: AddressMode, d: Device, e: Event) {
    match e
    case Setup(raw, answers) =>
      mode == EarlyAddress && answers.hook.None? && ReadSetup(raw).bare && Decode(ReadSetup(raw)) == SetAddress
    case _ => EndsStatusStage(d, e) && d.endcb == SetAddressCallback
  }

  /** One step keeps device state and configuration in step if and only if it is not the address change of
      a configured device: that one leaves the configuration number behind. */
  lemma StepKeepsSyncedIff(mode: AddressMode, d: Device, e: Event)
    requires Synced(d)
    ensures Synced(Step(mode, d, e)) <==> !(ChangesAddress(mode, d, e) && d.configuration != 0)
  {
    hide ReadSetup;
    match e {
      case Setup(raw, answers) => SetupKeepsSyncedIff(mode, d, InputOf(raw, answers));
      case _ =>
    }
  }

  lemma SetupKeepsSyncedIff(mode: AddressMode, d: Device, s: SetupInput)
    requires Synced(d)
    ensures Synced(SetupStep(mode, d, s))
            <==> !(mode == EarlyAddress && s.hook.None? && s.packet.bare && Decode(s.packet) == SetAddress
                   && d.configuration != 0)
  {
    var h := Host(d.max, d.state, d.address, d.configuration, Halted, 0, NoCallback, d.io.ended);
    SetupFollows(mode, d, h, s);
  }

  predicate AlwaysSynced(mode: AddressMode, d: Device, es: seq<Event>)
    decreases |es|
  {
    Synced(d) && (es == [] || AlwaysSynced(mode, Step(mode, d, es[0]), es[1..]))
  }

  predicate ReaddressesConfigured(mode: AddressMode, d: Device, es: seq<Event>)
    decreases |es|
  {
    es != [] && ((ChangesAddress(mode, d, es[0]) && d.configuration != 0)
                 || ReaddressesConfigured(mode, Step(mode, d, es[0]), es[1..]))
  }

  /** Section 9.1.1: over a whole run a device is active exactly while it has a configuration, if and only
      if no SET_ADDRESS takes effect while it has one. */
  lemma {:induction false} RunSyncedIff(mode: AddressMode, d: Device, es: seq<Event>)
    requires Synced(d)
    ensures AlwaysSynced(mode, d, es) <==> !ReaddressesConfigured(mode, d, es)
    decreases |es|
  {
    if es != [] {
      StepKeepsSyncedIff(mode, d, es[0]);
      if Synced(Step(mode, d, es[0])) {
        RunSyncedIff(mode, Step(mode, d, es[0]), es[1..]);
      }
    }
  }

  /** The runs that break it: whatever happened before, and whatever else happens in between, a device
      given a configuration and then an address ends selected, with its configuration number still set. */
  lemma AddressAfterConfiguration(mode: AddressMode, d: Device, setConfig: SetupInput, es: seq<Event>,
                                  setAddress: SetupInput, fs: seq<Event>)
    requires Tail(es) && setConfig.hook.None? && Decode(setConfig.packet) == SetConfiguration
    requires Tail(fs) && setAddress.hook.None? && Decode(setAddress.packet) == SetAddress
    requires if mode == EarlyAddress then setAddress.packet.bare
             else Completed(FirstPhase(d.max, setAddress.packet, ReplyTo(mode, setAddress)), Completions(fs))
    ensures var d1 := Run(mode, SetupStep(mode, d, setConfig), es);
            var d2 := Run(mode, SetupStep(mode, d1, setAddress), fs);
            && d1.state == (if setConfig.packet.value == 0 then Selected else Active)
            && d2.state == Selected && d2.address == setAddress.packet.value
            && d1.configuration == d2.configuration == setConfig.packet.value
  {
    hide SetupStep, Completions, Completed;
    var d1 := Run(mode, SetupStep(mode, d, setConfig), es);
    TransferOutcome(mode, d, setConfig, es);
    SetupConfigures(mode, d, setConfig);
    TransferOutcome(mode, d1, setAddress, fs);
    SetupConfigures(mode, d1, setAddress);
    SetupKeepsAddress(mode, d1, setAddress);
  }

  /** The configuration, and the state that goes with it, change at the SETUP of a SET_CONFIGURATION. */
  lemma SetupConfigures(mode: AddressMode, d: Device, s: SetupInput)
    requires s.hook.None?
    ensures var d0 := SetupStep(mode, d, s);
            if Decode(s.packet) == SetConfiguration
            then d0.configuration == s.packet.value && d0.state == (if s.packet.value == 0 then Selected else Active)
            else d0.configuration == d.configuration
  {
    var h := Host(d.max, d.state, d.address, d.configuration, Halted, 0, NoCallback, d.io.ended);
    SetupFollows(mode, d, h, s);
  }

  /** The callers ignore the result of the start functions: the first transaction of an accepted
      SETUP reaches the hardware if and only if the busy bit of its direction was clear. */
  lemma SetupStartsIffIdle(mode: AddressMode, d: Device, s: SetupInput)
    requires ReplyTo(mode, s).Reply?
    ensures var isIn := FirstStageIsIn(s.packet, ReplyTo(mode, s).size);
            SetupStep(mode, d, s).io.starts == d.io.starts
              + (if 0 in (if isIn then d.transmitting else d.receiving) then []
                 else [if isIn then StartIn(0) else StartOut(0)])
  {
    AcceptedIsReply(mode, d, s);
    var d0 := d.(ep0 := WaitingSetup, setup := s.packet);
    ServeFrame(mode, d0);
    var d1 := WithTransfer(if s.hook.Some? then d0 else Serve(mode, d0), Accepted(mode, d, s).value);
    assert SetupStep(mode, d, s) == Begin(d1);
  }

  /** So the completion of a status packet that was in flight when a SETUP arrived is taken for that
      SETUP's own. Here one transaction was started, for SET_CONFIGURATION, and its completion changes the
      address. */
  lemma StaleCompletionChangesAddress(d: Device)
    ensures var first := InputOf(NoData(REQ_SET_CONFIGURATION, 1), PLAIN);
            var second := InputOf(NoData(REQ_SET_ADDRESS, 7), PLAIN);
            var d1 := SetupStep(LateAddress, ResetStep(d), first);
            var d2 := SetupStep(LateAddress, d1, second);
            && d2.io.starts == d.io.starts + [StartIn(0)]
            && d2.address == 0 && Step(LateAddress, d2, InDone).address == 7
  {
    var first := InputOf(NoData(REQ_SET_CONFIGURATION, 1), PLAIN);
    var second := InputOf(NoData(REQ_SET_ADDRESS, 7), PLAIN);
    NoDataPacket(REQ_SET_CONFIGURATION, 1);
    NoDataPacket(REQ_SET_ADDRESS, 7);
    hide ReadSetup;
    var d0 := ResetStep(d);
    var d1 := SetupStep(LateAddress, d0, first);
    assert Decode(first.packet) == SetConfiguration && Decode(second.packet) == SetAddress;
    SetupStartsIffIdle(LateAddress, d0, first);
    SetupKeepsInv(LateAddress, d0, first);
    assert d1.ep0 == SendingSts;
    SetupStartsIffIdle(LateAddress, d1, second);
  }

  /* ---------- the requests hook of the serial driver ---------- */

  const TYPE_CLASS := 0x20
  const CDC_SET_LINE_CODING := 0x20
  const CDC_GET_LINE_CODING := 0x21
  const CDC_SET_CONTROL_LINE_STATE := 0x22

  /** `sduRequestsHook`; the line coding structure has seven bytes. */
  function SduRequestsHook(p: Packet, linecoding: seq<Byte>): (t: Option<Transfer>)
    requires |linecoding| == 7
  {
    if p.kind != TYPE_CLASS then None
    else if p.request == CDC_GET_LINE_CODING || p.request == CDC_SET_LINE_CODING then
      Some(Transfer(linecoding, NoCallback))
    else if p.request == CDC_SET_CONTROL_LINE_STATE then Some(Transfer([], NoCallback))
    else None
  }

  /** Every request the hook takes can be completed, whatever length the host asks for: a control
      endpoint's packets have at least eight bytes, so seven end short. */
  lemma SduRequestsComplete(mode: AddressMode, d: Device, s: SetupInput, linecoding: seq<Byte>)
    requires d.max >= 8
    requires |linecoding| == 7 && s.hook == SduRequestsHook(s.packet, linecoding) && s.hook.Some?
    ensures exists cs :: Tail(cs) && Run(mode, SetupStep(mode, d, s), cs).ep0 == WaitingSetup
  {
    var phase := FirstPhase(d.max, s.packet, ReplyTo(mode, s));
    var cs := if phase.DataIn? then [InDone, OutDone(0)]
              else if phase.DataOut? then [OutDone(7), InDone]
              else if phase.StatusIn? then [InDone]
              else [OutDone(0)];
    assert 7 % d.max == 7;
    assert phase.DataIn? ==> phase.ends;
    CompletionsOfCompletions(cs);
    TransferOutcome(mode, d, s, cs);
  }
}
