/** Standard requests (chapter 9 of USB 2.0), told from the eight bytes of the packet and the history of
    the run: which are answered, with which bytes, and what else they do. */
module UsbControlRequests {
  import opened UsbControl
  import opened UsbControlRuns
  import opened UsbControlStarts
  import opened UsbControlData
  import opened Wrappers

  /** A standard request, in either direction: byte 0 without its top bit is the recipient alone. */
  predicate Standard(raw: RawSetup, recipient: Byte, request: Byte) { raw[0] % 128 == recipient && raw[1] == request }

  /** wLength. */
  function Wanted(raw: RawSetup): nat { raw[6] + 256 * raw[7] }

  lemma RecipientAlone(b: int, r: int)
    requires 0 <= b < 256 && 0 <= r < 32
    ensures b % 128 == r <==> b / 32 % 4 * 32 == 0 && b % 32 == r
  {
  }

  lemma PacketOf(raw: RawSetup)
    ensures var p := ReadSetup(raw);
            && (p.toHost <==> raw[0] >= 128) && p.length == Wanted(raw) && p.value == raw[2] && p.request == raw[1]
            && p.ep == raw[4] % 16 && (p.epIsIn <==> raw[4] >= 128) && (p.bare <==> raw[0] == 0)
            && (p.kind == TYPE_STD && p.recipient == RECIPIENT_DEVICE <==> raw[0] % 128 == 0)
            && (p.kind == TYPE_STD && p.recipient == RECIPIENT_INTERFACE <==> raw[0] % 128 == 1)
            && (p.kind == TYPE_STD && p.recipient == RECIPIENT_ENDPOINT <==> raw[0] % 128 == 2)
  {
    RecipientAlone(raw[0], 0);
    RecipientAlone(raw[0], 1);
    RecipientAlone(raw[0], 2);
  }

  /** The table of requests, byte by byte. */
  lemma DecodeTable(raw: RawSetup)
    ensures var request := Decode(ReadSetup(raw));
            && (request.DeviceStatus? <==> Standard(raw, 0, 0))
            && (request.ClearWakeup? <==> Standard(raw, 0, 1) && raw[2] == 1)
            && (request.SetWakeup? <==> Standard(raw, 0, 3) && raw[2] == 1)
            && (request.SetAddress? <==> Standard(raw, 0, 5))
            && (request.GetDescriptor? <==> Standard(raw, 0, 6))
            && (request.GetConfiguration? <==> Standard(raw, 0, 8))
            && (request.SetConfiguration? <==> Standard(raw, 0, 9))
            && (request.ZeroStatus? <==> Standard(raw, 1, 0) || Standard(raw, 2, 12))
            && (request.EpStatus? <==> Standard(raw, 2, 0))
            && (request == ClearHalt(raw[4] % 16, raw[4] >= 128) <==> Standard(raw, 2, 1) && raw[2] == 0)
            && (request == SetHalt(raw[4] % 16, raw[4] >= 128) <==> Standard(raw, 2, 3) && raw[2] == 0)
            && (request.ClearHalt? ==> request == ClearHalt(raw[4] % 16, raw[4] >= 128))
            && (request.SetHalt? ==> request == SetHalt(raw[4] % 16, raw[4] >= 128))
  {
    hide ReadSetup;
    PacketOf(raw);
  }

  /** The requests that are answered: those of the table, as long as the descriptor exists and the endpoint
      is enabled. */
  predicate Answered(raw: RawSetup, a: Answers) {
    || Standard(raw, 0, 0) || ((Standard(raw, 0, 1) || Standard(raw, 0, 3)) && raw[2] == 1)
    || Standard(raw, 0, 5) || (Standard(raw, 0, 6) && a.descriptor.Some?) || Standard(raw, 0, 8) || Standard(raw, 0, 9)
    || Standard(raw, 1, 0) || (Standard(raw, 2, 0) && a.epStatus != EpDisabled)
    || ((Standard(raw, 2, 1) || Standard(raw, 2, 3)) && raw[2] == 0) || Standard(raw, 2, 12)
  }

  /** A SETUP is refused, with both directions stalled, if and only if no hook takes it and it is not among
      the requests that are answered. */
  lemma RefusedIff(mode: AddressMode, d: Device, raw: RawSetup, a: Answers)
    ensures Step(mode, d, Setup(raw, a)).ep0 == Error <==> a.hook.None? && !Answered(raw, a)
    ensures Accepted(mode, d, InputOf(raw, a)).Some? <==> a.hook.Some? || Answered(raw, a)
  {
    hide Begin, Serve, ReadSetup, Decode;
    var s := InputOf(raw, a);
    var w := d.(ep0 := WaitingSetup, setup := s.packet);
    DecodeTable(raw);
    UnsupportedElse(raw);
    StandardKind(s.packet);
    if Accepted(mode, d, s).Some? {
      var d1 := WithTransfer(if s.hook.Some? then w else Serve(mode, w), Accepted(mode, d, s).value);
      assert SetupStep(mode, d, s) == Begin(d1);
      BeginIsNoError(d1);
    }
  }

  lemma StandardKind(p: Packet)
    ensures Decode(p) != Unsupported ==> p.kind == TYPE_STD
  {
  }

  lemma UnsupportedElse(raw: RawSetup)
    ensures Decode(ReadSetup(raw)).Unsupported? <==>
              !(Standard(raw, 0, 0) || ((Standard(raw, 0, 1) || Standard(raw, 0, 3)) && raw[2] == 1)
                || Standard(raw, 0, 5) || Standard(raw, 0, 6) || Standard(raw, 0, 8) || Standard(raw, 0, 9)
                || Standard(raw, 1, 0) || Standard(raw, 2, 12) || Standard(raw, 2, 0)
                || ((Standard(raw, 2, 1) || Standard(raw, 2, 3)) && raw[2] == 0))
  {
    hide Decode, ReadSetup, Standard;
    DecodeTable(raw);
  }

  lemma BeginIsNoError(d: Device)
    requires d.n == |d.next|
    ensures Begin(d).ep0 != Error
  {
  }

  /* ---------- what the device remembers ---------- */

  /** A standard request that reaches the default handler. */
  predicate Requests(e: Event, recipient: Byte, request: Byte) {
    e.Setup? && e.answers.hook.None? && Standard(e.raw, recipient, request)
  }

  /** The value of the last SET_CONFIGURATION since the last reset, if there was one since `before`. */
  function LastConfiguration(es: seq<Event>, before: Byte): Byte
    decreases |es|
  {
    if es == [] then before
    else
      var e := es[|es| - 1];
      if e.BusReset? then 0
      else if Requests(e, 0, 9) then e.raw[2]
      else LastConfiguration(es[..|es| - 1], before)
  }

  /** Remote wakeup was last set, not cleared, nor was there a reset since. */
  function LastWakeup(es: seq<Event>, before: bool): bool
    decreases |es|
  {
    if es == [] then before
    else
      var e := es[|es| - 1];
      if e.BusReset? then false
      else if (Requests(e, 0, 1) || Requests(e, 0, 3)) && e.raw[2] == 1 then e.raw[1] == 3
      else LastWakeup(es[..|es| - 1], before)
  }

  lemma {:induction false} RunSnoc(mode: AddressMode, d: Device, es: seq<Event>, e: Event)
    ensures Run(mode, d, es + [e]) == Step(mode, Run(mode, d, es), e)
    decreases |es|
  {
    if es == [] {
      assert [] + [e] == [e] && [e][1..] == [];
    } else {
      assert (es + [e])[1..] == es[1..] + [e];
      RunSnoc(mode, Step(mode, d, es[0]), es[1..], e);
    }
  }

  /** What one event does to the configuration and the remote wakeup bit. */
  lemma StepRemembers(mode: AddressMode, d: Device, e: Event)
    ensures Step(mode, d, e).configuration
            == if e.BusReset? then 0 else if Requests(e, 0, 9) then e.raw[2] else d.configuration
    ensures Step(mode, d, e).wakeup
            == if e.BusReset? then false
               else if (Requests(e, 0, 1) || Requests(e, 0, 3)) && e.raw[2] == 1 then e.raw[1] == 3 else d.wakeup
  {
    hide Decode, ReadSetup, Begin, Standard, Answer;
    if e.Setup? {
      var s := InputOf(e.raw, e.answers);
      var w := d.(ep0 := WaitingSetup, setup := s.packet);
      DecodeTable(e.raw);
      PacketOf(e.raw);
      RefusedIff(mode, d, e.raw, e.answers);
      ServeRemembers(mode, w);
      BytesApart(e.raw);
      if Accepted(mode, d, s).Some? {
        var d1 := WithTransfer(if s.hook.Some? then w else Serve(mode, w), Accepted(mode, d, s).value);
        assert SetupStep(mode, d, s) == Begin(d1);
        BeginRemembers(d1);
      }
    }
  }

  lemma BytesApart(raw: RawSetup)
    ensures !(Standard(raw, 0, 1) && Standard(raw, 0, 3))
    ensures Standard(raw, 0, 3) ==> raw[1] == 3
    ensures Standard(raw, 0, 1) ==> raw[1] == 1
  {
  }

  lemma BeginRemembers(d: Device)
    requires d.n == |d.next|
    ensures Begin(d).configuration == d.configuration && Begin(d).wakeup == d.wakeup
  {
  }

  lemma ServeRemembers(mode: AddressMode, d: Device)
    ensures var d1, request := Serve(mode, d), Decode(d.setup);
            && d1.configuration == (if request.SetConfiguration? then d.setup.value else d.configuration)
            && d1.wakeup == (if request.SetWakeup? then true else if request.ClearWakeup? then false else d.wakeup)
  {
    hide Decode;
  }

  /** In every run the device holds the configuration last set since the reset, and the remote wakeup
      feature last set or cleared. */
  lemma {:induction false} RunRemembers(mode: AddressMode, d: Device, es: seq<Event>)
    ensures Run(mode, d, es).configuration == LastConfiguration(es, d.configuration)
    ensures Run(mode, d, es).wakeup == LastWakeup(es, d.wakeup)
    decreases |es|
  {
    if es != [] {
      hide Step, Requests;
      var before, e := es[..|es| - 1], es[|es| - 1];
      assert before + [e] == es;
      RunSnoc(mode, d, before, e);
      RunRemembers(mode, d, before);
      StepRemembers(mode, Run(mode, d, before), e);
    }
  }

  /* ---------- what a standard request sends ---------- */

  /** The SETUP sends these data in one block, cut to the bytes wanted, and waits for their completion; if
      nothing is to be sent it awaits the status packet. */
  predicate Sends(mode: AddressMode, d: Device, raw: RawSetup, a: Answers, data: seq<Byte>) {
    var d1, len := Step(mode, d, Setup(raw, a)), Min(|data|, Wanted(raw));
    && d1.io.sent == d.io.sent + (if len > 0 then [data[..len]] else [])
    && d1.ep0 == (if len > 0 then Tx else WaitingSts)
  }

  lemma SendsBuffer(mode: AddressMode, d: Device, raw: RawSetup, a: Answers)
    requires raw[0] >= 128 && Accepted(mode, d, InputOf(raw, a)).Some?
    ensures Sends(mode, d, raw, a, Accepted(mode, d, InputOf(raw, a)).value.buf)
  {
    hide Begin, Serve, Answer, ReadSetup, OutSizes;
    var s := InputOf(raw, a);
    PacketOf(raw);
    SetupMoves(mode, d, s);
    AcceptedIsReply(mode, d, s);
    SetupStage(mode, d, s);
  }

  /** Main result: in every run, what a request for data sends. A request of the device: its status, with
      bit 1 set if and only if remote wakeup was last set; the callback's descriptor; the configuration
      last set since the reset. A request of an endpoint: its halt bit. Elsewhere two zero bytes. */
  lemma StandardReads(mode: AddressMode, d: Device, es: seq<Event>, raw: RawSetup, a: Answers)
    requires a.hook.None? && raw[0] >= 128
    ensures var d1 := Run(mode, ResetStep(d), es);
            && (Standard(raw, 0, 0) ==> Sends(mode, d1, raw, a, [if LastWakeup(es, false) then 2 else 0, 0]))
            && (Standard(raw, 0, 6) && a.descriptor.Some? ==> Sends(mode, d1, raw, a, a.descriptor.value))
            && (Standard(raw, 0, 8) ==> Sends(mode, d1, raw, a, [LastConfiguration(es, 0)]))
            && (Standard(raw, 1, 0) || Standard(raw, 2, 12) ==> Sends(mode, d1, raw, a, [0, 0]))
            && (Standard(raw, 2, 0) && a.epStatus == EpStalled ==> Sends(mode, d1, raw, a, [1, 0]))
            && (Standard(raw, 2, 0) && a.epStatus == EpActive ==> Sends(mode, d1, raw, a, [0, 0]))
  {
    hide Decode, ReadSetup, Standard, Sends, Run, Step;
    var d1, s := Run(mode, ResetStep(d), es), InputOf(raw, a);
    DecodeTable(raw);
    StandardKind(s.packet);
    RunRemembers(mode, ResetStep(d), es);
    RefusedIff(mode, d1, raw, a);
    if Accepted(mode, d1, s).Some? {
      SendsBuffer(mode, d1, raw, a);
    }
  }

  /** A requests hook that takes the packet decides what is sent, whatever the packet asks for. */
  lemma HookReads(mode: AddressMode, d: Device, raw: RawSetup, a: Answers)
    requires a.hook.Some? && raw[0] >= 128
    ensures Sends(mode, d, raw, a, a.hook.value.buf)
  {
    SendsBuffer(mode, d, raw, a);
  }

  /* ---------- what a standard request does ---------- */

  /** The status packet awaited at once when a request without data is marked as a read. */
  function Awaited(raw: RawSetup): seq<Effect> { if raw[0] >= 128 then [PrepareOut(0)] else [] }

  /** What else a request without data does: the calls it makes, in order. */
  predicate Calls(mode: AddressMode, d: Device, raw: RawSetup, a: Answers, calls: seq<Effect>) {
    var d1 := Step(mode, d, Setup(raw, a));
    && d1.io.log == d.io.log + calls + Awaited(raw)
    && d1.io.sent == d.io.sent + (if raw[0] >= 128 then [] else [[]])
  }

  lemma CallsOfServe(mode: AddressMode, d: Device, raw: RawSetup, a: Answers, calls: seq<Effect>)
    requires a.hook.None? && Accepted(mode, d, InputOf(raw, a)).Some?
    requires Accepted(mode, d, InputOf(raw, a)).value.buf == []
    requires Serve(mode, d.(ep0 := WaitingSetup, setup := ReadSetup(raw))).io.log == d.io.log + calls
    ensures Calls(mode, d, raw, a, calls)
  {
    hide Begin, Serve, Answer, ReadSetup, Decode;
    var s := InputOf(raw, a);
    var w := d.(ep0 := WaitingSetup, setup := s.packet);
    PacketOf(raw);
    ServeFrame(mode, w);
    var d1 := WithTransfer(Serve(mode, w), Accepted(mode, d, s).value);
    assert SetupStep(mode, d, s) == Begin(d1);
    BeginWithoutData(d1);
  }

  lemma BeginWithoutData(d: Device)
    requires d.n == |d.next| == 0
    ensures Begin(d).io.log == d.io.log + (if d.setup.toHost then [PrepareOut(0)] else [])
    ensures Begin(d).io.sent == d.io.sent + (if d.setup.toHost then [] else [[]])
  {
  }

  /** The feature requests of an endpoint stall or clear exactly the endpoint and direction of byte 4, unless
      it is endpoint zero; the configuration, and in early mode the address, are reported, and the latter
      given to the hardware; the feature requests of the device call nothing. */
  lemma StandardWrites(mode: AddressMode, d: Device, raw: RawSetup, a: Answers)
    requires a.hook.None?
    ensures var ep, isIn := raw[4] % 16, raw[4] >= 128;
            && (Standard(raw, 2, 3) && raw[2] == 0 ==>
                  Calls(mode, d, raw, a, if ep == 0 then [] else if isIn then [StallIn(ep)] else [StallOut(ep)]))
            && (Standard(raw, 2, 1) && raw[2] == 0 ==>
                  Calls(mode, d, raw, a, if ep == 0 then [] else if isIn then [ClearIn(ep)] else [ClearOut(ep)]))
            && (Standard(raw, 0, 9) ==> Calls(mode, d, raw, a, [Notify(ConfiguredEvent)]))
            && (Standard(raw, 0, 5) ==>
                  Calls(mode, d, raw, a,
                        if mode == EarlyAddress && raw[0] == 0 then [SetHwAddress(raw[2]), Notify(AddressEvent)] else []))
            && ((Standard(raw, 0, 1) || Standard(raw, 0, 3)) && raw[2] == 1 ==> Calls(mode, d, raw, a, []))
  {
    hide ReadSetup, Standard, Calls, Decode, Step;
    var s := InputOf(raw, a);
    var w := d.(ep0 := WaitingSetup, setup := s.packet);
    DecodeTable(raw);
    PacketOf(raw);
    StandardKind(s.packet);
    var request := Decode(s.packet);
    if CallsOnly(request) {
      AcceptedWithoutData(mode, d, s);
      CallsOfServe(mode, d, raw, a, CallsFor(mode, s.packet, request));
    }
  }

  predicate CallsOnly(r: StandardRequest) {
    r.SetHalt? || r.ClearHalt? || r.SetConfiguration? || r.SetAddress? || r.SetWakeup? || r.ClearWakeup?
  }

  function CallsFor(mode: AddressMode, p: Packet, r: StandardRequest): seq<Effect> {
    match r
    case SetHalt(ep, isIn) => if ep == 0 then [] else if isIn then [StallIn(ep)] else [StallOut(ep)]
    case ClearHalt(ep, isIn) => if ep == 0 then [] else if isIn then [ClearIn(ep)] else [ClearOut(ep)]
    case SetConfiguration => [Notify(ConfiguredEvent)]
    case SetAddress => if mode == EarlyAddress && p.bare then [SetHwAddress(p.value), Notify(AddressEvent)] else []
    case _ => []
  }

  lemma AcceptedWithoutData(mode: AddressMode, d: Device, s: SetupInput)
    requires s.hook.None? && CallsOnly(Decode(s.packet))
    ensures Accepted(mode, d, s).Some? && Accepted(mode, d, s).value.buf == []
    ensures var w := d.(ep0 := WaitingSetup, setup := s.packet);
            Serve(mode, w).io.log == d.io.log + CallsFor(mode, s.packet, Decode(s.packet))
  {
    hide Decode;
    StandardKind(s.packet);
    var w := d.(ep0 := WaitingSetup, setup := s.packet);
    assert d.io.log + [SetHwAddress(s.packet.value)] + [Notify(AddressEvent)]
           == d.io.log + [SetHwAddress(s.packet.value), Notify(AddressEvent)];
    assert d.io.log + [] == d.io.log;
  }

  /* ---------- the class requests of the serial driver ---------- */

  /** The requests hook of the serial driver takes the three class requests 20H to 22H: the line coding is
      read and written in seven bytes, and the control line state has no data. */
  lemma LineCodingRequests(mode: AddressMode, d: Device, raw: RawSetup, a: Answers, linecoding: seq<Byte>, es: seq<Event>)
    requires |linecoding| == 7 && a.hook == SduRequestsHook(ReadSetup(raw), linecoding)
    requires Tail(es)
    ensures var d1, cs := Run(mode, Step(mode, d, Setup(raw, a)), es), Completions(es);
            var isClass := raw[0] / 32 % 4 == 1;
            && (a.hook.Some? <==> isClass && 0x20 <= raw[1] <= 0x22)
            && (isClass && raw[1] == 0x21 && raw[0] >= 128 ==> Sends(mode, d, raw, a, linecoding))
            && (isClass && raw[1] == 0x20 && raw[0] < 128 && Wanted(raw) > 0 && |cs| == 2 && cs[0].OutDone? && cs[1].InDone? ==>
                  Moved(d, d1, [[]], [Min(7, Wanted(raw))]))
            && (isClass && raw[1] == 0x22 && raw[0] < 128 && cs == [InDone] ==> Moved(d, d1, [[]], []))
  {
    hide Moved, Sends, SetupStep, ReadSetup, OutSizes;
    var s := InputOf(raw, a);
    PacketOf(raw);
    ClassKind(raw);
    if a.hook.Some? {
      if raw[0] >= 128 {
        HookReads(mode, d, raw, a);
      } else {
        FinishedIf(mode, d, s, es);
      }
    }
  }

  lemma ClassKind(raw: RawSetup)
    ensures ReadSetup(raw).kind == TYPE_CLASS <==> raw[0] / 32 % 4 == 1
  {
  }

  lemma FinishedIf(mode: AddressMode, d: Device, s: SetupInput, es: seq<Event>)
    requires Tail(es) && s.hook.Some? && !s.packet.toHost
    ensures var cs, len := Completions(es), Min(|s.hook.value.buf|, s.packet.length);
            (if len > 0 then |cs| == 2 && cs[0].OutDone? && cs[1].InDone? else cs == [InDone]) ==>
              Moved(d, Run(mode, SetupStep(mode, d, s), es), [[]], if len > 0 then [len] else [])
  {
    hide Moved, SetupStep;
    if Finishes(FirstPhase(d.max, s.packet, ReplyTo(mode, s)), Completions(es)) {
      FinishedTransferData(mode, d, s, es);
    }
  }

  /* ---------- the address in the hardware ---------- */

  /** The address that the hardware was last given. */
  function HwAddress(log: seq<Effect>): Byte
    decreases |log|
  {
    if log == [] then 0
    else
      var last := log[|log| - 1];
      if last.SetHwAddress? then last.address
      else if last.LowLevelReset? then 0
      else HwAddress(log[..|log| - 1])
  }

  lemma HwAddressMore(log: seq<Effect>, e: Effect)
    ensures HwAddress(log + [e])
            == if e.SetHwAddress? then e.address else if e.LowLevelReset? then 0 else HwAddress(log)
  {
    assert (log + [e])[..|log|] == log;
  }

  predicate InStepWithHardware(d: Device) { d.address == HwAddress(d.io.log) }

  lemma AddressedTellsHardware(d: Device)
    ensures InStepWithHardware(Addressed(d))
  {
    hide HwAddress;
    HwAddressMore(d.io.log, SetHwAddress(d.setup.value));
    HwAddressMore(d.io.log + [SetHwAddress(d.setup.value)], Notify(AddressEvent));
  }

  lemma FailKeepsHardware(d: Device)
    requires InStepWithHardware(d)
    ensures InStepWithHardware(Fail(d))
  {
    hide HwAddress;
    HwAddressMore(d.io.log, StallIn(0));
    HwAddressMore(d.io.log + [StallIn(0)], StallOut(0));
    HwAddressMore(d.io.log + [StallIn(0)] + [StallOut(0)], Notify(StalledEvent));
    assert d.io.log + [StallIn(0)] + [StallOut(0)] + [Notify(StalledEvent)]
           == d.io.log + [StallIn(0), StallOut(0), Notify(StalledEvent)];
  }

  lemma ServeKeepsHardware(mode: AddressMode, d: Device)
    requires InStepWithHardware(d)
    ensures InStepWithHardware(Serve(mode, d))
  {
    hide HwAddress, Decode;
    AddressedTellsHardware(d);
    match Decode(d.setup) {
      case SetConfiguration => HwAddressMore(d.io.log, Notify(ConfiguredEvent));
      case ClearHalt(ep, isIn) => HwAddressMore(d.io.log, if isIn then ClearIn(ep) else ClearOut(ep));
      case SetHalt(ep, isIn) => HwAddressMore(d.io.log, if isIn then StallIn(ep) else StallOut(ep));
      case _ =>
    }
  }

  lemma BeginKeepsHardware(d: Device)
    requires d.n == |d.next| && InStepWithHardware(d)
    ensures InStepWithHardware(Begin(d))
  {
    hide HwAddress;
    HwAddressMore(d.io.log, PrepareOut(if d.setup.toHost then 0 else Min(d.n, d.setup.length)));
  }

  lemma CompletionKeepsHardware(mode: AddressMode, d: Device, e: Event)
    requires InStepWithHardware(d) && (e.InDone? || e.OutDone?)
    ensures InStepWithHardware(Step(mode, d, e))
  {
    hide HwAddress;
    var idle := if e.InDone? then d.(transmitting := d.transmitting - {0}) else d.(receiving := d.receiving - {0});
    HwAddressMore(d.io.log, PrepareOut(0));
    AddressedTellsHardware(idle.(io := d.io.(ended := d.io.ended + [d.endcb])));
    FailKeepsHardware(idle);
  }

  lemma StepKeepsHardware(mode: AddressMode, d: Device, e: Event)
    requires InStepWithHardware(d)
    ensures InStepWithHardware(Step(mode, d, e))
  {
    hide HwAddress, Begin, Serve, Answer, ReadSetup, InStep, OutStep;
    if e.Setup? {
      var s := InputOf(e.raw, e.answers);
      var w := d.(ep0 := WaitingSetup, setup := s.packet);
      ServeKeepsHardware(mode, w);
      FailKeepsHardware(w);
      if Accepted(mode, d, s).Some? {
        BeginKeepsHardware(WithTransfer(if s.hook.Some? then w else Serve(mode, w), Accepted(mode, d, s).value));
      }
    } else if e.InDone? || e.OutDone? {
      CompletionKeepsHardware(mode, d, e);
    } else {
      HwAddressMore(d.io.log, LowLevelReset);
    }
  }

  /** In every run after a reset, in either mode, the hardware answers to the address that the driver holds. */
  lemma {:induction false} HardwareHasAddress(mode: AddressMode, d: Device, es: seq<Event>)
    requires d.address == HwAddress(d.io.log)
    ensures Run(mode, d, es).address == HwAddress(Run(mode, d, es).io.log)
    decreases |es|
  {
    if es != [] {
      hide Step, HwAddress;
      StepKeepsHardware(mode, d, es[0]);
      HardwareHasAddress(mode, Step(mode, d, es[0]), es[1..]);
    }
  }

  /* ---------- the other endpoints ---------- */

  /** The last event on the direction of an endpoint was a start, and no reset came since. */
  function Running(es: seq<Event>, ep: nat, isIn: bool, before: bool): bool
    decreases |es|
  {
    if es == [] then before
    else
      var e := es[|es| - 1];
      if e.BusReset? || e == OtherDone(ep, isIn) then false
      else if e == OtherStart(ep, isIn) then true
      else Running(es[..|es| - 1], ep, isIn, before)
  }

  function BusyBits(d: Device, isIn: bool): set<nat> { if isIn then d.transmitting else d.receiving }

  lemma StepBusy(mode: AddressMode, d: Device, e: Event, ep: nat, isIn: bool)
    requires ep != 0
    ensures ep in BusyBits(Step(mode, d, e), isIn)
            <==> !(e.BusReset? || e == OtherDone(ep, isIn)) && (e == OtherStart(ep, isIn) || ep in BusyBits(d, isIn))
  {
    hide Serve, Answer, ReadSetup, Decode, Accepted;
    if e.Setup? {
      SetupBusy(mode, d, InputOf(e.raw, e.answers), ep, isIn);
    }
  }

  /** A start on another endpoint reaches the hardware if and only if its direction was idle, and is all that
      happens. */
  lemma OtherStartStarts(mode: AddressMode, d: Device, ep: nat, isIn: bool)
    requires ep != 0
    ensures var d1 := Step(mode, d, OtherStart(ep, isIn));
            && d1.io.starts == (if ep in BusyBits(d, isIn) then d.io.starts
                                else d.io.starts + [if isIn then StartIn(ep) else StartOut(ep)])
            && d1.io.log == d.io.log && d1.io.sent == d.io.sent && d1.io.ended == d.io.ended
            && d1.ep0 == d.ep0 && d1.state == d.state && d1.address == d.address && d1.configuration == d.configuration
  {
  }

  lemma SetupBusy(mode: AddressMode, d: Device, s: SetupInput, ep: nat, isIn: bool)
    requires ep != 0
    ensures ep in BusyBits(SetupStep(mode, d, s), isIn) <==> ep in BusyBits(d, isIn)
  {
    hide Serve, Answer, Decode;
    var w := d.(ep0 := WaitingSetup, setup := s.packet);
    ServeFrame(mode, w);
  }

  /** In every run an endpoint's busy bit is set, in a direction, if and only if the last event on both was
      a start and no reset came since. */
  lemma {:induction false} RunBusyIff(mode: AddressMode, d: Device, es: seq<Event>, ep: nat, isIn: bool)
    requires ep != 0
    ensures ep in BusyBits(Run(mode, d, es), isIn) <==> Running(es, ep, isIn, ep in BusyBits(d, isIn))
    decreases |es|
  {
    if es != [] {
      hide Step, BusyBits;
      var before, e := es[..|es| - 1], es[|es| - 1];
      assert before + [e] == es;
      RunSnoc(mode, d, before, e);
      RunBusyIff(mode, d, before, ep, isIn);
      StepBusy(mode, Run(mode, d, before), e, ep, isIn);
    }
  }
}
