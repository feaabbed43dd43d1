/** Which transactions on endpoint zero a control transfer really starts.

    The callers of `usbStartTransmitI` and `usbStartReceiveI` ignore their results, so a stage whose
    direction is still busy from an earlier transfer starts nothing, and the completion of the earlier
    transaction is taken for that of the stage. `TransferStarts` says in closed form which stages start
    their own transaction, from any state and over any run without a further SETUP or reset. */
module UsbControlStarts {
  import opened UsbControl
  import opened UsbControlRuns
  import opened Wrappers

  /** The transactions started on endpoint zero. */
  function OnEp0(starts: seq<StartedTransaction>): seq<StartedTransaction>
    decreases |starts|
  {
    if starts == [] then []
    else
      var last := starts[|starts| - 1];
      OnEp0(starts[..|starts| - 1]) + if last.ep == 0 then [last] else []
  }

  lemma OnEp0More(starts: seq<StartedTransaction>, t: StartedTransaction)
    ensures OnEp0(starts + [t]) == OnEp0(starts) + if t.ep == 0 then [t] else []
  {
    assert (starts + [t])[..|starts|] == starts;
  }

  predicate HasData(p: Packet, size: nat) { Min(size, p.length) > 0 }

  /** The data stage runs with the direction bit of bmRequestType, the status stage against it. */
  function DataStart(p: Packet): StartedTransaction { if p.toHost then StartIn(0) else StartOut(0) }

  function StatusStart(p: Packet): StartedTransaction { if p.toHost then StartOut(0) else StartIn(0) }

  /** The endpoint is not busy in the direction of `t`. */
  predicate Idle(d: Device, t: StartedTransaction) {
    if t.StartIn? then t.ep !in d.transmitting else t.ep !in d.receiving
  }

  /** What comes of an attempt to start `t`. */
  function Started(d: Device, t: StartedTransaction): seq<StartedTransaction> { if Idle(d, t) then [t] else [] }

  /* ---------- after the SETUP stage ---------- */

  /** The first stage is attempted at the SETUP; the other direction's busy bit stays as it was. */
  lemma SetupStarts(mode: AddressMode, d: Device, s: SetupInput)
    requires ReplyTo(mode, s).Reply?
    ensures var size := ReplyTo(mode, s).size;
            var first := if HasData(s.packet, size) then DataStart(s.packet) else StatusStart(s.packet);
            var d0 := SetupStep(mode, d, s);
            && OnEp0(d0.io.starts) == OnEp0(d.io.starts) + Started(d, first)
            && (HasData(s.packet, size) ==> (Idle(d0, StatusStart(s.packet)) <==> Idle(d, StatusStart(s.packet))))
  {
    hide Begin, Serve, Answer, ReplyTo;
    SetupStartsIffIdle(mode, d, s);
    AcceptedIsReply(mode, d, s);
    var w := d.(ep0 := WaitingSetup, setup := s.packet);
    ServeFrame(mode, w);
    var d1 := WithTransfer(if s.hook.Some? then w else Serve(mode, w), Accepted(mode, d, s).value);
    assert SetupStep(mode, d, s) == Begin(d1);
    BeginBusy(d1);
    OnEp0More(d.io.starts, StartIn(0));
    OnEp0More(d.io.starts, StartOut(0));
    assert d.io.starts + [] == d.io.starts;
  }

  lemma BeginBusy(d: Device)
    requires d.n == |d.next|
    ensures HasData(d.setup, d.n) ==> (Idle(Begin(d), StatusStart(d.setup)) <==> Idle(d, StatusStart(d.setup)))
  {
  }

  /** Nothing more is started once the status stage is reached. */
  lemma {:induction false} NothingAfterStatus(mode: AddressMode, d: Device, es: seq<Event>)
    requires Tail(es) && d.ep0 != Tx && d.ep0 != Rx
    ensures OnEp0(Run(mode, d, es).io.starts) == OnEp0(d.io.starts)
    decreases |es|
  {
    if es != [] {
      assert es[0] in es;
      var d1 := Step(mode, d, es[0]);
      StepWithoutData(mode, d, es[0]);
      assert forall e :: e in es[1..] ==> e in es;
      NothingAfterStatus(mode, d1, es[1..]);
    }
  }

  lemma StepWithoutData(mode: AddressMode, d: Device, e: Event)
    requires d.ep0 != Tx && d.ep0 != Rx && !e.BusReset? && !e.Setup?
    ensures OnEp0(Step(mode, d, e).io.starts) == OnEp0(d.io.starts)
    ensures Step(mode, d, e).ep0 != Tx && Step(mode, d, e).ep0 != Rx
  {
    hide OnEp0;
    if e.OtherStart? || e.OtherDone? {
      OtherStep(mode, d, e);
    } else {
      CompletionStartsNothing(mode, d, e);
    }
  }

  lemma CompletionStartsNothing(mode: AddressMode, d: Device, e: Event)
    requires d.ep0 != Tx && d.ep0 != Rx && (e.InDone? || e.OutDone?)
    ensures Step(mode, d, e).io.starts == d.io.starts
    ensures Step(mode, d, e).ep0 != Tx && Step(mode, d, e).ep0 != Rx
  {
  }

  /** Another endpoint's event leaves endpoint zero alone. */
  lemma OtherStep(mode: AddressMode, d: Device, e: Event)
    requires e.OtherStart? || e.OtherDone?
    ensures var d1 := Step(mode, d, e);
            && d1.ep0 == d.ep0 && d1.setup == d.setup && d1.n == d.n && d1.max == d.max
            && (Idle(d1, StartIn(0)) <==> Idle(d, StartIn(0))) && (Idle(d1, StartOut(0)) <==> Idle(d, StartOut(0)))
            && OnEp0(d1.io.starts) == OnEp0(d.io.starts)
  {
    hide OnEp0, SetupStep, InStep, OutStep;
    if e.OtherStart? {
      OnEp0More(d.io.starts, if e.isIn then StartIn(e.ep) else StartOut(e.ep));
    }
  }

  /** A data stage that comes to its end attempts the status stage. */
  lemma {:induction false} StatusAfterData(mode: AddressMode, d: Device, es: seq<Event>, phase: Phase)
    requires Tail(es) && Completed(phase, Completions(es))
    requires (d.ep0 == Tx && phase == DataIn(true) && d.n <= d.setup.length && EndsShort(d.max, d.setup.length, d.n))
             || (d.ep0 == Rx && phase == DataOut)
    ensures OnEp0(Run(mode, d, es).io.starts)
            == OnEp0(d.io.starts) + Started(d, if d.ep0 == Tx then StartOut(0) else StartIn(0))
    decreases |es|
  {
    assert es[0] in es;
    var e := es[0];
    var d1 := Step(mode, d, e);
    assert forall x :: x in es[1..] ==> x in es;
    if e.InDone? || e.OutDone? {
      assert Completions(es)[0] == e;
      OnEp0More(d.io.starts, if d.ep0 == Tx then StartOut(0) else StartIn(0));
      EndOfData(mode, d, e);
      NothingAfterStatus(mode, d1, es[1..]);
    } else {
      OtherStep(mode, d, e);
      StatusAfterData(mode, d1, es[1..], phase);
    }
  }

  lemma EndOfData(mode: AddressMode, d: Device, e: Event)
    requires (d.ep0 == Tx && e == InDone && d.n <= d.setup.length && EndsShort(d.max, d.setup.length, d.n))
             || (d.ep0 == Rx && e.OutDone?)
    ensures var status := if d.ep0 == Tx then StartOut(0) else StartIn(0);
            && Step(mode, d, e).io.starts == d.io.starts + Started(d, status)
            && (Step(mode, d, e).ep0 == WaitingSts || Step(mode, d, e).ep0 == SendingSts)
  {
  }

  /* ---------- whole transfers ---------- */

  /** Main result: whatever the driver did before, an accepted SETUP whose transfer is completed has
      started its data stage if and only if that direction was idle when the SETUP arrived, and its
      status stage if and only if the opposite direction was, and nothing else on endpoint zero. */
  lemma TransferStarts(mode: AddressMode, d: Device, s: SetupInput, es: seq<Event>)
    requires Tail(es) && ReplyTo(mode, s).Reply?
    requires Completed(FirstPhase(d.max, s.packet, ReplyTo(mode, s)), Completions(es))
    ensures OnEp0(Run(mode, SetupStep(mode, d, s), es).io.starts)
            == OnEp0(d.io.starts)
               + (if HasData(s.packet, ReplyTo(mode, s).size) then Started(d, DataStart(s.packet)) else [])
               + Started(d, StatusStart(s.packet))
  {
    hide SetupStep, ReplyTo, OnEp0;
    var reply := ReplyTo(mode, s);
    var phase, d0 := FirstPhase(d.max, s.packet, reply), SetupStep(mode, d, s);
    SetupStarts(mode, d, s);
    SetupStage(mode, d, s);
    if HasData(s.packet, reply.size) {
      StatusAfterData(mode, d0, es, phase);
    } else {
      NothingAfterStatus(mode, d0, es);
    }
  }

  /** The stage a SETUP leaves, in the driver's terms. */
  lemma SetupStage(mode: AddressMode, d: Device, s: SetupInput)
    requires ReplyTo(mode, s).Reply?
    ensures var reply, d0 := ReplyTo(mode, s), SetupStep(mode, d, s);
            var phase := FirstPhase(d.max, s.packet, reply);
            && d0.ep0 == Ep0Of(phase) && d0.max == d.max && d0.setup == s.packet
            && (phase.DataIn? ==> phase.ends == EndsShort(d0.max, d0.setup.length, d0.n) && d0.n <= d0.setup.length)
  {
    hide Begin, Serve, Answer, ReplyTo;
    var h := Host(d.max, d.state, d.address, d.configuration, Halted, 0, NoCallback, d.io.ended);
    SetupFollows(mode, d, h, s);
    HostSetupFacts(mode, h, s);
    AcceptedIsReply(mode, d, s);
    var w := d.(ep0 := WaitingSetup, setup := s.packet);
    ServeFrame(mode, w);
    var d1 := WithTransfer(if s.hook.Some? then w else Serve(mode, w), Accepted(mode, d, s).value);
    assert SetupStep(mode, d, s) == Begin(d1);
    BeginKeepsSetup(d1);
  }

  lemma BeginKeepsSetup(d: Device)
    requires d.n == |d.next|
    ensures Begin(d).setup == d.setup
  {
  }

  /** Every stage completes with a transaction of its own if and only if every direction the transfer
      uses was idle when its SETUP arrived: the guard that the ignored results stand for. */
  lemma EveryStageStartedIff(mode: AddressMode, d: Device, s: SetupInput, es: seq<Event>)
    requires Tail(es) && ReplyTo(mode, s).Reply?
    requires Finishes(FirstPhase(d.max, s.packet, ReplyTo(mode, s)), Completions(es))
    ensures |OnEp0(Run(mode, SetupStep(mode, d, s), es).io.starts)| == |OnEp0(d.io.starts)| + |Completions(es)|
            <==> Idle(d, StatusStart(s.packet))
                 && (HasData(s.packet, ReplyTo(mode, s).size) ==> Idle(d, DataStart(s.packet)))
  {
    hide SetupStep, ReplyTo, OnEp0;
    var phase, cs := FirstPhase(d.max, s.packet, ReplyTo(mode, s)), Completions(es);
    assert phase != SetupPhase;
    assert cs[..|cs|] == cs;
    TransferStarts(mode, d, s, es);
  }

  /** The transactions on endpoint zero started between two states of a run. */
  function NewOnEp0(d: Device, d1: Device): seq<StartedTransaction> {
    var before, after := OnEp0(d.io.starts), OnEp0(d1.io.starts);
    if |before| <= |after| then after[|before|..] else []
  }

  /** The end-of-transfer callback is called when the status stage of its SETUP is completed; the
      transaction that completed was this SETUP's own, and not left over from an earlier one, if and only
      if the status direction was idle when the SETUP arrived. */
  lemma CallbackIsOwnIff(mode: AddressMode, d: Device, s: SetupInput, es: seq<Event>)
    requires Tail(es) && ReplyTo(mode, s).Reply? && ReplyTo(mode, s).endcb != NoCallback
    requires Completed(FirstPhase(d.max, s.packet, ReplyTo(mode, s)), Completions(es))
    ensures var d1 := Run(mode, SetupStep(mode, d, s), es);
            && d1.io.ended == d.io.ended + [ReplyTo(mode, s).endcb]
            && (StatusStart(s.packet) in NewOnEp0(d, d1) <==> Idle(d, StatusStart(s.packet)))
  {
    hide SetupStep, ReplyTo, OnEp0, Step;
    TransferOutcome(mode, d, s, es);
    TransferStarts(mode, d, s, es);
    var before, after := OnEp0(d.io.starts), OnEp0(Run(mode, SetupStep(mode, d, s), es).io.starts);
    var data := if HasData(s.packet, ReplyTo(mode, s).size) then Started(d, DataStart(s.packet)) else [];
    var status := Started(d, StatusStart(s.packet));
    assert after[|before|..] == data + status;
  }

  /** Section 9.4.6, exactly: the status stage whose completion changes the address in late mode is the
      SET_ADDRESS's own if and only if the status direction was idle when it arrived. */
  lemma LateAddressIsOwnIff(d: Device, s: SetupInput, es: seq<Event>)
    requires Tail(es) && s.hook.None? && Decode(s.packet) == SetAddress
    requires Completed(FirstPhase(d.max, s.packet, ReplyTo(LateAddress, s)), Completions(es))
    ensures var d1 := Run(LateAddress, SetupStep(LateAddress, d, s), es);
            && d1.address == s.packet.value && d1.state == Selected
            && (StatusStart(s.packet) in NewOnEp0(d, d1) <==> Idle(d, StatusStart(s.packet)))
  {
    CallbackIsOwnIff(LateAddress, d, s, es);
    LateAddressAfterStatus(d, s, es);
  }
}
