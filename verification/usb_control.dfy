/** The control endpoint of the USB driver: `os/hal/src/usb.c` with the macros of
    `os/hal/include/usb.h`.

    `Device` is the driver's state as a value and `Step` what one event does to it; the class
    `UsbDriver` holds the same state in fields and its methods have the branches of the C code.
    Calls into the low level driver and the application are kept in `History`. */
module UsbControl {
  import opened Wrappers

  type Byte = int

  datatype AddressMode = EarlyAddress | LateAddress
  datatype DeviceState = Ready | Selected | Active
  datatype Ep0State = WaitingSetup | Tx | WaitingSts | Rx | SendingSts | Error
  datatype EndpointStatus = EpDisabled | EpStalled | EpActive
  datatype UsbEvent = AddressEvent | ConfiguredEvent | StalledEvent

  /** The fields of a SETUP packet that the code looks at. `bare` says that bmRequestType is zero. */
  datatype Packet = Packet(toHost: bool, kind: Byte, recipient: Byte, bare: bool, request: Byte,
                           value: Byte, ep: nat, epIsIn: bool, length: nat)

  /** What `ep0endcb` points to; an application callback is known only by a number. */
  datatype EndCallback = NoCallback | SetAddressCallback | AppCallback(id: nat)

  /** The arguments of `usbSetupTransfer`; the byte count `n` is `|buf|`. */
  datatype Transfer = Transfer(buf: seq<Byte>, endcb: EndCallback)

  datatype StartedTransaction = StartIn(ep: nat) | StartOut(ep: nat)

  datatype Effect =
    | PrepareOut(size: nat)
    | StallIn(ep: nat)
    | StallOut(ep: nat)
    | ClearIn(ep: nat)
    | ClearOut(ep: nat)
    | SetHwAddress(address: Byte)
    | Notify(event: UsbEvent)
    | LowLevelReset

  /** Blocks of data prepared for the IN endpoint, transactions started, end-of-transfer callbacks
      made, and all other calls. */
  datatype History = History(sent: seq<seq<Byte>>, starts: seq<StartedTransaction>,
                             ended: seq<EndCallback>, log: seq<Effect>)

  /** What the callbacks into code not modelled here answer to a SETUP packet: the transfer set up by a
      requests hook that returned TRUE, the descriptor found by `get_descriptor_cb`, and the status read
      from the endpoint hardware. */
  datatype Answers = Answers(hook: Option<Transfer>, descriptor: Option<seq<Byte>>, epStatus: EndpointStatus)

  datatype SetupInput = SetupInput(packet: Packet, hook: Option<Transfer>,
                                   descriptor: Option<seq<Byte>>, epStatus: EndpointStatus)

  /** `in_maxsize` of endpoint zero. */
  type PacketSize = n: int | n >= 1 witness 64

  datatype Device = Device(
    max: PacketSize, state: DeviceState, address: Byte, configuration: Byte, wakeup: bool,
    ep0: Ep0State, n: nat, next: seq<Byte>, endcb: EndCallback, setup: Packet,
    transmitting: set<nat>, receiving: set<nat>,
    io: History)

  datatype Event =
    | BusReset
    | Setup(raw: RawSetup, answers: Answers)
    | InDone
    | OutDone(received: nat)
    | OtherStart(ep: nat, isIn: bool)
    | OtherDone(ep: nat, isIn: bool)

  const TYPE_STD := 0
  const RECIPIENT_DEVICE := 0
  const RECIPIENT_INTERFACE := 1
  const RECIPIENT_ENDPOINT := 2
  const REQ_GET_STATUS := 0
  const REQ_CLEAR_FEATURE := 1
  const REQ_SET_FEATURE := 3
  const REQ_SET_ADDRESS := 5
  const REQ_GET_DESCRIPTOR := 6
  const REQ_GET_CONFIGURATION := 8
  const REQ_SET_CONFIGURATION := 9
  const REQ_SYNCH_FRAME := 12
  const FEATURE_ENDPOINT_HALT := 0
  const FEATURE_DEVICE_REMOTE_WAKEUP := 1

  /** The bytes fill whole packets. */
  predicate Whole(max: PacketSize, n: nat) { n % max == 0 }

  /** The eight bytes a host sends in a SETUP packet. */
  type RawSetup = raw: seq<Byte> | |raw| == 8 && forall k :: 0 <= k < 8 ==> 0 <= raw[k] < 256
    witness [0, 0, 0, 0, 0, 0, 0, 0]

  /** `usbFetchWord`. */
  function FetchWord(low: Byte, high: Byte): nat
    requires 0 <= low && 0 <= high
  {
    low + 256 * high
  }

  /** The bytes taken apart with the masks of the code: 0x80, 0x60 and 0x1F of bmRequestType, 0x80 and
      0x0F of the low byte of wIndex. */
  function ReadSetup(raw: RawSetup): Packet {
    Packet(raw[0] / 128 % 2 == 1, raw[0] / 32 % 4 * 32, raw[0] % 32, raw[0] == 0, raw[1], raw[2],
           raw[4] % 16, raw[4] / 128 % 2 == 1, FetchWord(raw[6], raw[7]))
  }

  /** Nothing the code looks at is lost: the fields give back the bytes they were taken from. */
  lemma ReadSetupRoundTrip(raw: RawSetup)
    ensures var p := ReadSetup(raw);
            && raw[0] == (if p.toHost then 128 else 0) + p.kind + p.recipient
            && p.kind % 32 == 0 && 0 <= p.kind < 128 && 0 <= p.recipient < 32 && (p.bare <==> raw[0] == 0)
            && raw[1] == p.request && raw[2] == p.value
            && (raw[4] >= 128 <==> p.epIsIn) && raw[4] % 16 == p.ep
            && raw[6] == p.length % 256 && raw[7] == p.length / 256
  {
  }

  /** The packet read from the bytes, and the answers it meets. */
  function InputOf(raw: RawSetup, a: Answers): SetupInput {
    SetupInput(ReadSetup(raw), a.hook, a.descriptor, a.epStatus)
  }

  /* ---------- standard requests ---------- */

  datatype StandardRequest =
    | DeviceStatus | ClearWakeup | SetWakeup | SetAddress | GetDescriptor
    | GetConfiguration | SetConfiguration | ZeroStatus
    | EpStatus | ClearHalt(ep: nat, isIn: bool) | SetHalt(ep: nat, isIn: bool)
    | Unsupported

  /** The request table of section 9.4 as far as this driver supports it. */
  function Decode(p: Packet): StandardRequest {
    if p.kind != TYPE_STD then Unsupported
    else if p.recipient == RECIPIENT_DEVICE then
      match p.request
      case REQ_GET_STATUS => DeviceStatus
      case REQ_CLEAR_FEATURE => if p.value == FEATURE_DEVICE_REMOTE_WAKEUP then ClearWakeup else Unsupported
      case REQ_SET_FEATURE => if p.value == FEATURE_DEVICE_REMOTE_WAKEUP then SetWakeup else Unsupported
      case REQ_SET_ADDRESS => SetAddress
      case REQ_GET_DESCRIPTOR => GetDescriptor
      case REQ_GET_CONFIGURATION => GetConfiguration
      case REQ_SET_CONFIGURATION => SetConfiguration
      case _ => Unsupported
    else if p.recipient == RECIPIENT_INTERFACE then
      if p.request == REQ_GET_STATUS then ZeroStatus else Unsupported
    else if p.recipient == RECIPIENT_ENDPOINT then
      match p.request
      case REQ_GET_STATUS => EpStatus
      case REQ_CLEAR_FEATURE => if p.value == FEATURE_ENDPOINT_HALT then ClearHalt(p.ep, p.epIsIn) else Unsupported
      case REQ_SET_FEATURE => if p.value == FEATURE_ENDPOINT_HALT then SetHalt(p.ep, p.epIsIn) else Unsupported
      case REQ_SYNCH_FRAME => ZeroStatus
      case _ => Unsupported
    else
      Unsupported
  }

  /** The device status word; only bit 1, remote wakeup, is ever set. */
  function StatusWord(wakeup: bool): seq<Byte> { [if wakeup then 2 else 0, 0] }

  function Emit(d: Device, e: Effect): Device { d.(io := d.io.(log := d.io.log + [e])) }

  function WithTransfer(d: Device, t: Transfer): Device {
    d.(next := t.buf, n := |t.buf|, endcb := t.endcb)
  }

  function Addressed(d: Device): Device {
    Emit(Emit(d.(address := d.setup.value), SetHwAddress(d.setup.value)), Notify(AddressEvent)).(state := Selected)
  }

  function Configured(d: Device): Device {
    Emit(d.(configuration := d.setup.value, state := if d.setup.value == 0 then Selected else Active),
         Notify(ConfiguredEvent))
  }

  /** What the request does before its transfer starts. */
  function Serve(mode: AddressMode, d: Device): Device {
    match Decode(d.setup)
    case ClearWakeup => d.(wakeup := false)
    case SetWakeup => d.(wakeup := true)
    case SetAddress => if mode == EarlyAddress && d.setup.bare then Addressed(d) else d
    case SetConfiguration => Configured(d)
    case ClearHalt(ep, isIn) => if ep == 0 then d else Emit(d, if isIn then ClearIn(ep) else ClearOut(ep))
    case SetHalt(ep, isIn) => if ep == 0 then d else Emit(d, if isIn then StallIn(ep) else StallOut(ep))
    case _ => d
  }

  /** The transfer a standard request answers with; None is an error response. */
  function Answer(mode: AddressMode, d: Device, s: SetupInput): Option<Transfer> {
    match Decode(d.setup)
    case DeviceStatus => Some(Transfer(StatusWord(d.wakeup), NoCallback))
    case SetAddress => Some(Transfer([], if mode == LateAddress then SetAddressCallback else NoCallback))
    case GetDescriptor =>
      if s.descriptor.Some? then Some(Transfer(s.descriptor.value, NoCallback)) else None
    case GetConfiguration => Some(Transfer([d.configuration], NoCallback))
    case ZeroStatus => Some(Transfer([0, 0], NoCallback))
    case EpStatus =>
      if s.epStatus == EpDisabled then None
      else Some(Transfer([if s.epStatus == EpStalled then 1 else 0, 0], NoCallback))
    case Unsupported => None
    case _ => Some(Transfer([], NoCallback))
  }

  /** The driver after a standard request that was handled; None when it was not. */
  function Handle(mode: AddressMode, d: Device, s: SetupInput): Option<Device> {
    var t := Answer(mode, d, s);
    if t.None? then None else Some(WithTransfer(Serve(mode, d), t.value))
  }

  /* ---------- endpoint zero ---------- */

  function Start(d: Device, ep: nat, isIn: bool): Device {
    if isIn then
      if ep in d.transmitting then d
      else d.(transmitting := d.transmitting + {ep}, io := d.io.(starts := d.io.starts + [StartIn(ep)]))
    else
      if ep in d.receiving then d
      else d.(receiving := d.receiving + {ep}, io := d.io.(starts := d.io.starts + [StartOut(ep)]))
  }

  function StartIn0(d: Device, data: seq<Byte>): Device {
    Start(d.(io := d.io.(sent := d.io.sent + [data])), 0, true)
  }

  function StartOut0(d: Device, size: nat): Device {
    Start(Emit(d, PrepareOut(size)), 0, false)
  }

  function Fail(d: Device): Device {
    d.(ep0 := Error, io := d.io.(log := d.io.log + [StallIn(0), StallOut(0), Notify(StalledEvent)]))
  }

  function FireEnd(d: Device): Device {
    match d.endcb
    case NoCallback => d
    case SetAddressCallback => Addressed(d.(io := d.io.(ended := d.io.ended + [d.endcb])))
    case AppCallback(_) => d.(io := d.io.(ended := d.io.ended + [d.endcb]))
  }

  function Min(a: nat, b: nat): nat { if a <= b then a else b }

  /** The first stage after an accepted SETUP: data if there is any, else status. */
  function Begin(d: Device): Device
    requires d.n == |d.next|
  {
    var len := Min(d.n, d.setup.length);
    var d1 := d.(n := len);
    if d.setup.toHost then
      if len > 0 then StartIn0(d1.(ep0 := Tx), d.next[..len])
      else StartOut0(d1.(ep0 := WaitingSts), 0)
    else
      if len > 0 then StartOut0(d1.(ep0 := Rx), len)
      else StartIn0(d1.(ep0 := SendingSts), [])
  }

  /** The transfer with which a SETUP is accepted, by the hook or as a standard request. */
  function Accepted(mode: AddressMode, d: Device, s: SetupInput): Option<Transfer> {
    if s.hook.Some? then s.hook
    else if s.packet.kind != TYPE_STD then None
    else Answer(mode, d.(setup := s.packet), s)
  }

  function SetupStep(mode: AddressMode, d: Device, s: SetupInput): Device {
    var d0 := d.(ep0 := WaitingSetup, setup := s.packet);
    var t := Accepted(mode, d, s);
    if t.None? then Fail(d0)
    else Begin(WithTransfer(if s.hook.Some? then d0 else Serve(mode, d0), t.value))
  }

  function InStep(d: Device): Device
  {
    match d.ep0
    case Tx =>
      if d.n < d.setup.length && Whole(d.max, d.n) then StartIn0(d, [])
      else StartOut0(d.(ep0 := WaitingSts), 0)
    case SendingSts => FireEnd(d).(ep0 := WaitingSetup)
    case _ => Fail(d)
  }

  function OutStep(d: Device, received: nat): Device {
    match d.ep0
    case Rx => StartIn0(d.(ep0 := SendingSts), [])
    case WaitingSts => if received != 0 then Fail(d) else FireEnd(d).(ep0 := WaitingSetup)
    case _ => Fail(d)
  }

  function ResetStep(d: Device): Device {
    d.(state := Ready, wakeup := false, address := 0, configuration := 0,
       transmitting := {}, receiving := {}, ep0 := WaitingSetup,
       io := d.io.(log := d.io.log + [LowLevelReset]))
  }

  /** One interrupt, or one start on another endpoint. The interrupt macros clear the busy bit
      before the callback; events on endpoint zero do not occur as `OtherStart`/`OtherDone`. */
  function Step(mode: AddressMode, d: Device, e: Event): Device
  {
    match e
    case BusReset => ResetStep(d)
    case Setup(raw, answers) => SetupStep(mode, d, InputOf(raw, answers))
    case InDone => InStep(d.(transmitting := d.transmitting - {0}))
    case OutDone(received) => OutStep(d.(receiving := d.receiving - {0}), received)
    case OtherStart(ep, isIn) => if ep == 0 then d else Start(d, ep, isIn)
    case OtherDone(ep, isIn) =>
      if ep == 0 then d
      else if isIn then d.(transmitting := d.transmitting - {ep})
      else d.(receiving := d.receiving - {ep})
  }

  function Run(mode: AddressMode, d: Device, es: seq<Event>): Device
    decreases |es|
  {
    if es == [] then d else Run(mode, Step(mode, d, es[0]), es[1..])
  }

  /* ---------- the driver object ---------- */

  class UsbDriver {
    const mode: AddressMode
    const maxsize: PacketSize
    var state: DeviceState
    var address: Byte
    var configuration: Byte
    var wakeup: bool
    var ep0state: Ep0State
    var ep0n: nat
    var ep0next: seq<Byte>
    var ep0endcb: EndCallback
    var setup: Packet
    var transmitting: set<nat>
    var receiving: set<nat>
    var io: History

    ghost function Model(): Device
      reads this
    {
      Device(maxsize, state, address, configuration, wakeup, ep0state, ep0n, ep0next, ep0endcb, setup,
             transmitting, receiving, io)
    }

    constructor (mode: AddressMode, maxsize: PacketSize)
      ensures this.mode == mode && this.maxsize == maxsize
      ensures state == Ready && ep0state == WaitingSetup && io == History([], [], [], [])
      ensures transmitting == {} && receiving == {} && configuration == 0 && address == 0
    {
      this.mode := mode;
      this.maxsize := maxsize;
      state, address, configuration, wakeup := Ready, 0, 0, false;
      ep0state, ep0n, ep0next, ep0endcb := WaitingSetup, 0, [], NoCallback;
      setup := ReadSetup([0, 0, 0, 0, 0, 0, 0, 0]);
      transmitting, receiving := {}, {};
      io := History([], [], [], []);
    }

    method StartReceiveI(ep: nat) returns (busy: bool)
      modifies this`receiving, this`io
      ensures Model() == Start(old(Model()), ep, false)
      ensures busy <==> ep in old(receiving)
    {
      if ep in receiving {
        return true;
      }
      receiving := receiving + {ep};
      io := io.(starts := io.starts + [StartOut(ep)]);
      return false;
    }

    method StartTransmitI(ep: nat) returns (busy: bool)
      modifies this`transmitting, this`io
      ensures Model() == Start(old(Model()), ep, true)
      ensures busy <==> ep in old(transmitting)
    {
      if ep in transmitting {
        return true;
      }
      transmitting := transmitting + {ep};
      io := io.(starts := io.starts + [StartIn(ep)]);
      return false;
    }

    method SendOnEp0(data: seq<Byte>)
      modifies this`transmitting, this`io
      ensures Model() == StartIn0(old(Model()), data)
    {
      io := io.(sent := io.sent + [data]);
      var _ := StartTransmitI(0);
    }

    method ReceiveOnEp0(size: nat)
      modifies this`receiving, this`io
      ensures Model() == StartOut0(old(Model()), size)
    {
      io := io.(log := io.log + [PrepareOut(size)]);
      var _ := StartReceiveI(0);
    }

    method SetupTransfer(buf: seq<Byte>, endcb: EndCallback)
      modifies this`ep0next, this`ep0n, this`ep0endcb
      ensures Model() == WithTransfer(old(Model()), Transfer(buf, endcb))
    {
      ep0next := buf;
      ep0n := |buf|;
      ep0endcb := endcb;
    }

    method SetAddress()
      modifies this`address, this`state, this`io
      ensures Model() == Addressed(old(Model()))
    {
      address := setup.value;
      io := io.(log := io.log + [SetHwAddress(setup.value)]);
      io := io.(log := io.log + [Notify(AddressEvent)]);
      state := Selected;
    }

    method StallEp0()
      modifies this`ep0state, this`io
      ensures Model() == Fail(old(Model()))
    {
      io := io.(log := io.log + [StallIn(0)]);
      io := io.(log := io.log + [StallOut(0)]);
      io := io.(log := io.log + [Notify(StalledEvent)]);
      ep0state := Error;
    }

    ghost function Outcome(handled: bool): Option<Device>
      reads this
    {
      if handled then Some(Model()) else None
    }

    method DefaultHandler(s: SetupInput) returns (handled: bool)
      requires setup == s.packet
      modifies this
      ensures Outcome(handled) == Handle(mode, old(Model()), s)
      ensures !handled ==> Model() == old(Model())
    {
      var recipient := setup.recipient;
      if setup.kind != TYPE_STD {
        handled := false;
      } else if recipient == RECIPIENT_DEVICE {
        handled := DeviceRequest(s);
      } else if recipient == RECIPIENT_ENDPOINT {
        handled := EndpointRequest(s);
      } else if recipient == RECIPIENT_INTERFACE && setup.request == REQ_GET_STATUS {
        SetupTransfer([0, 0], NoCallback);
        handled := true;
      } else {
        handled := false;
      }
    }

    method DeviceRequest(s: SetupInput) returns (handled: bool)
      requires setup == s.packet && setup.kind == TYPE_STD && setup.recipient == RECIPIENT_DEVICE
      modifies this
      ensures Outcome(handled) == Handle(mode, old(Model()), s)
      ensures !handled ==> Model() == old(Model())
    {
      hide StatusWord, Configured;
      handled := true;
      match setup.request {
        case REQ_GET_STATUS =>
          SetupTransfer(StatusWord(wakeup), NoCallback);
        case REQ_CLEAR_FEATURE =>
          handled := SetWakeupFeature(false, s);
        case REQ_SET_FEATURE =>
          handled := SetWakeupFeature(true, s);
        case REQ_SET_ADDRESS =>
          AddressRequest(s);
        case REQ_GET_DESCRIPTOR =>
          if s.descriptor.None? {
            return false;
          }
          SetupTransfer(s.descriptor.value, NoCallback);
        case REQ_GET_CONFIGURATION =>
          SetupTransfer([configuration], NoCallback);
        case REQ_SET_CONFIGURATION =>
          ConfigurationRequest(s);
        case _ =>
          return false;
      }
    }

    method SetWakeupFeature(on: bool, s: SetupInput) returns (handled: bool)
      requires setup == s.packet && setup.kind == TYPE_STD && setup.recipient == RECIPIENT_DEVICE
      requires setup.request == if on then REQ_SET_FEATURE else REQ_CLEAR_FEATURE
      modifies this`wakeup, this`ep0next, this`ep0n, this`ep0endcb
      ensures Outcome(handled) == Handle(mode, old(Model()), s)
      ensures !handled ==> Model() == old(Model())
    {
      if setup.value != FEATURE_DEVICE_REMOTE_WAKEUP {
        return false;
      }
      wakeup := on;
      SetupTransfer([], NoCallback);
      handled := true;
    }

    method AddressRequest(s: SetupInput)
      requires setup == s.packet && Decode(setup).SetAddress?
      modifies this
      ensures Outcome(true) == Handle(mode, old(Model()), s)
    {
      hide Addressed;
      if mode == EarlyAddress {
        if setup.bare && setup.request == REQ_SET_ADDRESS {
          SetAddress();
        }
        SetupTransfer([], NoCallback);
      } else {
        SetupTransfer([], SetAddressCallback);
      }
    }

    method ConfigurationRequest(s: SetupInput)
      requires setup == s.packet && Decode(setup).SetConfiguration?
      modifies this
      ensures Outcome(true) == Handle(mode, old(Model()), s)
    {
      configuration := setup.value;
      if configuration == 0 {
        state := Selected;
      } else {
        state := Active;
      }
      io := io.(log := io.log + [Notify(ConfiguredEvent)]);
      SetupTransfer([], NoCallback);
    }

    method EndpointRequest(s: SetupInput) returns (handled: bool)
      requires setup == s.packet && setup.kind == TYPE_STD && setup.recipient == RECIPIENT_ENDPOINT
      modifies this
      ensures Outcome(handled) == Handle(mode, old(Model()), s)
      ensures !handled ==> Model() == old(Model())
    {
      handled := true;
      var ep, isIn := setup.ep, setup.epIsIn;
      match setup.request {
        case REQ_GET_STATUS =>
          match s.epStatus {
            case EpStalled => SetupTransfer([1, 0], NoCallback);
            case EpActive => SetupTransfer([0, 0], NoCallback);
            case EpDisabled => return false;
          }
        case REQ_CLEAR_FEATURE =>
          if setup.value != FEATURE_ENDPOINT_HALT {
            return false;
          }
          if ep > 0 {
            io := io.(log := io.log + [if isIn then ClearIn(ep) else ClearOut(ep)]);
          }
          SetupTransfer([], NoCallback);
        case REQ_SET_FEATURE =>
          if setup.value != FEATURE_ENDPOINT_HALT {
            return false;
          }
          if ep > 0 {
            io := io.(log := io.log + [if isIn then StallIn(ep) else StallOut(ep)]);
          }
          SetupTransfer([], NoCallback);
        case REQ_SYNCH_FRAME =>
          SetupTransfer([0, 0], NoCallback);
        case _ =>
          return false;
      }
    }

    method Ep0Setup(s: SetupInput)
      modifies this
      ensures Model() == SetupStep(mode, old(Model()), s)
    {
      hide Serve, Begin, Decode;
      ep0state := WaitingSetup;
      setup := s.packet;
      if s.hook.Some? {
        SetupTransfer(s.hook.value.buf, s.hook.value.endcb);
      } else {
        var handled := false;
        if setup.kind == TYPE_STD {
          handled := DefaultHandler(s);
        }
        if !handled {
          StallEp0();
          return;
        }
      }
      BeginTransfer();
    }

    method BeginTransfer()
      requires ep0n == |ep0next|
      modifies this
      ensures Model() == Begin(old(Model()))
    {
      var max := setup.length;
      if ep0n > max {
        ep0n := max;
      }
      if setup.toHost {
        if ep0n > 0 {
          ep0state := Tx;
          SendOnEp0(ep0next[..ep0n]);
        } else {
          ep0state := WaitingSts;
          ReceiveOnEp0(0);
        }
      } else {
        if ep0n > 0 {
          ep0state := Rx;
          ReceiveOnEp0(ep0n);
        } else {
          ep0state := SendingSts;
          SendOnEp0([]);
        }
      }
    }

    method EndTransferCallback()
      modifies this`address, this`state, this`io
      ensures Model() == FireEnd(old(Model()))
    {
      match ep0endcb {
        case NoCallback =>
        case SetAddressCallback =>
          io := io.(ended := io.ended + [ep0endcb]);
          SetAddress();
        case AppCallback(_) =>
          io := io.(ended := io.ended + [ep0endcb]);
      }
    }

    method Ep0In()
      modifies this
      ensures Model() == InStep(old(Model()))
    {
      match ep0state {
        case Tx =>
          var max := setup.length;
          if ep0n < max && Whole(maxsize, ep0n) {
            SendOnEp0([]);
            return;
          }
          ep0state := WaitingSts;
          ReceiveOnEp0(0);
          return;
        case SendingSts =>
          EndTransferCallback();
          ep0state := WaitingSetup;
          return;
        case _ =>
      }
      StallEp0();
    }

    method Ep0Out(received: nat)
      modifies this
      ensures Model() == OutStep(old(Model()), received)
    {
      match ep0state {
        case Rx =>
          ep0state := SendingSts;
          SendOnEp0([]);
          return;
        case WaitingSts =>
          if received == 0 {
            EndTransferCallback();
            ep0state := WaitingSetup;
            return;
          }
        case _ =>
      }
      StallEp0();
    }

    method Reset()
      modifies this
      ensures Model() == ResetStep(old(Model()))
    {
      state := Ready;
      wakeup := false;
      address := 0;
      configuration := 0;
      transmitting := {};
      receiving := {};
      ep0state := WaitingSetup;
      io := io.(log := io.log + [LowLevelReset]);
    }

    /** Serves one event the way the low level driver's interrupt handler does. */
    method ServeInterrupt(e: Event)
      modifies this
      ensures Model() == Step(mode, old(Model()), e)
    {
      match e {
        case BusReset => Reset();
        case Setup(raw, answers) => Ep0Setup(InputOf(raw, answers));
        case InDone =>
          transmitting := transmitting - {0};
          Ep0In();
        case OutDone(received) =>
          receiving := receiving - {0};
          Ep0Out(received);
        case OtherStart(ep, isIn) =>
          if ep != 0 {
            if isIn {
              var _ := StartTransmitI(ep);
            } else {
              var _ := StartReceiveI(ep);
            }
          }
        case OtherDone(ep, isIn) =>
          if ep != 0 {
            if isIn {
              transmitting := transmitting - {ep};
            } else {
              receiving := receiving - {ep};
            }
          }
      }
    }

    /** Any finite run of interrupts leaves the fields where `Run` says. */
    method ServeAll(es: seq<Event>)
      modifies this
      ensures Model() == Run(mode, old(Model()), es)
    {
      var i := 0;
      while i < |es|
        invariant 0 <= i <= |es|
        invariant Run(mode, Model(), es[i..]) == Run(mode, old(Model()), es)
      {
        assert es[i..][1..] == es[i + 1..];
        ServeInterrupt(es[i]);
        i := i + 1;
      }
    }
  }
}
