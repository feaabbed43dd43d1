/** The receive half of the serial over USB driver: the input queue and the bulk OUT endpoint of
    `os/hal/src/serial_usb.c`.

    One reader thread, the endpoint's interrupts and the arriving packets are interleaved. A read call
    notifies the driver before it takes a byte (`os/kernel/src/chqueues.c`), and `inotify` leaves the
    kernel lock between its test and the start of the transaction; that window is the reader phase
    `Window`. Neither a bus reset nor a SET_CONFIGURATION falls into it.

    A SET_CONFIGURATION of any value, on a device in any state, initializes the endpoint and calls
    `sduConfigureHookI` (`serv_usbcfg.c`); neither clears the busy bit. A SET_ADDRESS, or the
    configuration number zero, leaves the device inactive with its endpoints running. */
module SerialUsbRx {
  import opened Arith

  type Byte = int

  /** `Window(n)`: inside `inotify`, with `n` bytes seen free. `Waiting`: past the notification, about to
      take a byte or asleep on the empty queue. */
  datatype Reader = Outside | Window(free: int) | Waiting

  /** `max` is `out_maxsize` of the data endpoint; `left` is what the outstanding transaction may still
      deliver; `over` says that its last packet has arrived and its interrupt has not been served;
      `started` counts the transactions handed to the hardware. */
  datatype Rx = Rx(max: int, active: bool, busy: bool, over: bool, left: int, iq: seq<Byte>, reader: Reader,
                   received: seq<Byte>, delivered: seq<Byte>, started: nat)

  datatype Event =
    | Call
    | Resume
    | Take
    | Packet(data: seq<Byte>)
    | OutDone
    | BusReset
    | Configure(value: Byte)
    | SetAddress

  predicate Enabled(s: Rx, e: Event) {
    match e
    case Call => s.reader == Outside
    case Resume => s.reader.Window?
    case Take => s.reader == Waiting && s.iq != []
    case Packet(data) => s.busy && !s.over && |data| <= s.max
    case OutDone => s.busy && s.over
    case BusReset => !s.reader.Window?
    case Configure(_) => !s.reader.Window?
    case SetAddress => true
  }

  /** `usbPrepareQueuedReceive` then `usbStartReceiveI`, which does nothing on a busy endpoint. */
  function StartTransaction(s: Rx, n: int): Rx {
    s.(left := n, over := s.busy && s.over, busy := true, started := if s.busy then s.started else s.started + 1)
  }

  function WholePackets(max: int, n: int): int
    requires max >= 1
  {
    (n / max) * max
  }

  function Free(cap: int, s: Rx): int { cap - |s.iq| }

  function Step(cap: int, s: Rx, e: Event): Rx
    requires s.max >= 1
    requires e.Resume? ==> s.reader.Window?
    requires e.Take? ==> s.iq != []
  {
    match e
    case Call =>
      s.(reader := if s.active && !s.busy && Free(cap, s) >= s.max then Window(Free(cap, s)) else Waiting)
    case Resume => StartTransaction(s.(reader := Waiting), WholePackets(s.max, s.reader.free))
    case Take => s.(reader := Outside, iq := s.iq[1..], delivered := s.delivered + [s.iq[0]])
    case Packet(data) =>
      s.(iq := s.iq + data, received := s.received + data, left := s.left - |data|,
         over := |data| < s.max || s.left == |data|)
    case OutDone =>
      var s1 := s.(busy := false, over := false);
      if Free(cap, s) >= s.max then StartTransaction(s1, WholePackets(s.max, Free(cap, s))) else s1
    case BusReset => s.(active := false, busy := false)
    case Configure(value) =>
      StartTransaction(s.(active := value != 0, iq := [], reader := Outside, received := [], delivered := []), s.max)
    case SetAddress => s.(active := false)
  }

  function Initial(max: int): Rx { Rx(max, false, false, false, 0, [], Outside, [], [], 0) }

  ghost predicate Inv(cap: int, s: Rx) {
    && 1 <= s.max <= cap
    && s.delivered + s.iq == s.received
    && |s.iq| <= cap
    && (s.busy ==> 0 <= s.left <= Free(cap, s))
    && (s.busy && !s.over ==> s.left >= s.max && s.left % s.max == 0)
    && (s.reader.Window? ==> !s.busy && s.reader.free == Free(cap, s) >= s.max)
    && (s.reader == Waiting && s.active && !s.busy ==> Free(cap, s) < s.max)
  }

  /** States that follow from one another by enabled events. */
  ghost predicate Steps(cap: int, max: int, es: seq<Event>, ss: seq<Rx>) {
    && |ss| == |es| + 1 && 1 <= max <= cap
    && forall i :: 0 <= i < |es| ==> Enabled(ss[i], es[i]) && ss[i].max == max && ss[i + 1] == Step(cap, ss[i], es[i])
  }

  ghost predicate Run(cap: int, max: int, es: seq<Event>, ss: seq<Rx>) {
    Steps(cap, max, es, ss) && ss[0] == Initial(max)
  }

  lemma WholePacketsFit(max: int, n: int)
    requires 1 <= max <= n
    ensures max <= WholePackets(max, n) <= n && WholePackets(max, n) % max == 0
  {
    assert n == max * (n / max) + n % max;
    MulMonotone(max, 1, n / max);
    UniqueRemainder(WholePackets(max, n), max, n / max, 0);
  }

  /** After a full packet that was not the last one, at least one more is awaited. */
  lemma PacketsRemain(max: int, left: int)
    requires 1 <= max < left && left % max == 0
    ensures left - max >= max && (left - max) % max == 0
  {
    var q := left / max;
    assert left == max * q;
    MulMonotone(max, q, 1);
    MulMonotone(max, 1, q - 1);
    assert max * (q - 1) == left - max;
    UniqueRemainder(left - max, max, q - 1, 0);
  }

  lemma StepKeepsInv(cap: int, s: Rx, e: Event)
    requires Inv(cap, s) && Enabled(s, e)
    ensures Inv(cap, Step(cap, s, e))
  {
    hide WholePackets;
    match e {
      case Resume =>
        WholePacketsFit(s.max, s.reader.free);
      case Take =>
        assert [s.iq[0]] + s.iq[1..] == s.iq;
        assert s.delivered + [s.iq[0]] + s.iq[1..] == s.delivered + s.iq;
      case Packet(data) =>
        assert s.delivered + (s.iq + data) == s.received + data;
        if |data| == s.max && s.left != s.max {
          PacketsRemain(s.max, s.left);
        }
      case OutDone =>
        if Free(cap, s) >= s.max {
          WholePacketsFit(s.max, Free(cap, s));
        }
      case Configure(_) =>
        UniqueRemainder(s.max, s.max, 1, 0);
      case _ =>
    }
  }

  /** Main result: in every interleaving of reader, interrupts, packets, resets and requests, every packet
      that arrives fits into the queue, since an outstanding transaction awaits a positive number of whole
      packets and never more than the free space; the bytes read followed by those queued are the bytes
      received since the queue was last reset; and a reader of an active device past its notification has
      a transaction outstanding or less than one packet of room. */
  lemma ReceiveSafe(cap: int, max: int, es: seq<Event>, ss: seq<Rx>, i: int)
    requires Run(cap, max, es, ss) && 0 <= i < |ss|
    ensures Inv(cap, ss[i])
    ensures |ss[i].iq| <= cap && ss[i].delivered + ss[i].iq == ss[i].received
    ensures ss[i].busy && !ss[i].over ==> 0 < ss[i].left <= Free(cap, ss[i]) && ss[i].left % max == 0
    ensures forall data :: Enabled(ss[i], Packet(data)) ==> |ss[i].iq| + |data| <= cap
    ensures ss[i].active && ss[i].reader == Waiting ==> ss[i].busy || Free(cap, ss[i]) < max
  {
    RunKeepsInv(cap, max, es, ss, i);
    InvMeans(cap, ss[i]);
  }

  lemma {:induction false} RunKeepsInv(cap: int, max: int, es: seq<Event>, ss: seq<Rx>, i: int)
    requires Run(cap, max, es, ss) && 0 <= i < |ss|
    ensures Inv(cap, ss[i]) && ss[i].max == max
    decreases i
  {
    if i > 0 {
      RunKeepsInv(cap, max, es, ss, i - 1);
      StepKeepsInv(cap, ss[i - 1], es[i - 1]);
      KeepsMax(cap, ss[i - 1], es[i - 1]);
    }
  }

  lemma KeepsMax(cap: int, s: Rx, e: Event)
    requires Inv(cap, s) && Enabled(s, e)
    ensures Step(cap, s, e).max == s.max
  {
  }

  lemma InvMeans(cap: int, s: Rx)
    requires Inv(cap, s)
    ensures |s.iq| <= cap && s.delivered + s.iq == s.received
    ensures s.busy && !s.over ==> 0 < s.left <= Free(cap, s) && s.left % s.max == 0
    ensures forall data :: Enabled(s, Packet(data)) ==> |s.iq| + |data| <= cap
    ensures s.active && s.reader == Waiting ==> s.busy || Free(cap, s) < s.max
  {
  }

  /** A reader is never stuck: in every run, one asleep on the empty queue of an active device waits for a
      transaction that is outstanding. */
  lemma BlockedReaderHasTransaction(cap: int, max: int, es: seq<Event>, ss: seq<Rx>, i: int)
    requires Run(cap, max, es, ss) && 0 <= i < |ss|
    requires ss[i].active && ss[i].reader == Waiting && ss[i].iq == []
    ensures ss[i].busy
  {
    ReceiveSafe(cap, max, es, ss, i);
  }

  /** After `inotify` or `sduDataReceived` a receive is outstanding if and only if there was one before or a
      whole packet fits; after `sduConfigureHookI` one always is, but the hook has started it if and only
      if the endpoint was not busy: an old transaction's busy bit stands for it otherwise. */
  lemma ReceiveOutstandingIff(cap: int, s: Rx, value: Byte)
    requires Inv(cap, s)
    ensures Enabled(s, OutDone) ==> (Step(cap, s, OutDone).busy <==> Free(cap, s) >= s.max)
    ensures s.active && Enabled(s, Call) ==>
              var s1 := Step(cap, s, Call);
              var s2 := if s1.reader.Window? then Step(cap, s1, Resume) else s1;
              s2.busy <==> s.busy || Free(cap, s) >= s.max
    ensures Enabled(s, Configure(value)) ==>
              var s1 := Step(cap, s, Configure(value));
              s1.busy && s1.iq == [] && (s1.started == s.started + 1 <==> !s.busy)
  {
  }

  /** Then nothing is started, whatever is read, until the old transaction completes or the bus is reset. */
  lemma {:induction false} NothingStartedWhileBusy(cap: int, s: Rx, es: seq<Event>, ss: seq<Rx>, i: int)
    requires Inv(cap, s) && s.busy
    requires Steps(cap, s.max, es, ss) && ss[0] == s && 0 <= i < |ss|
    requires forall k :: 0 <= k < i ==> es[k] != OutDone && es[k] != BusReset
    ensures Inv(cap, ss[i]) && ss[i].busy && ss[i].started == s.started
    decreases i
  {
    if i > 0 {
      NothingStartedWhileBusy(cap, s, es, ss, i - 1);
      StepKeepsInv(cap, ss[i - 1], es[i - 1]);
    }
  }

  /** A read that makes room for a packet starts nothing by itself: after taking a byte a transaction is
      outstanding, or less than a packet free, if and only if one was running or the packet is still not
      free. The next read call catches up. */
  lemma TakeKeepsReceivingIff(cap: int, s: Rx)
    requires Inv(cap, s) && s.active && Enabled(s, Take)
    ensures var t := Step(cap, s, Take);
            && (t.busy || Free(cap, t) < t.max <==> s.busy || Free(cap, s) + 1 < s.max)
            && (!(t.busy || Free(cap, t) < t.max) <==> !s.busy && Free(cap, s) == s.max - 1)
            && (!t.busy && Free(cap, t) >= t.max ==> Step(cap, t, Call).reader == Window(t.max))
  {
    StepKeepsInv(cap, s, Take);
  }

  /* ---------- the same, told from the events ---------- */

  /** The last request or reset made the device active: a SET_CONFIGURATION with a number. */
  function Active(es: seq<Event>): bool
    decreases |es|
  {
    if es == [] then false
    else
      var e := es[|es| - 1];
      if e.Configure? then e.value != 0
      else if e.SetAddress? || e.BusReset? then false
      else Active(es[..|es| - 1])
  }

  /** The bytes of the packets since the last SET_CONFIGURATION. */
  function Arrived(es: seq<Event>): seq<Byte>
    decreases |es|
  {
    if es == [] then []
    else
      var e := es[|es| - 1];
      if e.Configure? then []
      else Arrived(es[..|es| - 1]) + if e.Packet? then e.data else []
  }

  /** The bytes read since then. */
  function TakenCount(es: seq<Event>): nat
    decreases |es|
  {
    if es == [] then 0
    else
      var e := es[|es| - 1];
      if e.Configure? then 0
      else TakenCount(es[..|es| - 1]) + if e.Take? then 1 else 0
  }

  /** In every run the reader gets the bytes of the packets in their order, since the last SET_CONFIGURATION,
      and the device is active if and only if that is what it was last told. */
  lemma RunDelivers(cap: int, max: int, es: seq<Event>, ss: seq<Rx>, i: int)
    requires Run(cap, max, es, ss) && 0 <= i < |ss|
    ensures ss[i].active <==> Active(es[..i])
    ensures TakenCount(es[..i]) <= |Arrived(es[..i])|
    ensures ss[i].delivered == Arrived(es[..i])[..TakenCount(es[..i])]
    ensures ss[i].iq == Arrived(es[..i])[TakenCount(es[..i])..]
  {
    RunKeepsInv(cap, max, es, ss, i);
    RunCounts(cap, max, es, ss, i);
    assert ss[i].received == ss[i].delivered + ss[i].iq;
  }

  lemma {:induction false} RunCounts(cap: int, max: int, es: seq<Event>, ss: seq<Rx>, i: int)
    requires Run(cap, max, es, ss) && 0 <= i < |ss|
    ensures ss[i].active <==> Active(es[..i])
    ensures ss[i].received == Arrived(es[..i]) && |ss[i].delivered| == TakenCount(es[..i])
    decreases i
  {
    if i > 0 {
      RunCounts(cap, max, es, ss, i - 1);
      RunKeepsInv(cap, max, es, ss, i - 1);
      assert es[..i][..i - 1] == es[..i - 1] && es[..i][i - 1] == es[i - 1];
      StepCounts(cap, ss[i - 1], es[i - 1]);
    }
  }

  lemma StepCounts(cap: int, s: Rx, e: Event)
    requires Inv(cap, s) && Enabled(s, e)
    ensures var t := Step(cap, s, e);
            && (t.active <==> if e.Configure? then e.value != 0 else !e.SetAddress? && !e.BusReset? && s.active)
            && t.received == (if e.Configure? then [] else s.received + if e.Packet? then e.data else [])
            && |t.delivered| == (if e.Configure? then 0 else |s.delivered| + if e.Take? then 1 else 0)
  {
    hide WholePackets;
    assert s.received + [] == s.received;
  }

  /** The hardware takes packets for this endpoint. */
  predicate Awaits(s: Rx) { s.busy && !s.over }

  /** Every receive that is started takes packets, for all the whole packets that fit; an endpoint that was
      reset starts one at the next SET_CONFIGURATION, whatever state it was in. */
  lemma StartedReceiveAwaits(cap: int, s: Rx, value: Byte)
    requires Inv(cap, s)
    ensures Enabled(s, OutDone) && Free(cap, s) >= s.max ==>
              var t := Step(cap, s, OutDone); Awaits(t) && t.left <= Free(cap, t) < t.left + t.max
    ensures Enabled(s, Resume) ==>
              var t := Step(cap, s, Resume); Awaits(t) && t.left <= Free(cap, t) < t.left + t.max
    ensures Enabled(s, Configure(value)) && !s.busy ==>
              var t := Step(cap, s, Configure(value)); Awaits(t) && t.left == t.max && t.reader == Outside
    ensures Enabled(s, BusReset) ==> Awaits(Step(cap, Step(cap, s, BusReset), Configure(value)))
  {
    DivisionBounds(Free(cap, s), s.max);
  }

  lemma DivisionBounds(n: int, max: int)
    requires max >= 1
    ensures WholePackets(max, n) <= n < WholePackets(max, n) + max
  {
    assert n == max * (n / max) + n % max;
  }

  /** A bus reset and a SET_ADDRESS are always possible outside the window, and a reset frees the endpoint. */
  lemma ResetFrees(cap: int, s: Rx)
    requires s.max >= 1 && !s.reader.Window?
    ensures Enabled(s, SetAddress) && Enabled(s, BusReset)
    ensures !Step(cap, s, BusReset).busy && !Step(cap, s, BusReset).active
  {
  }

  /** At power-up nothing is queued, outstanding or counted. */
  lemma PowerUp(max: int)
    ensures var s := Initial(max);
            && s.max == max && !s.active && !s.busy && !s.over && s.reader == Outside
            && s.iq == s.received == s.delivered == [] && s.left == s.started == 0
  {
  }

  /** Every receive that is started is ended by its completion or by a bus reset. */
  lemma StartedOrEnded(cap: int, s: Rx, e: Event)
    requires Inv(cap, s) && Enabled(s, e)
    ensures var t := Step(cap, s, e);
            t.started - s.started
            == (if t.busy then 1 else 0) - (if s.busy then 1 else 0)
               + (if e.OutDone? || (e.BusReset? && s.busy) then 1 else 0)
  {
    hide WholePackets;
  }

  function Join(ps: seq<seq<Byte>>): seq<Byte> {
    if ps == [] then [] else ps[0] + Join(ps[1..])
  }

  function AfterPackets(cap: int, s: Rx, ps: seq<seq<Byte>>): Rx
    requires s.max >= 1
    decreases |ps|
  {
    if ps == [] then s else AfterPackets(cap, Step(cap, s, Packet(ps[0])), ps[1..])
  }

  /** A receive takes full packets one after another until it has all it asked for; a short one ends it. */
  lemma {:induction false} FullPackets(cap: int, s: Rx, ps: seq<seq<Byte>>, last: seq<Byte>)
    requires Inv(cap, s) && Awaits(s) && |ps| * s.max <= s.left
    requires forall k :: 0 <= k < |ps| ==> |ps[k]| == s.max
    ensures var t := AfterPackets(cap, s, ps);
            && Inv(cap, t) && t.busy && t.max == s.max && t.left == s.left - |ps| * s.max && t.iq == s.iq + Join(ps)
            && (Awaits(t) <==> |ps| * s.max < s.left)
            && (Awaits(t) && |last| <= s.max ==>
                  Enabled(t, Packet(last))
                  && (Awaits(Step(cap, t, Packet(last))) <==> |last| == s.max && t.left > s.max))
    decreases |ps|
  {
    if ps == [] {
      assert s.iq + [] == s.iq;
    } else {
      var s1 := Step(cap, s, Packet(ps[0]));
      MorePackets(|ps|, s.max, s.left);
      StepKeepsInv(cap, s, Packet(ps[0]));
      if |ps| > 1 {
        FullPackets(cap, s1, ps[1..], last);
        assert s.iq + ps[0] + Join(ps[1..]) == s.iq + Join(ps);
      } else {
        assert ps[1..] == [] && ps[0] + [] == ps[0];
      }
    }
  }

  lemma MorePackets(k: int, max: int, left: int)
    requires k >= 1 && max >= 1 && k * max <= left
    ensures max <= left && (k - 1) * max == k * max - max
    ensures k > 1 ==> max < left
  {
    assert (k - 1) * max == k * max - max;
    MulMonotone(max, 1, k);
    MulMonotone(max, 2, k);
  }

  /** Such a run: 65 bytes arrive in a queue of 128 and one is read; no transaction is outstanding although
      a packet fits. */
  lemma IdleUntilNextCall() returns (es: seq<Event>, ss: seq<Rx>)
    ensures Run(128, 64, es, ss)
    ensures var s := ss[|es|]; s.active && !s.busy && Free(128, s) == 64 && s.reader == Outside
  {
    var full := seq(64, _ => 0);
    es := [Configure(1), Packet(full), OutDone, Packet([0]), OutDone, Call, Take];
    var s1 := Step(128, Initial(64), Configure(1));
    var s2 := Step(128, s1, Packet(full));
    var s3 := Step(128, s2, OutDone);
    var s4 := Step(128, s3, Packet([0]));
    var s5 := Step(128, s4, OutDone);
    var s6 := Step(128, s5, Call);
    ss := [Initial(64), s1, s2, s3, s4, s5, s6, Step(128, s6, Take)];
    assert s2.over && s3.busy && s3.left == 64;
    assert s4.over && |s4.iq| == 65;
    assert !s5.busy && s6.reader == Waiting;
  }

  /** The driver's fields and callbacks. */
  class Receiver {
    const cap: int
    const max: int
    var active: bool
    var receiving: bool
    var left: int
    var iqueue: seq<Byte>
    var phase: Reader
    ghost var over: bool
    ghost var received: seq<Byte>
    ghost var delivered: seq<Byte>
    ghost var started: nat

    ghost function Model(): Rx
      reads this
    {
      Rx(max, active, receiving, over, left, iqueue, phase, received, delivered, started)
    }

    constructor (cap: int, max: int)
      ensures this.cap == cap && Model() == Initial(max)
    {
      this.cap := cap;
      this.max := max;
      active, receiving, left, iqueue, phase := false, false, 0, [], Outside;
      over, received, delivered, started := false, [], [], 0;
    }

    method StartReceive(n: int) returns (busy: bool)
      modifies this`left, this`receiving, this`over, this`started
      ensures busy <==> old(receiving)
      ensures Model() == StartTransaction(old(Model()), n)
    {
      left := n;
      if receiving {
        return true;
      }
      over := false;
      receiving := true;
      started := started + 1;
      return false;
    }

    /** The entry of a read call: `inotify` up to its unlock. */
    method Notify()
      requires Inv(cap, Model()) && Enabled(Model(), Call)
      modifies this
      ensures Model() == Step(cap, old(Model()), Call) && Inv(cap, Model())
    {
      StepKeepsInv(cap, Model(), Call);
      phase := Waiting;
      if !active {
        return;
      }
      if !receiving && cap - |iqueue| >= max {
        phase := Window(cap - |iqueue|);
      }
    }

    /** The rest of `inotify`. */
    method FinishNotify()
      requires Inv(cap, Model()) && Enabled(Model(), Resume)
      modifies this
      ensures Model() == Step(cap, old(Model()), Resume) && Inv(cap, Model())
      ensures receiving && 0 < left <= cap - |iqueue|
    {
      StepKeepsInv(cap, Model(), Resume);
      var n := phase.free;
      phase := Waiting;
      n := (n / max) * max;
      var _ := StartReceive(n);
    }

    /** The end of a read call, with a byte in the queue. */
    method TakeByte() returns (b: Byte)
      requires Inv(cap, Model()) && Enabled(Model(), Take)
      modifies this
      ensures Model() == Step(cap, old(Model()), Take) && Inv(cap, Model())
      ensures delivered == old(delivered) + [b] && b == old(received)[|old(delivered)|]
    {
      StepKeepsInv(cap, Model(), Take);
      b := iqueue[0];
      iqueue := iqueue[1..];
      delivered := delivered + [b];
      phase := Outside;
    }

    /** `sduDataReceived`, called with the busy bit already cleared. */
    method DataReceivedCallback()
      requires Inv(cap, Model()) && Enabled(Model(), OutDone)
      modifies this
      ensures Model() == Step(cap, old(Model()), OutDone) && Inv(cap, Model())
      ensures receiving <==> cap - |iqueue| >= max
    {
      StepKeepsInv(cap, Model(), OutDone);
      receiving, over := false, false;
      var n := cap - |iqueue|;
      if n >= max {
        n := (n / max) * max;
        var _ := StartReceive(n);
      }
    }

    /** The receive part of a SET_CONFIGURATION: `usbInitEndpointI` and `sduConfigureHookI`. A reader asleep
        on the queue is sent away. */
    method ConfigureHook(value: Byte)
      requires Inv(cap, Model()) && Enabled(Model(), Configure(value))
      modifies this
      ensures Model() == Step(cap, old(Model()), Configure(value)) && Inv(cap, Model())
      ensures started == old(started) + 1 <==> !old(receiving)
    {
      StepKeepsInv(cap, Model(), Configure(value));
      active := value != 0;
      iqueue, phase := [], Outside;
      received, delivered := [], [];
      var _ := StartReceive(max);
    }
  }
}
