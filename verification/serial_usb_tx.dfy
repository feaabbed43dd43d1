/** The transmit half of the serial over USB driver: the output queue and the bulk IN endpoint of
    `os/hal/src/serial_usb.c`.

    One writer thread, the endpoint's interrupts and the hardware that fetches queued bytes are
    interleaved. `onotify` leaves the kernel lock between its test and the start of the transaction;
    that window is a state of its own (`window`), entered by the writer's `Put` and left by `Resume`.
    Neither a bus reset nor a SET_CONFIGURATION falls into the window.

    A SET_CONFIGURATION of any value, on a device in any state, initializes the endpoint and calls
    `sduConfigureHookI` (`serv_usbcfg.c`): the endpoint's counters and the queue are cleared, the busy bit
    is not. A SET_ADDRESS leaves the device inactive with its endpoints running. */
module SerialUsbTx {
  import opened Wrappers

  type Byte = int

  /** `max` is `in_maxsize` of the data endpoint, a power of two: the mask `in_maxsize - 1` of the code
      takes the remainder. `done` holds the transactions completed since the last SET_CONFIGURATION,
      `current` the bytes of the running one already fetched, `left` how many it will still fetch,
      `written` the bytes written since then; `carry` are the bytes that a transaction running at the
      SET_CONFIGURATION had fetched before it. `started` counts the transactions handed to the hardware. */
  datatype Tx = Tx(max: int, active: bool, busy: bool, txsize: int, left: int, oq: seq<Byte>, window: Option<int>,
                   written: seq<Byte>, done: seq<seq<Byte>>, current: seq<Byte>, carry: seq<Byte>, started: nat)

  datatype Event =
    | Put(b: Byte)
    | Resume
    | Fetch(k: int)
    | InDone
    | BusReset
    | Configure(value: Byte)
    | SetAddress

  predicate Enabled(cap: int, s: Tx, e: Event) {
    match e
    case Put(_) => s.window.None? && |s.oq| < cap
    case Resume => s.window.Some?
    case Fetch(k) => s.busy && 1 <= k <= s.left
    case InDone => s.busy && s.left == 0
    case BusReset => s.window.None?
    case Configure(_) => s.window.None?
    case SetAddress => true
  }

  /** `usbPrepareQueuedTransmit` then `usbStartTransmitI`, which does nothing on a busy endpoint. */
  function StartTransaction(s: Tx, n: int): Tx {
    s.(txsize := n, left := n, current := if s.busy then s.current else [], busy := true,
       started := if s.busy then s.started else s.started + 1)
  }

  function OnNotify(s: Tx): Tx {
    if s.active && !s.busy && |s.oq| > 0 then s.(window := Some(|s.oq|)) else s
  }

  function DataTransmitted(s: Tx): Tx
    requires s.max >= 1
  {
    if |s.oq| > 0 then StartTransaction(s, |s.oq|)
    else if s.txsize % s.max == 0 then StartTransaction(s, 0)
    else s
  }

  function Step(s: Tx, e: Event): Tx
    requires s.max >= 1
  {
    match e
    case Put(b) => OnNotify(s.(oq := s.oq + [b], written := s.written + [b]))
    case Resume => if s.window.Some? then StartTransaction(s.(window := None), s.window.value) else s
    case Fetch(k) =>
      if 0 <= k <= |s.oq| then s.(oq := s.oq[k..], current := s.current + s.oq[..k], left := s.left - k) else s
    case InDone => DataTransmitted(s.(busy := false, done := s.done + [s.current], current := []))
    case BusReset => s.(active := false, busy := false)
    case Configure(value) =>
      var kept := if s.busy then s.current else [];
      Tx(s.max, value != 0, s.busy, 0, 0, [], None, [], [], kept, kept, s.started)
    case SetAddress => s.(active := false)
  }

  function Initial(max: int): Tx { Tx(max, false, false, 0, 0, [], None, [], [], [], [], 0) }

  function Flatten(ts: seq<seq<Byte>>): seq<Byte> {
    if ts == [] then [] else Flatten(ts[..|ts| - 1]) + ts[|ts| - 1]
  }

  /** The host ends a bulk transfer at a packet shorter than `in_maxsize`; a transaction ends with one
      if and only if its size is not a multiple. */
  predicate EndsShort(max: int, t: seq<Byte>)
    requires max >= 1
  {
    |t| % max != 0
  }

  /** Nothing is stuck: all is on the wire, and the host has been shown the end of it. */
  ghost predicate Flushed(s: Tx)
    requires s.max >= 1
  {
    && Flatten(s.done) == s.carry + s.written
    && (s.done != [] ==> EndsShort(s.max, s.done[|s.done| - 1]))
  }

  /** The transaction that was running at the SET_CONFIGURATION has not completed yet, and carries bytes
      from before. */
  predicate Stale(s: Tx) { s.done == [] && s.carry != [] }

  ghost predicate Inv(cap: int, s: Tx) {
    && s.max >= 1
    && |s.oq| <= cap
    && Flatten(s.done) + s.current + s.oq == s.carry + s.written
    && (s.busy ==> 0 <= s.left <= |s.oq| && s.txsize == if Stale(s) then 0 else |s.current| + s.left)
    && (s.busy && Stale(s) ==> s.left == 0)
    && (s.active && !s.busy ==>
          s.current == [] && !Stale(s) && (s.done != [] ==> EndsShort(s.max, s.done[|s.done| - 1])))
    && (s.window.Some? ==> !s.busy && !Stale(s) && s.current == [] && s.window.value == |s.oq| > 0)
    && (s.active && !s.busy && s.window.None? ==> s.oq == [])
  }

  /** States that follow from one another by enabled events. */
  ghost predicate Steps(cap: int, max: int, es: seq<Event>, ss: seq<Tx>) {
    && |ss| == |es| + 1 && max >= 1
    && forall i :: 0 <= i < |es| ==> ss[i].max == max && Enabled(cap, ss[i], es[i]) && ss[i + 1] == Step(ss[i], es[i])
  }

  /** A run from power-up. */
  ghost predicate Run(cap: int, max: int, es: seq<Event>, ss: seq<Tx>) {
    Steps(cap, max, es, ss) && ss[0] == Initial(max)
  }

  lemma FlattenAppend(ts: seq<seq<Byte>>, t: seq<Byte>)
    ensures Flatten(ts + [t]) == Flatten(ts) + t
  {
    assert (ts + [t])[..|ts|] == ts;
  }

  lemma StepKeepsInv(cap: int, s: Tx, e: Event)
    requires Inv(cap, s) && Enabled(cap, s, e)
    ensures Inv(cap, Step(s, e))
    ensures e.Fetch? ==> e.k <= |s.oq|
  {
    hide Flatten;
    match e {
      case Put(b) => PutKeepsInv(cap, s, b);
      case Fetch(k) => FetchKeepsInv(cap, s, k);
      case InDone => InDoneKeepsInv(cap, s);
      case Configure(value) => ConfigureKeepsInv(cap, s, value);
      case _ =>
    }
  }

  lemma PutKeepsInv(cap: int, s: Tx, b: Byte)
    requires Inv(cap, s) && Enabled(cap, s, Put(b))
    ensures Inv(cap, Step(s, Put(b)))
  {
    hide Flatten;
    assert Flatten(s.done) + s.current + (s.oq + [b]) == Flatten(s.done) + s.current + s.oq + [b];
    assert s.carry + (s.written + [b]) == s.carry + s.written + [b];
  }

  lemma FetchKeepsInv(cap: int, s: Tx, k: int)
    requires Inv(cap, s) && Enabled(cap, s, Fetch(k))
    ensures k <= |s.oq| && Inv(cap, Step(s, Fetch(k)))
  {
    hide Flatten;
    assert s.oq[..k] + s.oq[k..] == s.oq;
    assert Flatten(s.done) + (s.current + s.oq[..k]) + s.oq[k..] == Flatten(s.done) + s.current + s.oq;
  }

  lemma InDoneKeepsInv(cap: int, s: Tx)
    requires Inv(cap, s) && Enabled(cap, s, InDone)
    ensures Inv(cap, Step(s, InDone))
  {
    hide Flatten;
    FlattenAppend(s.done, s.current);
    assert Flatten(s.done) + s.current + [] + s.oq == Flatten(s.done) + s.current + s.oq;
  }

  lemma ConfigureKeepsInv(cap: int, s: Tx, value: Byte)
    requires Inv(cap, s) && Enabled(cap, s, Configure(value))
    ensures Inv(cap, Step(s, Configure(value)))
  {
    var t := Step(s, Configure(value));
    assert [] + t.current + [] == t.carry + [];
  }

  /** Main result: in every interleaving of writer, interrupts, hardware, resets and requests, the bytes on
      the wire followed by those still queued are the bytes written since the last SET_CONFIGURATION,
      behind what a transaction running then had already fetched; a started transaction finds its bytes in
      the queue; and whenever the endpoint of an active device is idle outside the window, everything
      written has been sent and its last packet was short. */
  lemma {:induction false} TransmitSafe(cap: int, max: int, es: seq<Event>, ss: seq<Tx>, i: int)
    requires cap >= 0 && Run(cap, max, es, ss) && 0 <= i < |ss|
    ensures Inv(cap, ss[i])
    ensures Flatten(ss[i].done) + ss[i].current + ss[i].oq == ss[i].carry + ss[i].written
    ensures ss[i].busy ==> ss[i].left <= |ss[i].oq| <= cap
    ensures forall k :: Enabled(cap, ss[i], Fetch(k)) ==> k <= |ss[i].oq|
    ensures ss[i].active && !ss[i].busy && ss[i].window.None? ==> Flushed(ss[i])
    decreases i
  {
    if i > 0 {
      TransmitSafe(cap, max, es, ss, i - 1);
      StepKeepsInv(cap, ss[i - 1], es[i - 1]);
    }
    assert Flatten(ss[i].done) + [] + [] == Flatten(ss[i].done);
  }

  /** Wire and queue are exactly the bytes written since the last SET_CONFIGURATION. */
  ghost predicate Conserved(s: Tx) { Flatten(s.done) + s.current + s.oq == s.written }

  /** Over every run that holds if and only if nothing was carried over. */
  lemma ConservedIff(cap: int, s: Tx)
    requires Inv(cap, s)
    ensures Conserved(s) <==> s.carry == []
  {
    assert Conserved(s) ==> |s.carry| == 0 by {
      assert |Flatten(s.done) + s.current + s.oq| == |s.carry| + |s.written|;
    }
    assert [] + s.written == s.written;
  }

  /** A SET_CONFIGURATION keeps the count of bytes if and only if it finds no transaction running that has
      already fetched some; and only a SET_CONFIGURATION ever decides it. */
  lemma ConservedAfterIff(cap: int, s: Tx, e: Event)
    requires Inv(cap, s) && Enabled(cap, s, e)
    ensures e.Configure? ==> (Conserved(Step(s, e)) <==> !s.busy || s.current == [])
    ensures !e.Configure? ==> (Conserved(Step(s, e)) <==> Conserved(s))
  {
    StepKeepsInv(cap, s, e);
    ConservedIff(cap, s);
    ConservedIff(cap, Step(s, e));
  }

  /* ---------- the same, told from the events ---------- */

  /** The last request or reset made the device active: a SET_CONFIGURATION with a number. */
  function Active(es: seq<Event>): bool
    decreases |es|
  {
    if es == [] then false
    else
      var e := es[|es| - 1];
      if e.Configure? then e.value != 0
      else if e.SetAddress? || e.BusReset? then false
      else Active(es[..|es| - 1])
  }

  /** The bytes written since the last SET_CONFIGURATION. */
  function BytesPut(es: seq<Event>): seq<Byte>
    decreases |es|
  {
    if es == [] then []
    else
      var e := es[|es| - 1];
      if e.Configure? then [] else BytesPut(es[..|es| - 1]) + if e.Put? then [e.b] else []
  }

  /** How many bytes the hardware has fetched since then. */
  function FetchedCount(es: seq<Event>): int
    decreases |es|
  {
    if es == [] then 0
    else
      var e := es[|es| - 1];
      if e.Configure? then 0 else FetchedCount(es[..|es| - 1]) + if e.Fetch? then e.k else 0
  }

  /** In every run the hardware fetches the bytes written in their order, and the device is active if and
      only if that is what it was last told. */
  lemma RunFetches(cap: int, max: int, es: seq<Event>, ss: seq<Tx>, i: int)
    requires cap >= 0 && Run(cap, max, es, ss) && 0 <= i < |ss|
    ensures ss[i].active <==> Active(es[..i])
    ensures 0 <= FetchedCount(es[..i]) <= |BytesPut(es[..i])|
    ensures Flatten(ss[i].done) + ss[i].current == ss[i].carry + BytesPut(es[..i])[..FetchedCount(es[..i])]
    ensures ss[i].oq == BytesPut(es[..i])[FetchedCount(es[..i])..]
  {
    TransmitSafe(cap, max, es, ss, i);
    RunCounts(cap, max, es, ss, i);
    var s, n := ss[i], FetchedCount(es[..i]);
    var wire := Flatten(s.done) + s.current;
    assert wire + s.oq == s.carry + s.written;
    assert wire == (s.carry + s.written)[..|s.carry| + n];
    assert s.oq == (s.carry + s.written)[|s.carry| + n..];
  }

  lemma {:induction false} RunCounts(cap: int, max: int, es: seq<Event>, ss: seq<Tx>, i: int)
    requires cap >= 0 && Run(cap, max, es, ss) && 0 <= i < |ss|
    ensures ss[i].active <==> Active(es[..i])
    ensures ss[i].written == BytesPut(es[..i])
    ensures 0 <= FetchedCount(es[..i]) && |Flatten(ss[i].done) + ss[i].current| == |ss[i].carry| + FetchedCount(es[..i])
    decreases i
  {
    hide Flatten;
    if i > 0 {
      RunCounts(cap, max, es, ss, i - 1);
      TransmitSafe(cap, max, es, ss, i - 1);
      assert es[..i][..i - 1] == es[..i - 1] && es[..i][i - 1] == es[i - 1];
      StepCounts(cap, ss[i - 1], es[i - 1]);
    } else {
      assert Flatten([]) + [] == [] by { NothingFlat(); }
    }
  }

  lemma NothingFlat()
    ensures Flatten([]) == []
  {
  }

  lemma StepCounts(cap: int, s: Tx, e: Event)
    requires Inv(cap, s) && Enabled(cap, s, e)
    ensures var t := Step(s, e);
            && (t.active <==> if e.Configure? then e.value != 0 else !e.SetAddress? && !e.BusReset? && s.active)
            && t.written == (if e.Configure? then [] else s.written + if e.Put? then [e.b] else [])
            && |Flatten(t.done) + t.current| - |t.carry|
               == (if e.Configure? then 0
                   else |Flatten(s.done) + s.current| - |s.carry| + if e.Fetch? then e.k else 0)
  {
    hide Flatten;
    NothingFlat();
    FlattenAppend(s.done, s.current);
    assert s.written + [] == s.written;
  }

  /** A bus reset and a SET_ADDRESS are always possible outside the window, and a reset frees the endpoint. */
  lemma ResetFrees(cap: int, s: Tx)
    requires s.max >= 1 && s.window.None?
    ensures Enabled(cap, s, SetAddress) && Enabled(cap, s, BusReset)
    ensures !Step(s, BusReset).busy && !Step(s, BusReset).active && Step(s, BusReset).window.None?
  {
  }

  /** At power-up nothing is queued, running or counted. */
  lemma PowerUp(max: int)
    ensures var s := Initial(max);
            && s.max == max && !s.active && !s.busy && s.window.None? && s.oq == s.written == []
            && s.done == [] && s.current == s.carry == [] && s.started == s.txsize == s.left == 0
  {
  }

  /** Every transaction that is started is ended by its completion or by a bus reset. */
  lemma StartedOrEnded(cap: int, s: Tx, e: Event)
    requires Inv(cap, s) && Enabled(cap, s, e)
    ensures var t := Step(s, e);
            t.started - s.started
            == (if t.busy then 1 else 0) - (if s.busy then 1 else 0)
               + (if e.InDone? || (e.BusReset? && s.busy) then 1 else 0)
  {
    hide Flatten;
  }

  /** A byte put into the queue of an idle endpoint opens the window if and only if the device is active. */
  lemma PutNotifiesIff(cap: int, s: Tx, b: Byte)
    requires s.max >= 1 && Enabled(cap, s, Put(b))
    ensures Step(s, Put(b)).window == if s.active && !s.busy then Some(|s.oq| + 1) else None
  {
  }

  /** From an idle endpoint in any state: a SET_CONFIGURATION with a number, one byte, and it is on the wire
      as a transaction of its own. */
  lemma ConfiguredByteGoesOut(cap: int, s: Tx, value: Byte, b: Byte)
    requires cap >= 1 && s.max >= 1 && !s.busy && s.window.None? && value != 0
    ensures var s1 := Step(s, Configure(value));
            var s2 := Step(s1, Put(b));
            var s3 := Step(s2, Resume);
            var s4 := Step(s3, Fetch(1));
            && Enabled(cap, s, Configure(value)) && Enabled(cap, s1, Put(b)) && Enabled(cap, s2, Resume)
            && Enabled(cap, s3, Fetch(1)) && Enabled(cap, s4, InDone)
            && Step(s4, InDone).done == [[b]] && Step(s4, InDone).written == [b] && Step(s4, InDone).carry == []
  {
    var s1 := Step(s, Configure(value));
    assert s1.done == [] && s1.current == [] && s1.oq == [] && s1.active;
    var s2 := Step(s1, Put(b));
    assert s2.oq == [b] && s2.window == Some(1);
    var s3 := Step(s2, Resume);
    var s4 := Step(s3, Fetch(1));
    assert s4.oq == [] && s4.current == [b] && s4.left == 0;
  }

  /** While the endpoint is busy nothing is started, whatever is written or configured, until the
      transaction completes or the bus is reset. */
  lemma {:induction false} NothingStartedWhileBusy(cap: int, s: Tx, es: seq<Event>, ss: seq<Tx>, i: int)
    requires Inv(cap, s) && s.busy
    requires Steps(cap, s.max, es, ss) && ss[0] == s && 0 <= i < |ss|
    requires forall k :: 0 <= k < i ==> es[k] != InDone && es[k] != BusReset
    ensures Inv(cap, ss[i]) && ss[i].busy && ss[i].started == s.started
    decreases i
  {
    if i > 0 {
      NothingStartedWhileBusy(cap, s, es, ss, i - 1);
      StepKeepsInv(cap, ss[i - 1], es[i - 1]);
    }
  }

  /** The test at the end of a transaction is exact: the endpoint is left idle if and only if nothing is
      queued and the transaction that ended was not a multiple of the packet size, nor one whose size a
      SET_CONFIGURATION has cleared. */
  lemma IdleAfterCompletionIff(cap: int, s: Tx)
    requires Inv(cap, s) && Enabled(cap, s, InDone)
    ensures !Step(s, InDone).busy <==> s.oq == [] && !Stale(s) && EndsShort(s.max, s.current)
  {
  }

  /** A writer is never stuck: in every run, one that waits for room on an active device waits for a
      transaction that is running. */
  lemma BlockedWriterHasTransaction(cap: int, max: int, es: seq<Event>, ss: seq<Tx>, i: int)
    requires cap > 0 && Run(cap, max, es, ss) && 0 <= i < |ss|
    requires ss[i].active && ss[i].window.None? && !Enabled(cap, ss[i], Put(0))
    ensures ss[i].busy
  {
    TransmitSafe(cap, max, es, ss, i);
  }

  function Complete(s: Tx, k: nat): Tx
    requires s.max >= 1
    decreases k
  {
    if k == 0 then s else Complete(Step(s, InDone), k - 1)
  }

  /** An empty packet has size 0, which is a multiple too: once the queue is empty after a transaction
      of full packets, every completion starts another empty packet, however many there are. */
  lemma {:induction false} EmptyPacketsUntilNextWrite(cap: int, s: Tx, k: nat)
    requires Inv(cap, s) && Enabled(cap, s, InDone) && s.oq == [] && (Stale(s) || !EndsShort(s.max, s.current))
    ensures var s1 := Complete(s, k + 1);
            && s1.busy && s1.txsize == 0 && s1.oq == []
            && s1.done == s.done + [s.current] + seq(k, _ => [])
    decreases k
  {
    var s1 := Step(s, InDone);
    StepKeepsInv(cap, s, InDone);
    if k == 0 {
      assert s1.done + seq(0, _ => []) == s1.done;
    } else {
      EmptyPacketsUntilNextWrite(cap, s1, k - 1);
      assert [[]] + seq(k - 1, _ => []) == seq<seq<Byte>>(k, _ => []);
      assert s1.done + [[]] + seq(k - 1, _ => []) == s1.done + seq(k, _ => []);
    }
  }

  /** No byte waits for more than the running transaction and one more. */
  lemma DrainedInTwoTransactions(cap: int, s: Tx)
    requires Inv(cap, s) && s.busy
    ensures var s1 := if s.left > 0 then Step(s, Fetch(s.left)) else s;
            var s2 := Step(s1, InDone);
            && Enabled(cap, s1, InDone)
            && (if s2.busy && s2.left > 0
                then Enabled(cap, s2, Fetch(s2.left))
                     && Flatten(Step(s2, Fetch(s2.left)).done) + Step(s2, Fetch(s2.left)).current == s.carry + s.written
                else Flatten(s2.done) == s.carry + s.written)
  {
    hide Flatten, Step;
    FetchesAll(cap, s);
    var s1 := if s.left > 0 then Step(s, Fetch(s.left)) else s;
    CompletionQueues(cap, s1);
    var s2 := Step(s1, InDone);
    if s2.busy && s2.left > 0 {
      FetchesAll(cap, s2);
      AllOnTheWire(cap, Step(s2, Fetch(s2.left)));
    } else {
      AllOnTheWire(cap, s2);
      assert Flatten(s2.done) + [] == Flatten(s2.done);
    }
  }

  /** The hardware takes the rest of its transaction from the queue. */
  lemma FetchesAll(cap: int, s: Tx)
    requires Inv(cap, s) && s.busy
    ensures s.left > 0 ==> Enabled(cap, s, Fetch(s.left))
    ensures var s1 := if s.left > 0 then Step(s, Fetch(s.left)) else s;
            Inv(cap, s1) && Enabled(cap, s1, InDone) && s1.carry == s.carry && s1.written == s.written
            && s1.oq == s.oq[s.left..]
  {
    hide Flatten;
    if s.left > 0 {
      StepKeepsInv(cap, s, Fetch(s.left));
    }
  }

  /** The next transaction is of the whole queue. */
  lemma CompletionQueues(cap: int, s: Tx)
    requires Inv(cap, s) && Enabled(cap, s, InDone)
    ensures var s1 := Step(s, InDone);
            && Inv(cap, s1) && s1.current == [] && s1.carry == s.carry && s1.written == s.written
            && (if s1.busy then s1.left == |s1.oq| else s1.oq == [])
  {
    hide Flatten;
    StepKeepsInv(cap, s, InDone);
  }

  lemma AllOnTheWire(cap: int, s: Tx)
    requires Inv(cap, s) && s.oq == []
    ensures Flatten(s.done) + s.current == s.carry + s.written
  {
    assert Flatten(s.done) + s.current + [] == Flatten(s.done) + s.current;
  }

  /** The driver's fields and callbacks. */
  class Transmitter {
    const cap: int
    const max: int
    var active: bool
    var transmitting: bool
    var txsize: int
    var left: int
    var oqueue: seq<Byte>
    var pending: Option<int>
    ghost var written: seq<Byte>
    ghost var done: seq<seq<Byte>>
    ghost var current: seq<Byte>
    ghost var carry: seq<Byte>
    ghost var started: nat

    ghost function Model(): Tx
      reads this
    {
      Tx(max, active, transmitting, txsize, left, oqueue, pending, written, done, current, carry, started)
    }

    constructor (cap: int, max: int)
      ensures this.cap == cap && Model() == Initial(max)
    {
      this.cap := cap;
      this.max := max;
      active, transmitting, txsize, left, oqueue, pending := false, false, 0, 0, [], None;
      written, done, current, carry, started := [], [], [], [], 0;
    }

    method StartTransmit(n: int) returns (busy: bool)
      modifies this`txsize, this`left, this`current, this`transmitting, this`started
      ensures busy <==> old(transmitting)
      ensures Model() == StartTransaction(old(Model()), n)
    {
      txsize := n;
      left := n;
      if transmitting {
        return true;
      }
      current := [];
      transmitting := true;
      started := started + 1;
      return false;
    }

    /** `chOQPutTimeout` with room in the queue, up to the unlock inside `onotify`. */
    method Put(b: Byte)
      requires Inv(cap, Model()) && Enabled(cap, Model(), Event.Put(b))
      modifies this
      ensures Model() == Step(old(Model()), Event.Put(b)) && Inv(cap, Model())
    {
      StepKeepsInv(cap, Model(), Event.Put(b));
      oqueue := oqueue + [b];
      written := written + [b];
      if !active {
        return;
      }
      if !transmitting && |oqueue| > 0 {
        pending := Some(|oqueue|);
      }
    }

    /** The rest of `onotify`. */
    method FinishNotify()
      requires Inv(cap, Model()) && Enabled(cap, Model(), Resume)
      modifies this
      ensures Model() == Step(old(Model()), Resume) && Inv(cap, Model())
      ensures transmitting && left == |oqueue|
    {
      StepKeepsInv(cap, Model(), Resume);
      var n := pending.value;
      pending := None;
      var _ := StartTransmit(n);
    }

    /** `sduDataTransmitted`, called with the busy bit already cleared. */
    method DataTransmittedCallback()
      requires Inv(cap, Model()) && Enabled(cap, Model(), InDone)
      modifies this
      ensures Model() == Step(old(Model()), InDone) && Inv(cap, Model())
      ensures transmitting || Flushed(Model())
    {
      hide Flatten;
      StepKeepsInv(cap, Model(), InDone);
      transmitting := false;
      done, current := done + [current], [];
      var n := |oqueue|;
      if n > 0 {
        var _ := StartTransmit(n);
      } else if txsize % max == 0 {
        var _ := StartTransmit(0);
      }
      assert Flatten(done) + [] + [] == Flatten(done);
    }

    /** The transmit part of a SET_CONFIGURATION: `usbInitEndpointI` clears the endpoint's counters and
        `sduConfigureHookI` the queue. */
    method ConfigureHook(value: Byte)
      requires Inv(cap, Model()) && Enabled(cap, Model(), Configure(value))
      modifies this
      ensures Model() == Step(old(Model()), Configure(value)) && Inv(cap, Model())
      ensures transmitting == old(transmitting)
    {
      StepKeepsInv(cap, Model(), Configure(value));
      active := value != 0;
      txsize, left := 0, 0;
      oqueue := [];
      if !transmitting {
        current := [];
      }
      written, done, carry := [], [], current;
    }
  }
}
