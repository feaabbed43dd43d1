/** The motor service: `serv_motor.c`, commanded from `main.c`.

    One command thread runs the timed commands; the system tick interrupt runs the virtual timers.
    A channel write of the thread is a step of its own, so every state between two of them is a state of a
    run. The tick is one step; between its two writes to a side that side is `Falling`. The tick cannot
    interrupt the thread between `chSysLock` and `chSysUnlock`. */
module Motor {
  import opened Wrappers

  datatype Direction = Forward | Backward
  datatype SideName = Left | Right

  const PERIOD: int := 20

  /** `PWM_PERCENTAGE_TO_WIDTH`. */
  function Width(percentage: int): int { (PERIOD * percentage) / 10000 }

  /** One side: its two channel widths, its semaphore and its timer. `deadline` is the tick at which the
      last armed timer is due. */
  datatype Side = Side(p1: int, p2: int, free: bool, timer: Option<int>, deadline: int)

  /** Where the command thread stands inside `motor_x_on` and the `chVTSet` that follows it:
      0 at the semaphore, 1 holding it, 2 and 3 before the two writes with the kernel locked, 4 before
      the unlock, 5 before `chVTSet`. `both` says that the right side's turn comes after the left's. */
  datatype Thread =
    | Idle
    | Driving(side: SideName, dir: Direction, ticks: int, at: int, blocked: bool, both: bool)

  datatype State = State(left: Side, right: Side, thread: Thread, speed: int, now: int)

  datatype Command = GoForward | GoBackward | TurnLeft | TurnRight

  datatype Event =
    | Issue(cmd: Command, ticks: int)
    | Exec
    | Tick
    | SetSpeed(s: int)

  /* ---------- one side ---------- */

  predicate Off(s: Side) { s.p1 == 0 && s.p2 == 0 }

  predicate On(s: Side) { (s.p1 > 0 && s.p2 == 0) || (s.p1 == 0 && s.p2 > 0) }

  function WriteFirst(s: Side, dir: Direction, speed: int): Side {
    s.(p1 := if dir == Forward then Width(0) else Width(speed))
  }

  function WriteSecond(s: Side, dir: Direction, speed: int): Side {
    s.(p2 := if dir == Forward then Width(speed) else Width(0))
  }

  function Arm(s: Side, ticks: int, now: int): Side { s.(timer := Some(ticks), deadline := now + ticks) }

  /** Between the two writes of the timer callback `motor_x_off`. */
  function Falling(s: Side): Side { s.(p1 := Width(0)) }

  /** After the callback: a waiting thread is handed the semaphore. */
  function SwitchOff(s: Side, waiter: bool): Side { Falling(s).(p2 := Width(0), free := !waiter) }

  function TickSide(s: Side, waiter: bool): Side {
    match s.timer
    case None => s
    case Some(r) => if r > 1 then s.(timer := Some(r - 1)) else SwitchOff(s.(timer := None), waiter)
  }

  predicate Due(s: Side) { s.timer.Some? && s.timer.value <= 1 }

  /* ---------- the system ---------- */

  function Get(st: State, n: SideName): Side { if n == Left then st.left else st.right }

  function Put(st: State, n: SideName, s: Side): State {
    if n == Left then st.(left := s) else st.(right := s)
  }

  predicate BlockedOn(st: State, n: SideName) {
    st.thread.Driving? && st.thread.side == n && st.thread.blocked
  }

  predicate Locked(st: State) { st.thread.Driving? && 2 <= st.thread.at <= 4 }

  /** `motorActive`. */
  predicate MotorActive(st: State) { !st.left.free && !st.right.free }

  function Program(cmd: Command, ticks: int): Thread {
    match cmd
    case GoForward => Driving(Left, Forward, ticks, 0, false, true)
    case GoBackward => Driving(Left, Backward, ticks, 0, false, true)
    case TurnLeft => Driving(Left, Forward, ticks, 0, false, false)
    case TurnRight => Driving(Right, Forward, ticks, 0, false, false)
  }

  /** `chVTSet` is given a positive time; the thread takes a command when it is idle. */
  predicate Enabled(st: State, e: Event) {
    match e
    case Issue(_, ticks) => st.thread.Idle? && ticks >= 1
    case Exec => st.thread.Driving? && !st.thread.blocked
    case Tick => !Locked(st)
    case SetSpeed(_) => !Locked(st)
  }

  function ExecStep(st: State): State
    requires st.thread.Driving?
  {
    var t := st.thread;
    var s := Get(st, t.side);
    match t.at
    case 0 => if s.free then Put(st, t.side, s.(free := false)).(thread := t.(at := 1))
              else st.(thread := t.(blocked := true))
    case 1 => st.(thread := t.(at := 2))
    case 2 => Put(st, t.side, WriteFirst(s, t.dir, st.speed)).(thread := t.(at := 3))
    case 3 => Put(st, t.side, WriteSecond(s, t.dir, st.speed)).(thread := t.(at := 4))
    case 4 => st.(thread := t.(at := 5))
    case _ => Put(st, t.side, Arm(s, t.ticks, st.now)).(
                thread := if t.both && t.side == Left then t.(side := Right, at := 0) else Idle)
  }

  function TickStep(st: State): State {
    var woken := (BlockedOn(st, Left) && Due(st.left)) || (BlockedOn(st, Right) && Due(st.right));
    State(TickSide(st.left, BlockedOn(st, Left)), TickSide(st.right, BlockedOn(st, Right)),
          if woken && st.thread.Driving? then st.thread.(blocked := false, at := 1) else st.thread,
          st.speed, st.now + 1)
  }

  function Step(st: State, e: Event): State
    requires Enabled(st, e)
  {
    match e
    case Issue(cmd, ticks) => if MotorActive(st) then st else st.(thread := Program(cmd, ticks))
    case Exec => ExecStep(st)
    case Tick => TickStep(st)
    case SetSpeed(s) => if 25 <= s <= 100 then st.(speed := 100 * s) else st
  }

  /* ---------- the protocol callback of main.c ---------- */

  /** `CH_FREQUENCY`. */
  const TICKS_PER_SECOND := 1000

  /** `MS2ST(sec * 1000)`, cast to the 32 unsigned bits of `systime_t`. */
  function TicksFor(sec: int): int { ((sec * 1000 - 1) * TICKS_PER_SECOND / 1000 + 1) % 0x1_0000_0000 }

  function Commanded(id: string): Option<Command> {
    if id == "forward" then Some(GoForward)
    else if id == "backward" then Some(GoBackward)
    else if id == "turnLeft" then Some(TurnLeft)
    else if id == "turnRight" then Some(TurnRight)
    else None
  }

  /** The motor commands of `callback`; true is M_OK. */
  function Callback(st: State, id: string, sec: int): (r: (State, bool))
    requires st.thread.Idle?
  {
    if Commanded(id).None? || sec == 0 || MotorActive(st) then (st, false)
    else (st.(thread := Program(Commanded(id).value, TicksFor(sec))), true)
  }

  /** Commands reach the motors only as the timed commands of the runs below: one is admitted if and
      only if it is known, its time is not zero and at least one side is free. A negative time is admitted
      too: the ticks are `sec` seconds if and only if the time is positive, and else 2^32 ticks less, about
      49 days. */
  lemma CallbackIssuesTimedCommands(st: State, id: string, sec: int)
    requires st.thread.Idle? && -2147 <= sec <= 2147
    ensures var (st1, ok) := Callback(st, id, sec);
            && (ok <==> Commanded(id).Some? && sec != 0 && (st.left.free || st.right.free))
            && (ok ==> Enabled(st, Issue(Commanded(id).value, TicksFor(sec)))
                       && st1 == Step(st, Issue(Commanded(id).value, TicksFor(sec)))
                       && st1.thread.ticks == (if sec > 0 then 1000 * sec else 0x1_0000_0000 - 1000 * -sec)
                       && (st1.thread.ticks == 1000 * sec <==> sec > 0))
            && (!ok ==> st1 == st)
  {
    assert (sec * 1000 - 1) * TICKS_PER_SECOND / 1000 + 1 == sec * 1000;
    if sec < 0 {
      assert (sec * 1000) % 0x1_0000_0000 == sec * 1000 + 0x1_0000_0000;
    }
  }

  /** After `motorInit`. */
  function Initial(): State {
    State(Side(0, 0, true, None, 0), Side(0, 0, true, None, 0), Idle, 6250, 0)
  }

  /* ---------- invariant ---------- */

  /** The thread is past the semaphore of this side and has not armed its timer. */
  predicate Holds(st: State, n: SideName) { st.thread.Driving? && st.thread.side == n && st.thread.at >= 1 }

  predicate SideInv(st: State, n: SideName) {
    var s, t := Get(st, n), st.thread;
    && (s.free ==> Off(s) && s.timer.None? && !Holds(st, n))
    && (s.timer.Some? ==> !s.free && On(s) && !Holds(st, n) && s.timer.value >= 1
                          && st.now + s.timer.value == s.deadline)
    && (!s.free && s.timer.None? ==> Holds(st, n))
    && (Holds(st, n) ==> !s.free && s.timer.None?)
    && (Holds(st, n) && t.at <= 2 ==> Off(s))
    && (Holds(st, n) && t.at == 3 ==> s.p2 == 0 && (if t.dir == Forward then s.p1 == 0 else s.p1 > 0))
    && (Holds(st, n) && t.at >= 4 ==> On(s))
  }

  predicate ThreadInv(st: State) {
    && 2500 <= st.speed <= 10000
    && (st.thread.Driving? ==> 0 <= st.thread.at <= 5 && st.thread.ticks >= 1
                               && (st.thread.blocked ==> st.thread.at == 0 && !Get(st, st.thread.side).free))
  }

  predicate Inv(st: State) { SideInv(st, Left) && SideInv(st, Right) && ThreadInv(st) }

  lemma StepKeepsInv(st: State, e: Event)
    requires Inv(st) && Enabled(st, e)
    ensures Inv(Step(st, e))
  {
    hide SideInv, ThreadInv;
    StepKeepsSide(st, e, Left);
    StepKeepsSide(st, e, Right);
    StepKeepsThread(st, e);
  }

  lemma StepKeepsSide(st: State, e: Event, n: SideName)
    requires Inv(st) && Enabled(st, e)
    ensures SideInv(Step(st, e), n)
  {
    match e {
      case Exec => ExecKeepsSide(st, n);
      case Tick => TickKeepsSide(st, n);
      case _ =>
    }
  }

  lemma StepKeepsThread(st: State, e: Event)
    requires Inv(st) && Enabled(st, e)
    ensures ThreadInv(Step(st, e))
  {
  }

  lemma ExecKeepsSide(st: State, n: SideName)
    requires SideInv(st, n) && ThreadInv(st) && Enabled(st, Exec)
    ensures SideInv(ExecStep(st), n)
  {
    var s, t := Get(ExecStep(st), n), st.thread;
    if t.side != n {
      assert s == Get(st, n);
    } else {
      assert Width(st.speed) >= 1;
      assert t.at == 3 ==> On(s);
    }
  }

  lemma TickKeepsSide(st: State, n: SideName)
    requires SideInv(st, n) && ThreadInv(st) && Enabled(st, Tick)
    ensures SideInv(TickStep(st), n)
  {
  }

  ghost predicate Run(es: seq<Event>, ss: seq<State>) {
    && |ss| == |es| + 1 && ss[0] == Initial()
    && forall i :: 0 <= i < |es| ==> Enabled(ss[i], es[i]) && ss[i + 1] == Step(ss[i], es[i])
  }

  lemma {:induction false} RunInv(es: seq<Event>, ss: seq<State>, i: int)
    requires Run(es, ss) && 0 <= i < |ss|
    ensures Inv(ss[i])
    decreases i
  {
    if i > 0 {
      RunInv(es, ss, i - 1);
      StepKeepsInv(ss[i - 1], es[i - 1]);
    }
  }

  /** Main result: in every interleaving of commands, ticks and speed changes, in every state between
      two channel writes, those of the timer interrupt included, the two channels of a side are never both
      driven, and none is driven that was not before the interrupt; a free semaphore means that
      the side is off and its timer disarmed, an armed timer that the semaphore is taken; and `chVTSet`
      is only ever applied to a disarmed timer. */
  lemma MotorSafe(es: seq<Event>, ss: seq<State>, i: int, n: SideName)
    requires Run(es, ss) && 0 <= i < |ss|
    ensures var st := ss[i]; var s := Get(st, n);
            && (s.p1 == 0 || s.p2 == 0)
            && (Due(s) && Enabled(st, Tick) ==> Falling(s).p1 == 0 && Falling(s).p2 == s.p2
                                                && Off(Get(Step(st, Tick), n)))
            && (s.free ==> Off(s) && s.timer.None?)
            && (s.timer.Some? ==> !s.free)
            && (st.thread.Driving? && st.thread.side == n && st.thread.at == 5 ==> s.timer.None?)
  {
    RunInv(es, ss, i);
  }

  /** Only the tick touches an armed side, and it counts the timer down by one or switches the side off. */
  lemma ArmedStep(st: State, e: Event, n: SideName)
    requires Inv(st) && Enabled(st, e) && Get(st, n).timer.Some?
    ensures var s, s1 := Get(st, n), Get(Step(st, e), n);
            if !e.Tick? then s1 == s && Step(st, e).now == st.now
            else Step(st, e).now == st.now + 1
                 && (if s.timer.value > 1 then s1 == s.(timer := Some(s.timer.value - 1))
                     else Off(s1) && s1.timer.None?)
  {
  }

  /** A side stays on for exactly the ticks armed: from the arming step on, in every state before the
      deadline the side is on and its timer holds the ticks that remain; in the state in which the clock
      reaches the deadline it is off. */
  lemma {:induction false} OnForExactlyTheTicksArmed(es: seq<Event>, ss: seq<State>, i: int, j: int, n: SideName)
    requires Run(es, ss) && 0 <= i < j < |ss|
    requires es[i] == Exec && ss[i].thread.Driving? && ss[i].thread.side == n && ss[i].thread.at == 5
    ensures var off := ss[i].now + ss[i].thread.ticks;
            && (ss[j].now < off ==> On(Get(ss[j], n)) && Get(ss[j], n).timer == Some(off - ss[j].now)
                                    && Get(ss[j], n).deadline == off)
            && (ss[j].now == off && es[j - 1] == Tick ==> Off(Get(ss[j], n)) && Get(ss[j], n).timer.None?)
    decreases j
  {
    RunInv(es, ss, j - 1);
    RunInv(es, ss, j);
    if j > i + 1 {
      hide Inv, Step;
      OnForExactlyTheTicksArmed(es, ss, i, j - 1, n);
      if Get(ss[j - 1], n).timer.Some? {
        ArmedStep(ss[j - 1], es[j - 1], n);
      }
      ClockAdvances(ss[j - 1], es[j - 1]);
    } else {
      ArmingStep(ss[i], n);
    }
    OnWhileArmed(ss[j], n);
  }

  lemma ClockAdvances(st: State, e: Event)
    requires Enabled(st, e)
    ensures Step(st, e).now == st.now + (if e == Tick then 1 else 0)
  {
  }

  lemma ArmingStep(st: State, n: SideName)
    requires Inv(st) && Enabled(st, Exec) && st.thread.side == n && st.thread.at == 5
    ensures var s := Get(Step(st, Exec), n);
            s.timer == Some(st.thread.ticks) && s.deadline == st.now + st.thread.ticks && st.thread.ticks >= 1
  {
  }

  lemma OnWhileArmed(st: State, n: SideName)
    requires Inv(st)
    ensures Get(st, n).timer.Some? ==> On(Get(st, n))
  {
  }

  /** A blocked thread waits for an armed timer, and not beyond its deadline. */
  lemma BlockedUntilDeadline(es: seq<Event>, ss: seq<State>, i: int)
    requires Run(es, ss) && 0 <= i < |ss| && ss[i].thread.Driving? && ss[i].thread.blocked
    ensures var s := Get(ss[i], ss[i].thread.side);
            s.timer.Some? && ss[i].now < s.deadline && s.timer.value == s.deadline - ss[i].now
  {
    RunInv(es, ss, i);
  }

  function Ticks(st: State, k: nat): State
    decreases k
  {
    if k == 0 then st else TickStep(Ticks(st, k - 1))
  }

  /** Progress: the ticks that remain are a decreasing measure, and when they have passed the thread is
      past the semaphore, whatever else was armed. */
  lemma {:induction false} UnblockedByItsTimer(st: State, k: nat)
    requires Inv(st) && st.thread.Driving? && st.thread.blocked
    requires k <= Get(st, st.thread.side).timer.value
    ensures var st1, t, r := Ticks(st, k), st.thread, Get(st, st.thread.side).timer.value;
            && Inv(st1)
            && (if k < r then st1.thread == t && Get(st1, t.side).timer == Some(r - k)
                else st1.thread == t.(blocked := false, at := 1) && Off(Get(st1, t.side)) && !Get(st1, t.side).free)
  {
    if k > 0 {
      UnblockedByItsTimer(st, k - 1);
      var st0 := Ticks(st, k - 1);
      StepKeepsInv(st0, Tick);
    }
  }

  /** No run deadlocks: the thread is idle, or can take its next step, or waits for an armed timer that
      the tick can serve. */
  lemma NoDeadlock(es: seq<Event>, ss: seq<State>, i: int)
    requires Run(es, ss) && 0 <= i < |ss|
    ensures var st := ss[i];
            st.thread.Idle? || Enabled(st, Exec) || (Enabled(st, Tick) && Get(st, st.thread.side).timer.Some?)
  {
    RunInv(es, ss, i);
  }

  /* ---------- the driver object ---------- */

  /** One side's hardware and kernel objects, and the locked sections of `serv_motor.c` that act on them. */
  class MotorSide {
    var p1: int
    var p2: int
    var semFree: bool
    var timer: Option<int>
    ghost var deadline: int

    ghost function Model(): Side
      reads this
    {
      Side(p1, p2, semFree, timer, deadline)
    }

    /** One side's part of `motorInit`. */
    constructor ()
      ensures Model() == Side(0, 0, true, None, 0)
    {
      p1, p2 := Width(0), Width(0);
      semFree, timer, deadline := true, None, 0;
    }

    /** `chBSemWait` without the sleep: false means that the thread has to wait. */
    method TryWait() returns (taken: bool)
      modifies this`semFree
      ensures taken == old(semFree)
      ensures Model() == old(Model()).(free := false)
    {
      taken := semFree;
      semFree := false;
    }

    /** The locked section of `motor_left_on` and `motor_right_on`. */
    method SwitchOn(dir: Direction, speed: int)
      requires Off(Model()) && 2500 <= speed <= 10000
      modifies this`p1, this`p2
      ensures Model() == WriteSecond(WriteFirst(old(Model()), dir, speed), dir, speed)
      ensures On(Model())
    {
      assert Width(speed) >= 1;
      if dir == Forward {
        p1 := Width(0);
        assert p1 == 0 || p2 == 0;
        p2 := Width(speed);
      } else {
        p1 := Width(speed);
        assert p1 == 0 || p2 == 0;
        p2 := Width(0);
      }
    }

    /** `chVTSet`, whose timer must not be armed. */
    method SetTimer(ticks: int, ghost now: int)
      requires timer.None? && ticks >= 1
      modifies this`timer, this`deadline
      ensures Model() == Arm(old(Model()), ticks, now)
    {
      timer := Some(ticks);
      deadline := now + ticks;
    }

    /** `motor_left_off` and `motor_right_off`. */
    method TimerCallback(waiter: bool)
      modifies this`p1, this`p2, this`semFree
      ensures Model() == SwitchOff(old(Model()), waiter) && Off(Model())
    {
      p1 := Width(0);
      assert Model() == Falling(old(Model()));
      p2 := Width(0);
      semFree := !waiter;
    }

    /** One system tick: a timer that runs out is disarmed before its callback runs. */
    method SystemTick(waiter: bool)
      requires timer.Some? ==> timer.value >= 1
      modifies this
      ensures Model() == TickSide(old(Model()), waiter)
    {
      if timer.Some? {
        timer := Some(timer.value - 1);
        if timer.value == 0 {
          timer := None;
          TimerCallback(waiter);
        }
      }
    }
  }

  /** The command thread's view: the motor branches of `callback` in `main.c`. */
  class Commander {
    var st: State

    constructor ()
      ensures st == Initial()
    {
      st := Initial();
    }

    method Admit(cmd: Command, sec: int) returns (ok: bool)
      requires st.thread.Idle?
      modifies this
      ensures ok <==> sec != 0 && !MotorActive(old(st))
      ensures st == if ok then old(st).(thread := Program(cmd, TicksFor(sec))) else old(st)
    {
      if sec == 0 || MotorActive(st) {
        return false;
      }
      st := st.(thread := Program(cmd, TicksFor(sec)));
      return true;
    }

    method OnMessage(id: string, sec: int) returns (ok: bool)
      requires st.thread.Idle?
      modifies this
      ensures (st, ok) == Callback(old(st), id, sec)
    {
      if id == "forward" {
        ok := Admit(GoForward, sec);
      } else if id == "backward" {
        ok := Admit(GoBackward, sec);
      } else if id == "turnLeft" {
        ok := Admit(TurnLeft, sec);
      } else if id == "turnRight" {
        ok := Admit(TurnRight, sec);
      } else {
        ok := false;
      }
    }
  }
}
