/** What `motorLeftOff` and `motorRightOff` do to the runs of the motor service.

    They lower the channels and signal the semaphore, but leave the timer armed. `OffSafeIff` says for
    which states that is harmless. Otherwise the old timer fires while a later command holds the semaphore,
    frees it, and one more command drives the second channel of the side. */
module MotorOff {
  import opened Motor
  import opened Wrappers

  function Other(n: SideName): SideName { if n == Left then Right else Left }

  /** `motorLeftOff` or `motorRightOff`. */
  function TurnOff(st: State, n: SideName): State {
    if BlockedOn(st, n)
    then Put(st, n, SwitchOff(Get(st, n), true)).(thread := st.thread.(blocked := false, at := 1))
    else Put(st, n, SwitchOff(Get(st, n), false))
  }

  /** Every event is enabled when its turn comes. */
  predicate Possible(st: State, es: seq<Event>)
    decreases |es|
  {
    es == [] || (Enabled(st, es[0]) && Possible(Step(st, es[0]), es[1..]))
  }

  function After(st: State, es: seq<Event>): State
    requires Possible(st, es)
    decreases |es|
  {
    if es == [] then st else After(Step(st, es[0]), es[1..])
  }

  predicate BothDriven(st: State, n: SideName) { Get(st, n).p1 > 0 && Get(st, n).p2 > 0 }

  /** No continuation drives both channels of a side. */
  ghost predicate Safe(st: State) {
    forall es, n :: Possible(st, es) ==> !BothDriven(After(st, es), n)
  }

  lemma StepUnsafe(st: State, e: Event)
    requires Enabled(st, e) && !Safe(Step(st, e))
    ensures !Safe(st)
  {
    var es, n :| Possible(Step(st, e), es) && BothDriven(After(Step(st, e), es), n);
    assert ([e] + es)[1..] == es;
    assert Possible(st, [e] + es) && BothDriven(After(st, [e] + es), n);
  }

  /* ---------- the thread by itself ---------- */

  /** Past both writes and the unlock, before `chVTSet`. */
  function Driven(st: State): State
    requires st.thread.Driving?
  {
    var t := st.thread;
    Put(st, t.side, WriteSecond(WriteFirst(Get(st, t.side), t.dir, st.speed), t.dir, st.speed)).(thread := t.(at := 5))
  }

  lemma DrivesUnsafe(st: State)
    requires st.thread.Driving? && !st.thread.blocked && st.thread.at == 1
    requires !Safe(Driven(st))
    ensures !Safe(st)
  {
    var s2 := ExecStep(st);
    var s3 := ExecStep(s2);
    var s4 := ExecStep(s3);
    assert ExecStep(s4) == Driven(st);
    StepUnsafe(s4, Exec);
    StepUnsafe(s3, Exec);
    StepUnsafe(s2, Exec);
    StepUnsafe(st, Exec);
  }

  /** From a free semaphore to the timer of the side. */
  function Done(st: State): State
    requires st.thread.Driving?
  {
    ExecStep(Driven(Put(st, st.thread.side, Get(st, st.thread.side).(free := false))))
  }

  lemma DoneUnsafe(st: State)
    requires st.thread.Driving? && !st.thread.blocked && st.thread.at == 0 && Get(st, st.thread.side).free
    requires !Safe(Done(st))
    ensures !Safe(st)
  {
    var s1 := ExecStep(st);
    assert ExecStep(Driven(s1)) == Done(st);
    StepUnsafe(Driven(s1), Exec);
    DrivesUnsafe(s1);
    StepUnsafe(st, Exec);
  }

  /* ---------- from a stale timer to both channels ---------- */

  predicate Sound(st: State) {
    && 2500 <= st.speed <= 10000
    && (st.left.timer.Some? ==> st.left.timer.value >= 1)
    && (st.right.timer.Some? ==> st.right.timer.value >= 1)
    && (st.thread.Driving? ==> st.thread.ticks >= 1)
  }

  /** The semaphore of the side is free, or its timer will free it. */
  predicate Freeable(s: Side) { s.timer.Some? || s.free }

  function TicksLeft(st: State): nat
    requires Sound(st)
  {
    (if st.left.timer.Some? then st.left.timer.value else 0) + (if st.right.timer.Some? then st.right.timer.value else 0)
  }

  /** The semaphore is free although the second channel is driven: going backward drives the first. */
  lemma DrivenButFree(st: State, n: SideName)
    requires Sound(st) && st.thread.Idle? && Get(st, n).free && Get(st, n).p2 > 0 && Get(st, Other(n)).free
    ensures !Safe(st)
  {
    assert Width(st.speed) >= 1;
    var go := Step(st, Issue(GoBackward, 1));
    if n == Left {
      BackwardUnsafe(go);
    } else {
      assert Done(go).thread == Driving(Right, Backward, 1, 0, false, true);
      BackwardUnsafe(Done(go));
      DoneUnsafe(go);
    }
    StepUnsafe(st, Issue(GoBackward, 1));
  }

  lemma BackwardUnsafe(st: State)
    requires Sound(st) && st.thread.Driving? && st.thread.dir == Backward && st.thread.at == 0 && !st.thread.blocked
    requires Get(st, st.thread.side).free && Get(st, st.thread.side).p2 > 0
    ensures !Safe(st)
  {
    var s1 := ExecStep(st);
    var s2 := ExecStep(s1);
    var s3 := ExecStep(s2);
    assert Width(st.speed) >= 1;
    assert Possible(s3, []) && BothDriven(After(s3, []), st.thread.side);
    StepUnsafe(s2, Exec);
    StepUnsafe(s1, Exec);
    StepUnsafe(st, Exec);
  }

  /** The thread holds a semaphore that the stale timer frees, or has freed, under it. */
  lemma {:induction false} HoldsNothing(st: State, n: SideName)
    requires Sound(st) && Freeable(st.left) && Freeable(st.right)
    requires st.thread.Driving? && st.thread == Driving(n, Forward, st.thread.ticks, 1, false, false)
    ensures !Safe(st)
    decreases TicksLeft(st)
  {
    if st.left.timer.Some? || st.right.timer.Some? {
      HoldsNothing(TickStep(st), n);
      StepUnsafe(st, Tick);
    } else {
      assert Width(st.speed) >= 1;
      var s5 := Driven(st);
      DrivenButFree(ExecStep(s5), n);
      StepUnsafe(s5, Exec);
      DrivesUnsafe(st);
    }
  }

  /** The thread is idle, the side is free and its timer is armed all the same. */
  lemma StaleIdle(st: State, n: SideName)
    requires Sound(st) && st.thread.Idle? && Freeable(Get(st, Other(n)))
    requires Get(st, n).free && Get(st, n).timer.Some?
    ensures !Safe(st)
  {
    var turn := Issue(if n == Left then TurnLeft else TurnRight, 1);
    var s0 := Step(st, turn);
    HoldsNothing(ExecStep(s0), n);
    StepUnsafe(s0, Exec);
    StepUnsafe(st, turn);
  }

  /** The thread is about to arm the timer of a side whose semaphore is free. */
  lemma {:induction false} ArmsFree(st: State, n: SideName)
    requires Sound(st) && st.thread.Driving? && st.thread.side == n && st.thread.at == 5 && !st.thread.blocked
    requires Get(st, n).free && Get(st, n).timer.None? && Freeable(Get(st, Other(n)))
    ensures !Safe(st)
    decreases TicksLeft(st)
  {
    if Get(st, Other(n)).timer.Some? {
      ArmsFree(TickStep(st), n);
      StepUnsafe(st, Tick);
    } else {
      var s := ExecStep(st);
      if s.thread.Idle? {
        StaleIdle(s, n);
      } else {
        StaleIdle(Done(s), n);
        DoneUnsafe(s);
      }
      StepUnsafe(st, Exec);
    }
  }

  lemma {:induction false} HoldsFree(st: State, n: SideName)
    requires Sound(st) && st.thread.Driving? && st.thread.side == n && st.thread.at == 1 && !st.thread.blocked
    requires Freeable(st.left) && Freeable(st.right)
    ensures !Safe(st)
    decreases TicksLeft(st)
  {
    if Get(st, n).timer.Some? {
      HoldsFree(TickStep(st), n);
      StepUnsafe(st, Tick);
    } else {
      ArmsFree(Driven(st), n);
      DrivesUnsafe(st);
    }
  }

  lemma StaleTaken(st: State, n: SideName)
    requires Sound(st) && st.thread.Driving? && st.thread.side == n && st.thread.at == 0 && !st.thread.blocked
    requires Get(st, n).free && Get(st, n).timer.Some? && Freeable(Get(st, Other(n)))
    ensures !Safe(st)
  {
    HoldsFree(ExecStep(st), n);
    StepUnsafe(st, Exec);
  }

  /** The thread is busy with the other side, and gets past it before the stale timer fires. */
  lemma StaleWhileArming(st: State, n: SideName)
    requires Sound(st) && st.thread.Driving? && st.thread.side == Other(n) && st.thread.at == 5 && !st.thread.blocked
    requires Get(st, n).free && Get(st, n).timer.Some?
    ensures !Safe(st)
  {
    var s := ExecStep(st);
    if s.thread.Idle? {
      StaleIdle(s, n);
    } else if n == Right {
      StaleTaken(s, n);
    } else {
      assert false;
    }
    StepUnsafe(st, Exec);
  }

  lemma StaleWhileDriving(st: State, n: SideName)
    requires Sound(st) && st.thread.Driving? && st.thread.side == Other(n) && st.thread.at == 1 && !st.thread.blocked
    requires Get(st, n).free && Get(st, n).timer.Some?
    ensures !Safe(st)
  {
    StaleWhileArming(Driven(st), n);
    DrivesUnsafe(st);
  }

  lemma {:induction false} StaleWhileWaiting(st: State, n: SideName)
    requires Sound(st) && st.thread.Driving? && st.thread.side == Other(n) && st.thread.at == 0
    requires Get(st, n).free && Get(st, n).timer.Some? && Get(st, Other(n)).timer.Some? && !Get(st, Other(n)).free
    requires Get(st, n).timer.value > Get(st, Other(n)).timer.value
    ensures !Safe(st)
    decreases TicksLeft(st), !st.thread.blocked
  {
    if !st.thread.blocked {
      StaleWhileWaiting(ExecStep(st), n);
      StepUnsafe(st, Exec);
    } else {
      var s := TickStep(st);
      if Get(st, Other(n)).timer.value > 1 {
        StaleWhileWaiting(s, n);
      } else {
        StaleWhileDriving(s, n);
      }
      StepUnsafe(st, Tick);
    }
  }

  /* ---------- the exact condition ---------- */

  /** The thread has to wait for the other side until this side's timer has run out. */
  predicate WaitsItOut(st: State, n: SideName) {
    && st.thread.Driving? && st.thread.side == Other(n) && st.thread.at == 0
    && Get(st, n).timer.Some? && Get(st, Other(n)).timer.Some? && !Get(st, Other(n)).free
    && Get(st, n).timer.value <= Get(st, Other(n)).timer.value
  }

  /** Turned off in such a state, until the old timer fires. */
  predicate Harmless(st: State, n: SideName) {
    && Inv(Put(st, n, Get(st, n).(timer := None)))
    && Off(Get(st, n)) && Get(st, n).free
    && WaitsItOut(st, n) && Get(st, n).timer.value >= 1
  }

  lemma StepKeepsHarmless(st: State, e: Event, n: SideName)
    requires Harmless(st, n) && Enabled(st, e)
    ensures Harmless(Step(st, e), n) || Inv(Step(st, e))
  {
  }

  lemma InvNotBoth(st: State, n: SideName)
    requires Inv(st) || Harmless(st, Left) || Harmless(st, Right)
    ensures !BothDriven(st, n)
  {
  }

  lemma {:induction false} StaysSafe(st: State, es: seq<Event>, n: SideName, k: SideName)
    requires (Inv(st) || Harmless(st, n)) && Possible(st, es)
    ensures !BothDriven(After(st, es), k)
    decreases |es|
  {
    if es == [] {
      InvNotBoth(st, k);
    } else {
      if Inv(st) {
        StepKeepsInv(st, es[0]);
      } else {
        StepKeepsHarmless(st, es[0], n);
      }
      StaysSafe(Step(st, es[0]), es[1..], n, k);
    }
  }

  lemma OffUnsafe(st: State, n: SideName)
    requires Inv(st) && !Locked(st) && !Get(st, n).free && !WaitsItOut(st, n)
    ensures !Safe(TurnOff(st, n))
  {
    var st1, t := TurnOff(st, n), st.thread;
    if t.Idle? {
      StaleIdle(st1, n);
    } else if t.side == n {
      if t.at == 5 {
        ArmsFree(st1, n);
      } else if t.at == 1 || t.blocked {
        HoldsFree(st1, n);
      } else {
        StaleTaken(st1, n);
      }
    } else if t.at == 5 {
      StaleWhileArming(st1, n);
    } else if t.at == 1 {
      StaleWhileDriving(st1, n);
    } else if Get(st, t.side).free {
      StaleWhileDriving(ExecStep(st1), n);
      StepUnsafe(st1, Exec);
    } else {
      StaleWhileWaiting(st1, n);
    }
  }

  /** Main result: in every state that the invariant allows, wherever the command thread stands outside its
      locked sections, turning a side off keeps every continuation safe if and only if the side is free
      already, or the thread must wait for the other side until the old timer has fired. */
  lemma OffSafeIff(st: State, n: SideName)
    requires Inv(st) && !Locked(st)
    ensures Safe(TurnOff(st, n)) <==> Get(st, n).free || WaitsItOut(st, n)
  {
    if Get(st, n).free || WaitsItOut(st, n) {
      var st1 := TurnOff(st, n);
      if Get(st, n).free {
        assert st1 == st;
      } else {
        assert Harmless(st1, n);
      }
      forall es, k | Possible(st1, es)
        ensures !BothDriven(After(st1, es), k)
      {
        StaysSafe(st1, es, n, k);
      }
    } else {
      OffUnsafe(st, n);
    }
  }

  /** So for a caller between two commands, such as the command thread itself, the test is
      `motorLeftActive` or `motorRightActive`; and `motorOff` is safe if and only if it does nothing. */
  lemma OffWhenIdleSafeIff(es: seq<Event>, ss: seq<State>, i: int, n: SideName)
    requires Run(es, ss) && 0 <= i < |ss| && ss[i].thread.Idle?
    ensures Safe(TurnOff(ss[i], n)) <==> Get(ss[i], n).free
    ensures Safe(TurnOff(TurnOff(ss[i], Left), Right)) <==> ss[i].left.free && ss[i].right.free
  {
    var st := ss[i];
    RunInv(es, ss, i);
    OffSafeIff(st, n);
    var st1 := TurnOff(TurnOff(st, Left), Right);
    if !st.left.free {
      StaleIdle(st1, Left);
    } else if !st.right.free {
      StaleIdle(st1, Right);
    } else {
      assert TurnOff(st, Left) == st;
      OffSafeIff(st, Right);
    }
  }

  function Execs(st: State, k: nat): State
    decreases k
  {
    if k == 0 || st.thread.Idle? then st else Execs(ExecStep(st), k - 1)
  }

  /** Such a run. A command for two ticks is switched off by
      hand; the next command has taken the semaphore when the old timer fires and frees it; the command
      after that takes it again and, going backward, raises the first channel over the second. */
  lemma LeftOffBreaksSafety()
    ensures var st1 := Execs(Step(Initial(), Issue(TurnLeft, 2)), 6);
            var st2 := Execs(Step(TurnOff(st1, Left), Issue(TurnLeft, 9)), 1);
            var st3 := Execs(Ticks(st2, 2), 5);
            var st4 := Execs(Step(st3, Issue(GoBackward, 9)), 3);
            st4.left.p1 > 0 && st4.left.p2 > 0
  {
    var w := Width(6250);
    assert w == 12;
    var off := Side(0, 0, true, None, 0);
    var st0 := Step(Initial(), Issue(TurnLeft, 2));
    var st1 := State(Side(0, 12, false, Some(2), 2), off, Idle, 6250, 0);
    assert Execs(st0, 6) == st1 by {
      assert Execs(st0, 6) == Execs(ExecStep(ExecStep(ExecStep(st0))), 3);
    }
    var st2 := State(Side(0, 0, false, Some(2), 2), off, Driving(Left, Forward, 9, 1, false, false), 6250, 0);
    assert Execs(Step(TurnOff(st1, Left), Issue(TurnLeft, 9)), 1) == st2;
    var st2' := State(Side(0, 0, true, None, 2), off, Driving(Left, Forward, 9, 1, false, false), 6250, 2);
    assert Ticks(st2, 2) == st2' by {
      assert Ticks(st2, 1) == TickStep(st2);
    }
    var st3 := State(Side(0, 12, true, Some(9), 11), off, Idle, 6250, 2);
    assert Execs(st2', 5) == st3 by {
      assert Execs(st2', 5) == Execs(ExecStep(ExecStep(ExecStep(st2'))), 2);
    }
    var st4 := Step(st3, Issue(GoBackward, 9));
    assert Execs(st4, 3) == ExecStep(ExecStep(ExecStep(st4)));
  }
}
