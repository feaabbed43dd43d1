/** What the words of the motor protocol do to the channels: `callback` in `main.c` down to the two writes
    of `motor_left_on` and `motor_right_on`, over every schedule of the timers. */
module MotorCommands {
  import opened Motor
  import opened Wrappers

  /** A side whose timer has been armed, which of its channels are driven, and for how many ticks. */
  datatype Drive = Drive(side: SideName, p1: bool, p2: bool, ticks: int)

  /** The side's timer gets armed between these states. */
  function ArmedSide(before: Side, after: Side, n: SideName): seq<Drive> {
    if before.timer.None? && after.timer.Some? then [Drive(n, after.p1 > 0, after.p2 > 0, after.timer.value)] else []
  }

  function ArmedAt(before: State, after: State): seq<Drive> {
    ArmedSide(before.left, after.left, Left) + ArmedSide(before.right, after.right, Right)
  }

  /** The sides armed up to a state of a run, in order. */
  function Armed(ss: seq<State>, k: nat): seq<Drive>
    requires k < |ss|
    decreases k
  {
    if k == 0 then [] else Armed(ss, k - 1) + ArmedAt(ss[k - 1], ss[k])
  }

  /** What the words mean: both sides or one, with the second channel driven to go forward and the first to
      go backward, for the seconds given. */
  function Meaning(id: string, sec: int): seq<Drive> {
    var ticks := if sec > 0 then 1000 * sec else 0x1_0000_0000 - 1000 * -sec;
    if id == "forward" then [Drive(Left, false, true, ticks), Drive(Right, false, true, ticks)]
    else if id == "backward" then [Drive(Left, true, false, ticks), Drive(Right, true, false, ticks)]
    else if id == "turnLeft" then [Drive(Left, false, true, ticks)]
    else if id == "turnRight" then [Drive(Right, false, true, ticks)]
    else []
  }

  ghost predicate Steps(es: seq<Event>, ss: seq<State>) {
    && |ss| == |es| + 1
    && forall i :: 0 <= i < |es| ==> Enabled(ss[i], es[i]) && ss[i + 1] == Step(ss[i], es[i])
  }

  /* ---------- the direction of the running command ---------- */

  /** The channels that the command has written so far. */
  predicate Directed(st: State) {
    st.thread.Driving? ==>
      var s, t := Get(st, st.thread.side), st.thread;
      && (t.at == 3 ==> s.p1 == if t.dir == Forward then 0 else Width(st.speed))
      && (t.at == 4 ==> s.p1 == (if t.dir == Forward then 0 else Width(st.speed))
                        && s.p2 == (if t.dir == Forward then Width(st.speed) else 0))
      && (t.at == 5 ==> (s.p1 > 0 <==> t.dir == Backward) && (s.p2 > 0 <==> t.dir == Forward))
  }

  lemma StepKeepsDirected(st: State, e: Event)
    requires Inv(st) && Directed(st) && Enabled(st, e)
    ensures Directed(Step(st, e))
  {
    assert Width(st.speed) >= 1 && Width(0) == 0;
    match e {
      case Exec => ExecKeepsDirected(st);
      case _ =>
    }
  }

  lemma ExecKeepsDirected(st: State)
    requires Inv(st) && Directed(st) && Enabled(st, Exec)
    ensures Directed(ExecStep(st))
  {
    assert Width(st.speed) >= 1 && Width(0) == 0;
  }

  /** What the thread has still to arm. */
  function Rest(t: Thread): seq<Drive> {
    if t.Idle? then []
    else
      [Drive(t.side, t.dir == Backward, t.dir == Forward, t.ticks)]
      + if t.both && t.side == Left then [Drive(Right, t.dir == Backward, t.dir == Forward, t.ticks)] else []
  }

  lemma StepArms(st: State, e: Event)
    requires Inv(st) && Directed(st) && Enabled(st, e) && st.thread.Driving?
    ensures ArmedAt(st, Step(st, e)) + Rest(Step(st, e).thread) == Rest(st.thread)
  {
    match e {
      case Exec => ExecArms(st);
      case _ =>
    }
  }

  lemma ExecArms(st: State)
    requires Inv(st) && Directed(st) && Enabled(st, Exec)
    ensures ArmedAt(st, ExecStep(st)) + Rest(ExecStep(st).thread) == Rest(st.thread)
  {
    assert SideInv(st, st.thread.side);
  }

  lemma {:induction false} CommandArms(es: seq<Event>, ss: seq<State>, k: nat)
    requires Steps(es, ss) && Inv(ss[0]) && Directed(ss[0])
    requires k <= |es| && forall i :: 0 <= i < k ==> ss[i].thread.Driving?
    ensures Inv(ss[k]) && Directed(ss[k])
    ensures Armed(ss, k) + Rest(ss[k].thread) == Rest(ss[0].thread)
    decreases k
  {
    hide Inv, Directed, Rest, ArmedAt, Step;
    if k == 0 {
      assert [] + Rest(ss[0].thread) == Rest(ss[0].thread);
    } else {
      CommandArms(es, ss, k - 1);
      var st, e := ss[k - 1], es[k - 1];
      StepKeepsInv(st, e);
      StepKeepsDirected(st, e);
      StepArms(st, e);
      assert Armed(ss, k - 1) + (ArmedAt(st, ss[k]) + Rest(ss[k].thread)) == Armed(ss, k) + Rest(ss[k].thread);
    }
  }

  /** Main result: an accepted message, over every schedule until the command is done, arms exactly the sides
      that its word means, in that order, with the channels driven that it means and for the ticks of its
      seconds; before it is done, a beginning of them. */
  lemma MessageArms(st: State, id: string, sec: int, es: seq<Event>, ss: seq<State>)
    requires Inv(st) && st.thread.Idle? && -2147 <= sec <= 2147 && Callback(st, id, sec).1
    requires Steps(es, ss) && ss[0] == Callback(st, id, sec).0
    requires forall i :: 0 <= i < |es| ==> ss[i].thread.Driving?
    ensures Armed(ss, |es|) <= Meaning(id, sec)
    ensures ss[|es|].thread.Idle? ==> Armed(ss, |es|) == Meaning(id, sec)
  {
    var st1 := Callback(st, id, sec).0;
    CallbackIssuesTimedCommands(st, id, sec);
    assert Inv(st1) && Directed(st1);
    assert Rest(st1.thread) == Meaning(id, sec);
    CommandArms(es, ss, |es|);
    assert Armed(ss, |es|) == Rest(st1.thread)[..|Armed(ss, |es|)|];
    assert ss[|es|].thread.Idle? ==> Armed(ss, |es|) + [] == Armed(ss, |es|);
  }

  /** A turn leaves the other side to its timer. */
  lemma {:induction false} TurnLeavesOtherSide(st: State, id: string, sec: int, es: seq<Event>, ss: seq<State>, k: int)
    requires Inv(st) && st.thread.Idle? && Callback(st, id, sec).1 && (id == "turnLeft" || id == "turnRight")
    requires Steps(es, ss) && ss[0] == Callback(st, id, sec).0
    requires forall i :: 0 <= i < |es| ==> ss[i].thread.Driving?
    requires 0 <= k < |es|
    ensures var n := if id == "turnLeft" then Right else Left;
            && Get(ss[k + 1], n) == (if es[k].Tick? then TickSide(Get(ss[k], n), false) else Get(ss[k], n))
            && (ss[k].thread.side != n && !ss[k].thread.both)
    decreases k
  {
    if k > 0 {
      TurnLeavesOtherSide(st, id, sec, es, ss, k - 1);
    }
    var n := if id == "turnLeft" then Right else Left;
    assert ss[k].thread.side != n && !ss[k].thread.both;
  }

  /* ---------- the speed ---------- */

  /** The last percentage accepted, in hundredths of a percent. */
  function LastSpeed(es: seq<Event>): int
    decreases |es|
  {
    if es == [] then 6250
    else
      var e := es[|es| - 1];
      if e.SetSpeed? && 25 <= e.s <= 100 then 100 * e.s else LastSpeed(es[..|es| - 1])
  }

  lemma {:induction false} RunSpeed(es: seq<Event>, ss: seq<State>, i: int)
    requires Run(es, ss) && 0 <= i < |ss|
    ensures ss[i].speed == LastSpeed(es[..i]) && Directed(ss[i])
    decreases i
  {
    if i > 0 {
      hide Directed;
      RunSpeed(es, ss, i - 1);
      RunInv(es, ss, i - 1);
      StepKeepsDirected(ss[i - 1], es[i - 1]);
      assert es[..i][..i - 1] == es[..i - 1];
      StepSpeed(ss[i - 1], es[i - 1]);
    } else {
      assert ss[0] == Initial();
    }
  }

  lemma StepSpeed(st: State, e: Event)
    requires Enabled(st, e)
    ensures Step(st, e).speed == if e.SetSpeed? && 25 <= e.s <= 100 then 100 * e.s else st.speed
  {
  }

  /** In every run, when a command has written its channels, the one that is driven has the share of the 20
      ticks of the period that the last speed asks for, rounded down, and the other one none. */
  lemma DrivenWidth(es: seq<Event>, ss: seq<State>, i: int)
    requires Run(es, ss) && 0 <= i < |ss| && ss[i].thread.Driving? && ss[i].thread.at == 4
    ensures var s, speed := Get(ss[i], ss[i].thread.side), LastSpeed(es[..i]);
            var (driven, other) := if ss[i].thread.dir == Forward then (s.p2, s.p1) else (s.p1, s.p2);
            other == 0 && 10000 * driven <= 20 * speed < 10000 * (driven + 1)
  {
    RunSpeed(es, ss, i);
  }
}
