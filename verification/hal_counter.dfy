/** Time windows on the free running counter: `halIsCounterWithin` and `halPolledDelay` in
    `os/hal/src/hal.c`. The counter has 32 bits and wraps around; time itself does not. */
module HalCounter {

  const WRAP: int := 0x1_0000_0000

  predicate IsCounter(x: int) { 0 <= x < WRAP }

  /** What the counter shows at an ideal time. */
  function Counter(t: int): (c: int)
    ensures IsCounter(c)
  {
    t % WRAP
  }

  /** `halIsCounterWithin`, with the counter read as `now`. */
  predicate IsCounterWithin(now: int, start: int, end: int) {
    if end > start then now >= start && now < end else now >= start || now < end
  }

  /** Being within a window is a comparison of distances from its start; equal ends mean always. */
  lemma WithinIff(now: int, start: int, end: int)
    requires IsCounter(now) && IsCounter(start) && IsCounter(end)
    ensures IsCounterWithin(now, start, end) <==> start == end || (now - start) % WRAP < (end - start) % WRAP
  {
    Distance(now, start);
    Distance(end, start);
  }

  lemma Distance(x: int, start: int)
    requires IsCounter(x) && IsCounter(start)
    ensures (x - start) % WRAP == if x >= start then x - start else x - start + WRAP
  {
  }

  /** In ideal time: the counter is within the window that starts at `t0` exactly while the time since
      then, modulo the wrap, is below the ticks. */
  lemma WithinWindowIff(t0: int, t: int, ticks: int)
    requires IsCounter(ticks)
    ensures IsCounterWithin(Counter(t), Counter(t0), (Counter(t0) + ticks) % WRAP)
            <==> ticks == 0 || (t - t0) % WRAP < ticks
  {
    var start, end := Counter(t0), (Counter(t0) + ticks) % WRAP;
    WithinIff(Counter(t), start, end);
    SameDistance(t, t0);
    EndDistance(start, ticks);
  }

  lemma SameDistance(t: int, t0: int)
    ensures (Counter(t) - Counter(t0)) % WRAP == (t - t0) % WRAP
  {
    assert t == WRAP * (t / WRAP) + Counter(t) && t0 == WRAP * (t0 / WRAP) + Counter(t0);
    var d := Counter(t) - Counter(t0);
    assert t - t0 == WRAP * (t / WRAP - t0 / WRAP) + d;
  }

  lemma EndDistance(start: int, ticks: int)
    requires IsCounter(start) && IsCounter(ticks)
    ensures var end := (start + ticks) % WRAP;
            (end - start) % WRAP == ticks && (end == start <==> ticks == 0)
  {
    assert (start + ticks) % WRAP == if start + ticks < WRAP then start + ticks else start + ticks - WRAP;
  }

  /* ---------- the polled delay ---------- */

  /** Ideal times at which the counter is read, the first one for `start`; a run of the loop is any such
      schedule. */
  ghost predicate Schedule(polls: seq<int>) {
    polls != [] && forall k :: 0 < k < |polls| ==> polls[k - 1] <= polls[k]
  }

  ghost predicate GapsAtMost(polls: seq<int>, gap: int) {
    forall k :: 0 < k < |polls| ==> polls[k] - polls[k - 1] <= gap
  }

  /** The loop goes on at this reading. */
  predicate Waits(polls: seq<int>, k: int, ticks: int)
    requires 0 < k < |polls|
  {
    IsCounterWithin(Counter(polls[k]), Counter(polls[0]), (Counter(polls[0]) + ticks) % WRAP)
  }

  /** `halPolledDelay`: the number of the reading that ends it, or the length of the schedule when the
      loop is still waiting at its end. */
  method PolledDelay(polls: seq<int>, ticks: int) returns (k: nat)
    requires polls != [] && IsCounter(ticks)
    ensures 1 <= k <= |polls|
    ensures forall j :: 0 < j < k ==> Waits(polls, j, ticks)
    ensures k < |polls| ==> !Waits(polls, k, ticks)
  {
    var start := Counter(polls[0]);
    var timeout := (start + ticks) % WRAP;
    k := 1;
    while k < |polls| && IsCounterWithin(Counter(polls[k]), start, timeout)
      invariant 1 <= k <= |polls|
      invariant forall j :: 0 < j < k ==> Waits(polls, j, ticks)
    {
      k := k + 1;
    }
  }

  lemma {:induction false} Monotone(polls: seq<int>, k: nat)
    requires Schedule(polls) && k < |polls|
    ensures polls[0] <= polls[k]
  {
    if k > 0 {
      Monotone(polls, k - 1);
    }
  }

  /** The delay never ends early, whatever the schedule; with no ticks it never ends at all. */
  lemma NeverEarly(polls: seq<int>, ticks: int, k: nat)
    requires Schedule(polls) && IsCounter(ticks) && 0 < k < |polls| && !Waits(polls, k, ticks)
    ensures ticks != 0 && polls[k] - polls[0] >= ticks
  {
    Monotone(polls, k);
    WithinWindowIff(polls[0], polls[k], ticks);
    var d := polls[k] - polls[0];
    assert d % WRAP <= d;
  }

  /** If no gap exceeds 2^32 minus the ticks, the delay ends at the first reading that is late enough. */
  lemma {:induction false} EndsAtDeadline(polls: seq<int>, ticks: int, k: nat)
    requires Schedule(polls) && IsCounter(ticks) && ticks > 0 && GapsAtMost(polls, WRAP - ticks)
    requires 0 < k < |polls| && polls[k] - polls[0] >= ticks && polls[k - 1] - polls[0] < ticks
    ensures !Waits(polls, k, ticks)
  {
    WithinWindowIff(polls[0], polls[k], ticks);
    assert polls[k] - polls[0] < WRAP;
  }

  lemma {:induction false} FirstLate(polls: seq<int>, ticks: int, m: nat) returns (k: nat)
    requires Schedule(polls) && ticks > 0 && m < |polls| && polls[m] - polls[0] >= ticks
    ensures 0 < k <= m && polls[k] - polls[0] >= ticks && polls[k - 1] - polls[0] < ticks
  {
    if polls[m - 1] - polls[0] >= ticks {
      k := FirstLate(polls, ticks, m - 1);
    } else {
      k := m;
    }
  }

  /** The delay ends, and at the first reading that is late enough: the time waited exceeds the ticks by
      less than the last gap. */
  lemma DelayEnds(polls: seq<int>, ticks: int, m: nat, k: nat)
    requires Schedule(polls) && IsCounter(ticks) && ticks > 0 && GapsAtMost(polls, WRAP - ticks)
    requires 0 < m < |polls| && polls[m] - polls[0] >= ticks
    requires 1 <= k <= |polls| && (k < |polls| ==> !Waits(polls, k, ticks))
    requires forall j :: 0 < j < k ==> Waits(polls, j, ticks)
    ensures k <= m && ticks <= polls[k] - polls[0] < ticks + (polls[k] - polls[k - 1])
  {
    var f := FirstLate(polls, ticks, m);
    EndsAtDeadline(polls, ticks, f);
    assert k <= f;
    NeverEarly(polls, ticks, k);
    if k < f {
      Ordered(polls, k, f - 1);
    }
  }

  lemma {:induction false} Ordered(polls: seq<int>, j: nat, k: nat)
    requires Schedule(polls) && j <= k < |polls|
    ensures polls[j] <= polls[k]
    decreases k
  {
    if j < k {
      Ordered(polls, j, k - 1);
    }
  }

  /** Readings a whole wrap apart. */
  function Strobe(n: nat): seq<int> { seq(n, k => k * WRAP) }

  /** Once a reading is late enough the loop has ended. */
  ghost predicate Meets(polls: seq<int>, ticks: int) {
    polls != [] && forall m :: 0 < m < |polls| && polls[m] - polls[0] >= ticks ==> HasEnded(polls, ticks, m)
  }

  ghost predicate HasEnded(polls: seq<int>, ticks: int, m: int)
    requires m < |polls|
  {
    exists k :: 0 < k <= m && !Waits(polls, k, ticks)
  }

  /** One reading per tick, and then one that jumps over the end of the window. */
  function Jump(ticks: nat): seq<int> { seq(ticks, k => k) + [WRAP] }

  lemma JumpMisses(ticks: int)
    requires IsCounter(ticks) && ticks > 0
    ensures Schedule(Jump(ticks)) && GapsAtMost(Jump(ticks), WRAP - ticks + 1) && !Meets(Jump(ticks), ticks)
  {
    var polls := Jump(ticks);
    forall k | 0 < k <= ticks
      ensures Waits(polls, k, ticks)
    {
      WithinWindowIff(0, polls[k], ticks);
    }
    assert polls[ticks] - polls[0] >= ticks && !HasEnded(polls, ticks, ticks);
  }

  lemma MeetsDeadline(polls: seq<int>, ticks: int)
    requires Schedule(polls) && IsCounter(ticks) && ticks > 0 && GapsAtMost(polls, WRAP - ticks)
    ensures Meets(polls, ticks)
  {
    forall m | 0 < m < |polls| && polls[m] - polls[0] >= ticks
      ensures HasEnded(polls, ticks, m)
    {
      var f := FirstLate(polls, ticks, m);
      EndsAtDeadline(polls, ticks, f);
    }
  }

  /** The bound is exact: every schedule with gaps up to `gap` meets the deadline if and only if the gap
      is at most 2^32 minus the ticks. */
  lemma DeadlineMetIff(ticks: int, gap: int)
    requires IsCounter(ticks) && ticks > 0
    ensures (forall polls :: Schedule(polls) && GapsAtMost(polls, gap) ==> Meets(polls, ticks)) <==> gap <= WRAP - ticks
  {
    if gap <= WRAP - ticks {
      forall polls | Schedule(polls) && GapsAtMost(polls, gap)
        ensures Meets(polls, ticks)
      {
        MeetsDeadline(polls, ticks);
      }
    } else {
      JumpMisses(ticks);
      assert GapsAtMost(Jump(ticks), gap);
    }
  }

  /** And a schedule in step with the counter waits for ever. */
  lemma StrobeWaits(n: nat, k: nat, ticks: int)
    requires IsCounter(ticks) && 0 < k < n
    ensures Schedule(Strobe(n)) && Waits(Strobe(n), k, ticks)
  {
    WithinWindowIff(0, k * WRAP, ticks);
  }
}
