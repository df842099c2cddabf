/** WaitUntilPos (canal/sync.go): polling the master's position until it
    reaches a target or a timer fires. Time and the concurrently updated
    master position are inputs: clock(i) is the time elapsed on the timer
    (in nanoseconds) at the i-th select, current(i) the position c.master.Pos()
    returns at that poll. */
module Wait {
  import opened Positions
  import opened Binlog
  import opened Sync

  /** `a * b` on Durations; Go's signed multiplication wraps around. */
  function MulWrap(a: int64, b: int64): (r: int64)
    ensures -0x8000_0000_0000_0000 <= a as int * b as int < 0x8000_0000_0000_0000 ==> r as int == a as int * b as int
    ensures (r as int - a as int * b as int) % 0x1_0000_0000_0000_0000 == 0
  {
    ((a as int * b as int + 0x8000_0000_0000_0000) % 0x1_0000_0000_0000_0000 - 0x8000_0000_0000_0000) as int64
  }

  /** The timer's duration for a timeout in seconds; a timeout that is not
      positive means 60 seconds. */
  function TimerDuration(timeout: int64): (d: int64)
    ensures timeout <= 0 ==> d as int == 60_000_000_000
    ensures 0 < timeout as int <= 9_223_372_036 ==> d as int == timeout as int * 1_000_000_000
  {
    MulWrap(if timeout <= 0 then 60 else timeout, Second)
  }

  /** Every poll that does not return is followed by a 100ms sleep, so the
      clock advances by at least that much between selects. */
  ghost predicate Ticking(clock: nat -> nat) {
    forall k: nat :: clock(k) + 100_000_000 <= clock(k + 1)
  }

  /** How the wait ended and at which select. */
  datatype Ending = Reached(polls: nat) | TimedOut(polls: nat)

  datatype WaitError = WaitTimeout(target: Position)

  /** The selects from the i-th on, for a timer of duration d: the timer case
      wins once it has fired; otherwise the default case polls. */
  function Poll(target: Position, d: int, clock: nat -> nat, current: nat -> Position, i: nat): Ending
    requires Ticking(clock)
    decreases d - clock(i)
  {
    if clock(i) >= d then TimedOut(i)
    else if AtLeast(current(i), target) then Reached(i)
    else Poll(target, d, clock, current, i + 1)
  }

  method WaitUntilPos(target: Position, timeout: int64, clock: nat -> nat, current: nat -> Position)
    returns (err: Option<WaitError>)
    requires Ticking(clock)
    ensures var w := Poll(target, TimerDuration(timeout) as int, clock, current, 0);
      err == (if w.Reached? then None else Some(WaitTimeout(target)))
  {
    var t := timeout;
    if t <= 0 {
      t := 60;
    }
    var d := MulWrap(t, Second);
    var i := 0;
    while true
      invariant Poll(target, d as int, clock, current, i) == Poll(target, TimerDuration(timeout) as int, clock, current, 0)
      decreases d as int - clock(i)
    {
      if clock(i) >= d as int {
        return Some(WaitTimeout(target));
      }
      if Compare(current(i), target) >= 0 {
        return None;
      }
      i := i + 1;
    }
  }

  /** What the selects from the i-th on do: every earlier poll found the
      master behind the target with the timer still running; the wait ends
      at the first select where the timer has fired, with an error, or where
      the master has reached the target, with success. */
  lemma {:induction false} PollFacts(target: Position, d: int, clock: nat -> nat, current: nat -> Position, i: nat)
    requires Ticking(clock)
    ensures var w := Poll(target, d, clock, current, i);
      i <= w.polls &&
      (forall k :: i <= k < w.polls ==> clock(k) < d && !AtLeast(current(k), target)) &&
      (w.Reached? <==> clock(w.polls) < d && AtLeast(current(w.polls), target)) &&
      (w.TimedOut? <==> clock(w.polls) >= d)
    decreases d - clock(i)
  {
    if clock(i) < d && !AtLeast(current(i), target) {
      PollFacts(target, d, clock, current, i + 1);
    }
  }

  lemma {:induction false} ClockGrows(clock: nat -> nat, k: nat)
    requires Ticking(clock)
    ensures clock(k) >= clock(0) + k * 100_000_000
  {
    if k > 0 {
      ClockGrows(clock, k - 1);
    }
  }

  /** The wait ends within one poll per 100ms of the timer's duration, plus
      the first. */
  lemma PollsBounded(target: Position, d: int, clock: nat -> nat, current: nat -> Position)
    requires Ticking(clock)
    ensures var n := Poll(target, d, clock, current, 0).polls;
      n == 0 || (n - 1) * 100_000_000 < d
  {
    PollFacts(target, d, clock, current, 0);
    var n := Poll(target, d, clock, current, 0).polls;
    if n > 0 {
      ClockGrows(clock, n - 1);
      assert clock(n - 1) < d;
    }
  }

  /** A timeout of 9223372037 seconds or more (up to 2^64 ns worth) makes
      the Duration product wrap to a negative value: the timer has fired by
      the first select, and the wait fails without polling. */
  lemma OverflowingTimeoutFails(target: Position, timeout: int64, clock: nat -> nat, current: nat -> Position)
    requires Ticking(clock) && 9_223_372_037 <= timeout as int <= 18_446_744_073
    ensures TimerDuration(timeout) < 0
    ensures Poll(target, TimerDuration(timeout) as int, clock, current, 0) == TimedOut(0)
  {
    var p := timeout as int * 1_000_000_000;
    assert 0x8000_0000_0000_0000 <= p < 0x1_0000_0000_0000_0000;
    assert (p + 0x8000_0000_0000_0000) % 0x1_0000_0000_0000_0000 == p + 0x8000_0000_0000_0000 - 0x1_0000_0000_0000_0000;
  }
}
