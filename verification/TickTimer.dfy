// The tick budget of the run loop: how often the core's clock ticks, in terms of the time
// the iterations of the loop take.
module TickTimer {
  // left is what remains of the interval, ticks the number of ticks so far.
  datatype Timer = Timer(left: nat, ticks: nat)

  function AfterIteration(interval: nat, t: Timer, elapsed: nat): Timer {
    if elapsed > t.left then Timer(interval, t.ticks + 1) else Timer(t.left - elapsed, t.ticks)
  }

  function AfterIterations(interval: nat, elapsed: seq<nat>): Timer {
    if elapsed == [] then Timer(interval, 0)
    else AfterIteration(interval, AfterIterations(interval, elapsed[..|elapsed| - 1]), elapsed[|elapsed| - 1])
  }

  function Sum(xs: seq<nat>): nat {
    if xs == [] then 0 else Sum(xs[..|xs| - 1]) + xs[|xs| - 1]
  }

  // The budget stays within the interval, and k ticks take more than k intervals.
  lemma {:induction false} TicksTakeTime(interval: nat, elapsed: seq<nat>)
    ensures var t := AfterIterations(interval, elapsed);
      && t.left <= interval
      && t.ticks * interval + (interval - t.left) <= Sum(elapsed)
      && (t.ticks > 0 ==> t.ticks * interval < Sum(elapsed))
  {
    if elapsed != [] {
      var n := |elapsed| - 1;
      TicksTakeTime(interval, elapsed[..n]);
      var before := AfterIterations(interval, elapsed[..n]);
      assert (before.ticks + 1) * interval == before.ticks * interval + interval;
    }
  }

  // When no iteration takes longer than d, the time is used up by k intervals, what is used
  // of the next one, and at most d more per tick.
  lemma {:induction false} TimeBringsTicks(interval: nat, elapsed: seq<nat>, d: nat)
    requires forall i | 0 <= i < |elapsed| :: elapsed[i] <= d
    ensures var t := AfterIterations(interval, elapsed);
      t.left <= interval && Sum(elapsed) <= t.ticks * (interval + d) + (interval - t.left)
  {
    if elapsed != [] {
      var n := |elapsed| - 1;
      TimeBringsTicks(interval, elapsed[..n], d);
      var before := AfterIterations(interval, elapsed[..n]);
      assert (before.ticks + 1) * (interval + d) == before.ticks * (interval + d) + (interval + d);
    }
  }
}
