/** Recovering an open breaker out of band: the doubling wait between checks and
    the prober that runs one check when it is due. Models
    internal/breaker/recovery.go and internal/util/backoff/backoff.go. Times are
    integers. */
module Prober {
  import opened Common
  import opened Breaker

  // ---------------------------------------------------------------------
  // Backoff
  // ---------------------------------------------------------------------

  /** d doubled n times, giving up at the ceiling as the loop does. */
  function Doubled(d: nat, ceiling: nat, n: nat): nat
    decreases n
  {
    if n == 0 then Min(d, ceiling)
    else if d >= ceiling / 2 then ceiling
    else Doubled(2 * d, ceiling, n - 1)
  }

  /** Exponential.For, which waits longest when the count is below zero. */
  function Backoff(base: nat, ceiling: nat, attempts: int): nat {
    if attempts < 0 then ceiling else Doubled(base, ceiling, attempts)
  }

  method BackoffFor(base: nat, ceiling: nat, attempts: int) returns (d: nat)
    ensures d == Backoff(base, ceiling, attempts)
  {
    if attempts < 0 {
      return ceiling;
    }
    d := base;
    var i := 0;
    while i < attempts
      invariant 0 <= i <= attempts
      invariant Doubled(d, ceiling, attempts - i) == Doubled(base, ceiling, attempts)
    {
      if d >= ceiling / 2 {
        return ceiling;
      }
      d := d * 2;
      i := i + 1;
    }
    d := Min(d, ceiling);
  }

  /** d doubled n times, with no ceiling. */
  function Times(d: nat, n: nat): nat
    decreases n
  {
    if n == 0 then d else Times(2 * d, n - 1)
  }

  lemma {:induction false} TimesIsProduct(d: nat, n: nat)
    ensures Times(d, n) == d * Pow2(n)
    decreases n
  {
    if n > 0 {
      TimesIsProduct(2 * d, n - 1);
      assert d * (2 * Pow2(n - 1)) == 2 * d * Pow2(n - 1);
    }
  }

  lemma {:induction false} DoubledExact(d: nat, ceiling: nat, n: nat)
    requires d > 0
    ensures Times(d, n) >= d && (n > 0 ==> Times(d, n) >= 2 * d)
    ensures Doubled(d, ceiling, n) == Min(Times(d, n), ceiling) <==> !(n > 0 && ceiling == Times(d, n) + 1)
    ensures n > 0 && ceiling == Times(d, n) + 1 ==> Doubled(d, ceiling, n) == ceiling
    decreases n
  {
    if n > 0 {
      DoubledExact(2 * d, ceiling, n - 1);
    }
  }

  /** The wait is base doubled once per attempt and capped, except that a ceiling
      exactly one above the doubled value is returned in its place. */
  lemma BackoffExact(base: nat, ceiling: nat, n: nat)
    requires base > 0
    ensures Backoff(base, ceiling, n) == Min(base * Pow2(n), ceiling)
            <==> !(n > 0 && ceiling == base * Pow2(n) + 1)
  {
    TimesIsProduct(base, n);
    DoubledExact(base, ceiling, n);
  }

  /** One doubling of 1 under a ceiling of 3 waits 3, not 2. */
  lemma CeilingTakenEarly()
    ensures Backoff(1, 3, 1) == 3 && Min(1 * Pow2(1), 3) == 2
  {
    BackoffExact(1, 3, 1);
  }

  /** Waits never shrink and stay between the base and the ceiling. */
  lemma {:induction false} DoubledGrows(d: nat, ceiling: nat, n: nat)
    requires d <= ceiling
    ensures d <= Doubled(d, ceiling, n) <= Doubled(d, ceiling, n + 1) <= ceiling
    decreases n
  {
    if n > 0 && d < ceiling / 2 {
      DoubledGrows(2 * d, ceiling, n - 1);
    }
  }

  // ---------------------------------------------------------------------
  // The prober
  // ---------------------------------------------------------------------

  const WATCHDOG_INTERVAL: nat := 5_000_000_000

  datatype Timing = Timing(openTimeout: int, maxBackoff: int) {
    function Base(): nat {
      Max(openTimeout, WATCHDOG_INTERVAL)
    }

    function Ceiling(): nat {
      Max(maxBackoff, Base())
    }

    function Wait(failures: nat): nat {
      Backoff(Base(), Ceiling(), failures)
    }
  }

  /** When the next check is due, if one is scheduled, and how many have failed. */
  datatype Schedule = Schedule(nextDue: Option<int>, failures: nat)

  const IDLE := Schedule(None, 0)

  /** One watchdog tick: the time, whether the breaker is open, whether a due
      check would be admitted, and whether it would pass. */
  datatype Tick = Tick(now: int, open: bool, admitted: bool, passes: bool)

  /** Whether a tick runs the check. */
  predicate Runs(s: Schedule, t: Tick) {
    t.open && s.nextDue.Some? && t.now >= s.nextDue.value && t.admitted
  }

  function AfterTick(timing: Timing, s: Schedule, t: Tick): Schedule {
    if !t.open then IDLE
    else if s.nextDue.None? then s.(nextDue := Some(t.now + timing.Wait(s.failures)))
    else if !Runs(s, t) then s
    else if t.passes then IDLE
    else Schedule(Some(t.now + timing.Wait(s.failures + 1)), s.failures + 1)
  }

  class RecoveryProber<E(==)> {
    const breaker: CircuitBreaker<E>
    const timing: Timing
    var nextDue: Option<int>
    var failures: nat

    function View(): Schedule
      reads this
    {
      Schedule(nextDue, failures)
    }

    constructor (breaker: CircuitBreaker<E>, timing: Timing)
      ensures View() == IDLE && this.breaker == breaker && this.timing == timing
    {
      this.breaker, this.timing := breaker, timing;
      nextDue, failures := None, 0;
    }

    /** One tick of the watchdog against this schedule. */
    method Probe(now: int, admitted: bool, passes: bool) returns (ran: bool)
      modifies this, breaker
      ensures
        var t := Tick(now, old(breaker.state) == Open, admitted, passes);
        && ran == Runs(old(View()), t)
        && View() == AfterTick(timing, old(View()), t)
        && breaker.View() == if ran && passes then Recover(old(breaker.View())) else old(breaker.View())
    {
      if breaker.state != Open {
        nextDue, failures := None, 0;
        return false;
      }
      if nextDue.None? {
        var first := BackoffFor(timing.Base(), timing.Ceiling(), failures);
        nextDue := Some(now + first);
        return false;
      }
      if now < nextDue.value || !admitted {
        return false;
      }
      if passes {
        var _ := breaker.RecoverNow();
        nextDue, failures := None, 0;
        return true;
      }
      failures := failures + 1;
      var wait := BackoffFor(timing.Base(), timing.Ceiling(), failures);
      nextDue := Some(now + wait);
      return true;
    }
  }

  // ---------------------------------------------------------------------
  // The schedule over a whole outage
  // ---------------------------------------------------------------------

  datatype Check = Check(at: int, passed: bool)

  /** A run of ticks: the schedule, when this outage was first seen, and the checks
      run in it so far, the one that ends it among them until the tick after. */
  datatype Outage = Outage(schedule: Schedule, seen: int, checks: seq<Check>) {
    predicate Over() {
      checks != [] && checks[|checks| - 1].passed
    }
  }

  function Observe(timing: Timing, o: Outage, t: Tick): Outage {
    var next := AfterTick(timing, o.schedule, t);
    if Runs(o.schedule, t) then Outage(next, o.seen, o.checks + [Check(t.now, t.passes)])
    else if !t.open || o.schedule.nextDue.None? then Outage(next, t.now, [])
    else o.(schedule := next)
  }

  function ObserveAll(timing: Timing, ticks: seq<Tick>): Outage {
    if ticks == [] then Outage(IDLE, 0, [])
    else Observe(timing, ObserveAll(timing, ticks[..|ticks| - 1]), ticks[|ticks| - 1])
  }

  /** The first check of an outage runs at least one base wait after the outage is
      seen, and each later one, the passing one included, at least the wait doubled
      once per check before it after the last; every check but the last failed. */
  ghost predicate Spaced(timing: Timing, o: Outage) {
    && (forall i :: 0 <= i < |o.checks| - 1 ==> !o.checks[i].passed)
    && (o.checks != [] ==> o.checks[0].at >= o.seen + timing.Wait(0))
    && (forall i :: 0 < i < |o.checks| ==> o.checks[i].at >= o.checks[i - 1].at + timing.Wait(i))
  }

  /** The schedule in force: none once the outage is over or before one is seen,
      and otherwise due one wait after the last check, or after the outage was
      seen. */
  predicate Scheduled(timing: Timing, o: Outage) {
    if o.Over() || (o.checks == [] && o.schedule.nextDue.None?) then o.schedule == IDLE
    else
      var last := if o.checks == [] then o.seen else o.checks[|o.checks| - 1].at;
      o.schedule == Schedule(Some(last + timing.Wait(|o.checks|)), |o.checks|)
  }

  /** Over every sequence of ticks, the checks of an outage keep their distance. */
  lemma {:induction false} ChecksSpaced(timing: Timing, ticks: seq<Tick>)
    ensures Spaced(timing, ObserveAll(timing, ticks)) && Scheduled(timing, ObserveAll(timing, ticks))
  {
    if ticks != [] {
      ChecksSpaced(timing, ticks[..|ticks| - 1]);
    }
  }

  /** The distance checks keep never shrinks within an outage and stays between
      max(open timeout, watchdog tick) and the cap. */
  lemma WaitsGrow(timing: Timing, failures: nat)
    ensures timing.Base() <= timing.Wait(failures) <= timing.Wait(failures + 1) <= timing.Ceiling()
  {
    DoubledGrows(timing.Base(), timing.Ceiling(), failures);
  }
}
