/** The usage tracker of internal/counter/tracker.go over local counters: recording
    a call, checking one against the limits, and the flush and refresh of each
    usage tick. */
module Tracker {
  import opened Common
  import opened UsageNames
  import opened UsageLocal
  import opened Admission

  datatype Cycle = Cycle(start: int, next: int)

  /** When a backend's cycles begin: the cycle a time falls in, and the one after. */
  datatype Period = Period(cycleAt: int -> Cycle, following: Cycle -> Cycle)

  /** What the store last reported for a backend, and the cycle it reported on. */
  datatype Baseline = Baseline(used: Usage, cycle: Cycle)

  /** A baseline carried over its reset: past it, nothing is flushed yet. */
  function At(b: Baseline, period: Period, now: int): (Usage, Cycle) {
    if now < b.cycle.next then (b.used, b.cycle) else (ZERO, period.following(b.cycle))
  }

  /** A period that steps along a list of resets. */
  ghost predicate Follows(period: Period, resets: nat -> int) {
    forall k: nat :: period.following(Cycle(resets(k), resets(k + 1))) == Cycle(resets(k + 1), resets(k + 2))
  }

  /** A check of the tracker is judged by the baseline and window that the model of
      one backend over its cycles is judged by. */
  lemma JudgedAlike(period: Period, w: World, s: State)
    requires Follows(period, w.resets)
    ensures
      var (used, cycle) := At(Baseline(s.base, Cycle(w.resets(s.baseCycle), w.resets(s.baseCycle + 1))), period, s.now);
      (used, cycle.start) == BaselineAt(w, s)
  {
    assert period.following(Cycle(w.resets(s.baseCycle), w.resets(s.baseCycle + 1)))
        == Cycle(w.resets(s.baseCycle + 1), w.resets(s.baseCycle + 2));
  }

  // ---------------------------------------------------------------------
  // The store of flushed usage
  // ---------------------------------------------------------------------

  /** What the batches of the backends kept come to at one cell. */
  function PartAt(batches: seq<UsageBatch>, kept: string -> bool, c: Cell): int {
    if batches == [] then 0
    else
      var last := batches[|batches| - 1];
      PartAt(batches[..|batches| - 1], kept, c) + (if kept(last.backend) then BatchAt(last, c) else 0)
  }

  lemma {:induction false} PartIsWhole(batches: seq<UsageBatch>, kept: string -> bool, c: Cell)
    ensures PartAt(batches, kept, c) == if kept(c.backend) then BatchesAt(batches, c) else 0
  {
    if batches != [] {
      PartIsWhole(batches[..|batches| - 1], kept, c);
    }
  }

  lemma {:induction false} PartOfNone(batches: seq<UsageBatch>, kept: string -> bool, c: Cell)
    requires forall j :: 0 <= j < |batches| ==> !kept(batches[j].backend)
    ensures PartAt(batches, kept, c) == 0
  {
    if batches != [] {
      PartOfNone(batches[..|batches| - 1], kept, c);
    }
  }

  function Succeeds(fails: string -> bool): string -> bool {
    name => !fails(name)
  }

  /** Counters that hold what others did and the batches kept. */
  ghost predicate Gains(m: Counters, was: Counters, batches: seq<UsageBatch>, kept: string -> bool) {
    forall c: Cell :: LocalAt(m, c) == LocalAt(was, c) + PartAt(batches, kept, c)
  }

  lemma GainsNext(m: Counters, was: Counters, batches: seq<UsageBatch>, i: nat, kept: string -> bool)
    requires i < |batches| && Gains(m, was, batches[..i], kept)
    ensures Gains(if kept(batches[i].backend) then AddBatch(m, batches[i]) else m, was, batches[..i + 1], kept)
  {
    var next := if kept(batches[i].backend) then AddBatch(m, batches[i]) else m;
    assert batches[..i + 1][..i] == batches[..i];
    forall c: Cell
      ensures LocalAt(next, c) == LocalAt(was, c) + PartAt(batches[..i + 1], kept, c)
    {
      AddBatchAt(m, batches[i], c);
    }
  }

  lemma GainsOwn(m: Counters, was: Counters, batches: seq<UsageBatch>, kept: string -> bool, taken: Counters,
                 k: BucketKey, f: Field)
    requires Gains(m, was, batches, kept) && IsTakeOf(taken, batches)
    ensures Held(m, k).At(f) == Held(was, k).At(f) + if kept(k.backend) then Held(taken, k).At(f) else 0
  {
    var c := Cell(k.backend, k.bucket, k.workload, f);
    assert KeyOf(c) == k;
    PartIsWhole(batches, kept, c);
    assert LocalAt(m, c) == LocalAt(was, c) + PartAt(batches, kept, c);
  }

  /** Whether a batch of a backend is among those kept. */
  ghost predicate Touched(batches: seq<UsageBatch>, kept: string -> bool, name: string) {
    kept(name) && exists j :: 0 <= j < |batches| && batches[j].backend == name
  }

  /** Usage rows that hold what others did and the batches kept, without the old
      buckets of the backends that have one. */
  ghost predicate Lands(m: Counters, was: Counters, batches: seq<UsageBatch>, kept: string -> bool, cutoff: int) {
    forall c: Cell ::
      LocalAt(m, c) == if c.bucket < cutoff && Touched(batches, kept, c.backend) then 0
                       else LocalAt(was, c) + PartAt(batches, kept, c)
  }

  lemma LandsNext(m: Counters, was: Counters, batches: seq<UsageBatch>, i: nat, kept: string -> bool, cutoff: int)
    requires i < |batches| && Lands(m, was, batches[..i], kept, cutoff)
    ensures Lands(if kept(batches[i].backend) then Recent(AddBatch(m, batches[i]), batches[i].backend, cutoff) else m,
                  was, batches[..i + 1], kept, cutoff)
  {
    var b := batches[i];
    var next := if kept(b.backend) then Recent(AddBatch(m, b), b.backend, cutoff) else m;
    assert batches[..i + 1] == batches[..i] + [b];
    forall c: Cell
      ensures LocalAt(next, c) == if c.bucket < cutoff && Touched(batches[..i + 1], kept, c.backend) then 0
                                  else LocalAt(was, c) + PartAt(batches[..i + 1], kept, c)
    {
      AddBatchAt(m, b, c);
      RecentAt(AddBatch(m, b), b.backend, cutoff, c);
      TouchedNext(batches[..i], b, kept, c.backend);
      assert (batches[..i] + [b])[..i] == batches[..i];
    }
  }

  lemma TouchedNext(batches: seq<UsageBatch>, b: UsageBatch, kept: string -> bool, name: string)
    ensures Touched(batches + [b], kept, name) <==> Touched(batches, kept, name) || (kept(name) && b.backend == name)
  {
    var all := batches + [b];
    if j :| 0 <= j < |batches| && batches[j].backend == name {
      assert all[j].backend == name;
    }
    if b.backend == name {
      assert all[|batches|].backend == name;
    }
  }

  lemma LandsOwn(m: Counters, was: Counters, batches: seq<UsageBatch>, kept: string -> bool, cutoff: int, taken: Counters,
                 k: BucketKey, f: Field)
    requires Lands(m, was, batches, kept, cutoff) && IsTakeOf(taken, batches)
    ensures Held(m, k).At(f)
         == if k.bucket < cutoff && Touched(batches, kept, k.backend) then 0
            else Held(was, k).At(f) + if kept(k.backend) then Held(taken, k).At(f) else 0
  {
    var c := Cell(k.backend, k.bucket, k.workload, f);
    assert KeyOf(c) == k;
    PartIsWhole(batches, kept, c);
    assert LocalAt(m, c) == if c.bucket < cutoff && Touched(batches, kept, c.backend) then 0
                            else LocalAt(was, c) + PartAt(batches, kept, c);
  }

  /** What a flush did to one backend: nothing, or everything. */
  lemma FlushMoves(counters: Counters, stored: Counters, left: Counters, total: Counters, batches: seq<UsageBatch>,
                   fails: string -> bool, cutoff: int, name: string)
    requires IsTakeOf(counters, batches) && Gains(left, map[], batches, fails)
    requires Lands(total, stored, batches, Succeeds(fails), cutoff)
    ensures fails(name) ==> Alike(name, counters, left) && Alike(name, stored, total)
    ensures !fails(name) ==> Moved(name, counters, stored, left, total, cutoff)
  {
    forall k: BucketKey, f: Field | k.backend == name
      ensures Held(left, k).At(f) == if fails(name) then Held(counters, k).At(f) else 0
      ensures Held(total, k).At(f)
           == if k.bucket < cutoff && Touched(batches, Succeeds(fails), name) then 0
              else Held(stored, k).At(f) + if fails(name) then 0 else Held(counters, k).At(f)
    {
      GainsOwn(left, map[], batches, fails, counters, k, f);
      LandsOwn(total, stored, batches, Succeeds(fails), cutoff, counters, k, f);
    }
  }

  class UsageStore {
    var applied: Counters

    /** Adds a batch to the rows and drops its backend's old buckets. */
    method ApplyUsageBatch(b: UsageBatch, fails: bool, now: int) returns (ok: bool)
      modifies this
      ensures ok <==> !fails
      ensures applied == if ok then Recent(AddBatch(old(applied), b), b.backend, now - USAGE_RETENTION) else old(applied)
    {
      ok := !fails;
      if ok {
        applied := Recent(AddBatch(applied, b), b.backend, now - USAGE_RETENTION);
      }
    }
  }

  class UsageTracker {
    const backend: LocalCounterBackend
    const periods: string -> Period
    var limits: map<string, Limits>
    var baselines: map<string, Baseline>

    constructor (backend: LocalCounterBackend, periods: string -> Period, limits: map<string, Limits>)
      ensures this.backend == backend && this.periods == periods
      ensures this.limits == limits && baselines == map[]
    {
      this.backend, this.periods := backend, periods;
      this.limits, baselines := limits, map[];
    }

    function LimitsOf(name: string): Limits
      reads this
    {
      if name in limits then limits[name] else Limits(0, 0, [])
    }

    /** The baseline a check of a backend uses now. */
    function Judged(name: string, now: int): (Usage, Cycle)
      reads this
    {
      if name in baselines then At(baselines[name], periods(name), now)
      else (ZERO, periods(name).cycleAt(now))
    }

    /** What a check of a backend sees as used. */
    ghost function SeenAt(name: string, now: int): Field -> int
      reads this, backend
    {
      var (base, cycle) := Judged(name, now);
      var counters := backend.counters;
      f => base.At(f) + LoadAt(counters, name, cycle.start, f)
    }

    /** Charges one call to a backend. */
    method Record(name: string, op: string, egress: int, ingress: int, workload: string, now: int)
      modifies backend
      ensures backend.counters
           == if name !in backend.backends then old(backend.counters)
              else ChargeLocal(old(backend.counters), name, Bucket(now),
                               CallCharge(LimitsOf(name), op, egress, ingress, workload))
    {
      backend.Charge(name, Bucket(now), CallCharge(LimitsOf(name), op, egress, ingress, workload));
    }

    /** Whether one call of an operation stays within every bounded dimension. */
    method WithinLimits(name: string, op: string, egress: int, ingress: int, now: int) returns (ok: bool)
      ensures ok <==> Unlimited(LimitsOf(name)) || Fits(LimitsOf(name), SeenAt(name, now), op, egress, ingress)
    {
      if name !in limits || Unlimited(limits[name]) {
        return true;
      }
      var lim := limits[name];
      var (base, cycle) := Judged(name, now);
      var cur := backend.Load(name, cycle.start, ZERO);
      assert forall f: Field :: SeenAt(name, now)(f) == base.At(f) + cur.At(f);
      if lim.egress > 0 && base.egress + cur.egress + egress > lim.egress {
        assert SeenAt(name, now)(EgressBytes) == base.At(EgressBytes) + cur.At(EgressBytes);
        return false;
      }
      if lim.ingress > 0 && base.ingress + cur.ingress + ingress > lim.ingress {
        assert SeenAt(name, now)(IngressBytes) == base.At(IngressBytes) + cur.At(IngressBytes);
        return false;
      }
      ok := PoolsFit(lim, op, base, cur, SeenAt(name, now));
    }

    /** Writes every batch of counters to the store; a batch it does not apply is
        kept for the next flush. */
    method FlushUsage(store: UsageStore, fails: string -> bool, now: int) returns (ok: bool)
      modifies backend, store
      ensures forall name :: fails(name) ==>
                && Alike(name, old(backend.counters), backend.counters)
                && Alike(name, old(store.applied), store.applied)
      ensures forall name :: !fails(name) ==>
                Moved(name, old(backend.counters), old(store.applied), backend.counters, store.applied, now - USAGE_RETENTION)
      ensures (forall name :: !fails(name)) ==> ok
      ensures ok ==> forall c: Cell :: LocalAt(backend.counters, c) == 0
    {
      ghost var cutoff := now - USAGE_RETENTION;
      var batches := backend.Take();
      ok := true;
      for i := 0 to |batches|
        invariant ok <==> forall j :: 0 <= j < i ==> !fails(batches[j].backend)
        invariant Gains(backend.counters, map[], batches[..i], fails)
        invariant Lands(store.applied, old(store.applied), batches[..i], Succeeds(fails), cutoff)
      {
        GainsNext(backend.counters, map[], batches, i, fails);
        LandsNext(store.applied, old(store.applied), batches, i, Succeeds(fails), cutoff);
        var applied := store.ApplyUsageBatch(batches[i], fails(batches[i].backend), now);
        backend.Settle(batches[i], applied);
        ok := ok && applied;
      }
      assert batches[..|batches|] == batches;
      if ok {
        forall c: Cell
          ensures LocalAt(backend.counters, c) == 0
        {
          PartOfNone(batches, fails, c);
          assert LocalAt(backend.counters, c) == LocalAt(map[], c) + PartAt(batches, fails, c);
        }
      }
      forall name: string
        ensures fails(name) ==>
                  && Alike(name, old(backend.counters), backend.counters)
                  && Alike(name, old(store.applied), store.applied)
        ensures !fails(name) ==>
                  Moved(name, old(backend.counters), old(store.applied), backend.counters, store.applied, cutoff)
      {
        FlushMoves(old(backend.counters), old(store.applied), backend.counters, store.applied, batches, fails, cutoff, name);
      }
    }

    /** Makes what was read the new baselines; with nothing read, the old ones stay. */
    method RefreshUsage(names: set<string>, read: Option<map<string, Usage>>, now: int) returns (ok: bool)
      modifies this`baselines
      ensures ok <==> read.Some?
      ensures !ok ==> baselines == old(baselines)
      ensures ok ==> baselines.Keys == names
      ensures ok ==> forall name :: name in names ==>
                baselines[name] == Baseline(if name in read.value then read.value[name] else ZERO, periods(name).cycleAt(now))
    {
      if read.None? {
        return false;
      }
      var totals := read.value;
      var rest := names;
      var built: map<string, Baseline> := map[];
      while rest != {}
        invariant rest <= names && built.Keys == names - rest
        invariant forall name :: name in built ==>
                    built[name] == Baseline(if name in totals then totals[name] else ZERO, periods(name).cycleAt(now))
        decreases rest
      {
        var name :| name in rest;
        built := built[name := Baseline(if name in totals then totals[name] else ZERO, periods(name).cycleAt(now))];
        rest := rest - {name};
      }
      baselines := built;
      return true;
    }
  }

  /** Whether every bounded pool an operation charges has room for it. */
  method PoolsFit(lim: Limits, op: string, base: Usage, cur: Usage, ghost used: Field -> int) returns (ok: bool)
    requires forall f: Field :: used(f) == base.At(f) + cur.At(f)
    ensures ok <==> forall i :: 0 <= i < |lim.pools| ==> PoolFits(lim, used, op, i)
  {
    for i := 0 to |lim.pools|
      invariant forall j :: 0 <= j < i ==> PoolFits(lim, used, op, j)
    {
      var pool := lim.pools[i];
      var charge := PoolCharge(lim, op, pool.name);
      assert used(Pool(pool.name)) == base.At(Pool(pool.name)) + cur.At(Pool(pool.name));
      if pool.limit > 0 && charge > 0 && Get(base.pools, pool.name) + Get(cur.pools, pool.name) + charge > pool.limit {
        assert !PoolFits(lim, used, op, i);
        return false;
      }
    }
    return true;
  }
}
