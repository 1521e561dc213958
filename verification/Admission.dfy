/** Usage limits on one local instance: a call is admitted when what is flushed
    plus what is not, plus the call, stays within every bounded dimension. Models
    internal/counter/tracker.go with the limits of
    internal/store/core/usagelimits.go and the cycles of
    internal/store/core/usageperiod.go. */
module Admission {
  import opened Common
  import opened UsageNames
  import opened UsageLocal

  const HOUR: int := 3_600_000_000_000

  /** How long the store keeps a bucket. */
  const USAGE_RETENTION: int := 2400 * HOUR

  /** The start of the bucket a time falls in. */
  function Bucket(now: int): int {
    now - now % HOUR
  }

  // ---------------------------------------------------------------------
  // Limits
  // ---------------------------------------------------------------------

  /** A budget for some operations; at limit zero it is only counted. */
  datatype RequestPool = RequestPool(name: string, limit: int, operations: set<string>)

  datatype Limits = Limits(egress: int, ingress: int, pools: seq<RequestPool>)

  /** The names of the pools one operation charges, in order. */
  function PoolsFor(pools: seq<RequestPool>, op: string): seq<string> {
    if pools == [] then []
    else
      var front, last := PoolsFor(pools[..|pools| - 1], op), pools[|pools| - 1];
      if op in last.operations then front + [last.name] else front
  }

  function CallCharge(lim: Limits, op: string, egress: int, ingress: int, workload: string): Charge {
    Charge(1, egress, ingress, workload, PoolsFor(lim.pools, op), 1)
  }

  /** How many times an operation charges the named pool. */
  method PoolCharge(lim: Limits, op: string, pool: string) returns (n: int)
    ensures n == PoolDelta(PoolsFor(lim.pools, op), 1, pool)
  {
    var names := PoolsFor(lim.pools, op);
    n := 0;
    for i := 0 to |names|
      invariant n == PoolDelta(names[..i], 1, pool)
    {
      assert names[..i + 1][..i] == names[..i];
      if names[i] == pool {
        n := n + 1;
      }
    }
    assert names[..|names|] == names;
  }

  /** Whether a backend has no enforceable limit. */
  predicate Unlimited(lim: Limits) {
    lim.egress <= 0 && lim.ingress <= 0 && forall i :: 0 <= i < |lim.pools| ==> lim.pools[i].limit <= 0
  }

  /** Whether every bounded pool an operation charges has room for it. */
  predicate PoolFits(lim: Limits, used: Field -> int, op: string, i: nat)
    requires i < |lim.pools|
  {
    var pool := lim.pools[i];
    var charge := PoolDelta(PoolsFor(lim.pools, op), 1, pool.name);
    pool.limit > 0 && charge > 0 ==> used(Pool(pool.name)) + charge <= pool.limit
  }

  predicate Fits(lim: Limits, used: Field -> int, op: string, egress: int, ingress: int) {
    && (lim.egress > 0 ==> used(EgressBytes) + egress <= lim.egress)
    && (lim.ingress > 0 ==> used(IngressBytes) + ingress <= lim.ingress)
    && (forall i :: 0 <= i < |lim.pools| ==> PoolFits(lim, used, op, i))
  }

  /** A figure within every bound on its dimension. */
  predicate Bounded(lim: Limits, f: Field, total: int) {
    match f
    case ApiRequests => true
    case EgressBytes => lim.egress > 0 ==> total <= lim.egress
    case IngressBytes => lim.ingress > 0 ==> total <= lim.ingress
    case Pool(name) =>
      forall i :: 0 <= i < |lim.pools| && lim.pools[i].name == name && lim.pools[i].limit > 0 ==>
        total <= lim.pools[i].limit
  }

  lemma {:induction false} PoolDeltaNat(pools: seq<string>, name: string)
    ensures PoolDelta(pools, 1, name) >= 0
  {
    if pools != [] {
      PoolDeltaNat(pools[..|pools| - 1], name);
    }
  }

  /** An admitted call keeps within bounds what no more than was seen is used of. */
  lemma FitsKeepsBound(lim: Limits, used: Field -> int, op: string, egress: int, ingress: int, workload: string,
                       f: Field, total: int)
    requires Fits(lim, used, op, egress, ingress) && total <= used(f) && Bounded(lim, f, total)
    ensures Bounded(lim, f, total + LocalDelta(CallCharge(lim, op, egress, ingress, workload), f))
  {
    if f.Pool? {
      PoolDeltaNat(PoolsFor(lim.pools, op), f.name);
      forall i | 0 <= i < |lim.pools| && lim.pools[i].name == f.name && lim.pools[i].limit > 0
        ensures total + PoolDelta(PoolsFor(lim.pools, op), 1, f.name) <= lim.pools[i].limit
      {
        assert PoolFits(lim, used, op, i);
      }
    }
  }

  // ---------------------------------------------------------------------
  // Loads
  // ---------------------------------------------------------------------

  /** A backend's counters are non-negative, and zero in buckets from end on. */
  ghost predicate Before(m: Counters, backend: string, end: int) {
    forall k: BucketKey, f: Field :: k.backend == backend ==>
      Held(m, k).At(f) >= 0 && (k.bucket >= end ==> Held(m, k).At(f) == 0)
  }

  lemma LoadEmpty(m: Counters, backend: string, since: int, f: Field)
    requires Before(m, backend, since)
    ensures LoadAt(m, backend, since, f) == 0
  {
    var window := InWindow(m, backend, since, f);
    forall k | k in window
      ensures window[k] == 0
    {
      assert window[k] == Held(m, k).At(f);
    }
    SumZeros(window);
  }

  lemma {:induction false} SumShrinks<K>(m: map<K, int>, n: map<K, int>)
    requires forall k :: k in n ==> k in m && n[k] == m[k]
    requires forall k :: k in m ==> m[k] >= 0
    ensures Sum(n) <= Sum(m)
    decreases |m|
  {
    if m == map[] {
      assert n == map[];
    } else {
      var k :| k in m;
      SumTakeOut(m, k);
      if k in n {
        SumTakeOut(n, k);
      } else {
        assert n - {k} == n;
      }
      SumShrinks(m - {k}, n - {k});
    }
  }

  /** A later window loads no more. */
  lemma LoadShrinks(m: Counters, backend: string, since: int, later: int, end: int, f: Field)
    requires since <= later && Before(m, backend, end)
    ensures LoadAt(m, backend, later, f) <= LoadAt(m, backend, since, f)
  {
    var window := InWindow(m, backend, since, f);
    forall k | k in window
      ensures window[k] >= 0
    {
      assert window[k] == Held(m, k).At(f);
    }
    SumShrinks(window, InWindow(m, backend, later, f));
  }

  lemma {:induction false} SumAdds<K>(a: map<K, int>, b: map<K, int>, sum: map<K, int>, keys: set<K>)
    requires a.Keys <= keys && b.Keys <= keys && sum.Keys <= keys
    requires forall k :: k in keys ==> Get(sum, k) == Get(a, k) + Get(b, k)
    ensures Sum(sum) == Sum(a) + Sum(b)
    decreases keys
  {
    if keys == {} {
      assert a == map[] && b == map[] && sum == map[];
    } else {
      var k :| k in keys;
      SumRemove(a, k);
      SumRemove(b, k);
      SumRemove(sum, k);
      SumAdds(a - {k}, b - {k}, sum - {k}, keys - {k});
    }
  }

  lemma InWindowAt(m: Counters, backend: string, since: int, f: Field, k: BucketKey)
    ensures Get(InWindow(m, backend, since, f), k)
         == if k.backend == backend && k.bucket >= since then Held(m, k).At(f) else 0
  {
  }

  /** Counters that add up key by key load up to the sum. */
  lemma LoadAdds(a: Counters, b: Counters, sum: Counters, backend: string, since: int, f: Field)
    requires forall k: BucketKey :: k.backend == backend && k.bucket >= since ==>
               Held(sum, k).At(f) == Held(a, k).At(f) + Held(b, k).At(f)
    ensures LoadAt(sum, backend, since, f) == LoadAt(a, backend, since, f) + LoadAt(b, backend, since, f)
  {
    forall k: BucketKey
      ensures Get(InWindow(sum, backend, since, f), k)
           == Get(InWindow(a, backend, since, f), k) + Get(InWindow(b, backend, since, f), k)
    {
      InWindowAt(a, backend, since, f, k);
      InWindowAt(b, backend, since, f, k);
      InWindowAt(sum, backend, since, f, k);
    }
    SumAdds(InWindow(a, backend, since, f), InWindow(b, backend, since, f), InWindow(sum, backend, since, f),
            a.Keys + b.Keys + sum.Keys);
  }

  // ---------------------------------------------------------------------
  // One backend over its cycles
  // ---------------------------------------------------------------------

  /** A backend's limits and the instants its usage resets at. */
  datatype World = World(backend: string, lim: Limits, resets: nat -> int)

  ghost predicate Calendar(resets: nat -> int) {
    forall i, j :: i < j ==> resets(i) < resets(j)
  }

  /** No cycle is longer than the store keeps a bucket, as no month is. */
  ghost predicate Kept(resets: nat -> int) {
    forall i, j :: j == i + 1 ==> resets(j) - resets(i) <= USAGE_RETENTION
  }

  /** The resets fall on bucket boundaries. */
  ghost predicate Aligned(resets: nat -> int) {
    forall i :: resets(i) % HOUR == 0
  }

  /** The clock and the cycle it is in; the counters not flushed and those the
      store holds; the baseline and the cycle it was read in, stale between a
      flush and the refresh after it; and, as a history, what was spent since
      the cycle began. */
  datatype State = State(
    now: int, cycle: nat, counters: Counters, stored: Counters,
    base: Usage, baseCycle: nat, stale: bool, spent: Usage)

  datatype Step =
    | Advance(to: int, cycle: nat)
    | Call(op: string, egress: nat, ingress: nat, workload: string)
    | Flush(counters: Counters, stored: Counters)
    | FailedFlush(counters: Counters)
    | Refresh(base: Usage)

  /** The baseline as the clock now reads it: as stored before its cycle's reset,
      and a fresh cycle's zero from then on. */
  function BaselineAt(w: World, s: State): (Usage, int) {
    if s.now < w.resets(s.baseCycle + 1) then (s.base, w.resets(s.baseCycle))
    else (ZERO, w.resets(s.baseCycle + 1))
  }

  /** What a check sees as used. */
  ghost function Seen(w: World, s: State): Field -> int {
    var (base, since) := BaselineAt(w, s);
    f => base.At(f) + LoadAt(s.counters, w.backend, since, f)
  }

  function Charged(u: Usage, c: Charge): Usage {
    AddPools(u.AddStat(c.api, c.egress, c.ingress), c.pools, c.poolN)
  }

  /** Whether counters moved from one place to another and left nothing behind; a
      bucket before the cutoff may have been dropped there. */
  ghost predicate Moved(backend: string, counters: Counters, stored: Counters, left: Counters, total: Counters, cutoff: int) {
    forall k: BucketKey, f: Field :: k.backend == backend ==>
      && Held(left, k).At(f) == 0
      && (|| Held(total, k).At(f) == Held(stored, k).At(f) + Held(counters, k).At(f)
          || (k.bucket < cutoff && Held(total, k).At(f) == 0))
  }

  ghost predicate Alike(backend: string, counters: Counters, other: Counters) {
    forall k: BucketKey, f: Field :: k.backend == backend ==> Held(other, k).At(f) == Held(counters, k).At(f)
  }

  ghost predicate InCycle(w: World, now: int, cycle: nat) {
    w.resets(cycle) <= now < w.resets(cycle + 1)
  }

  ghost predicate IsTotal(w: World, s: State, base: Usage) {
    forall f: Field :: base.At(f) == LoadAt(s.stored, w.backend, w.resets(s.cycle), f)
  }

  ghost predicate Enabled(w: World, s: State, step: Step) {
    match step
    case Advance(to, cycle) => s.now <= to && InCycle(w, to, cycle) && s.cycle <= cycle
    case Call(_, _, _, _) => true
    case Flush(counters, stored) =>
      Moved(w.backend, s.counters, s.stored, counters, stored, s.now - USAGE_RETENTION)
    case FailedFlush(counters) => Alike(w.backend, s.counters, counters)
    case Refresh(base) => IsTotal(w, s, base)
  }

  ghost function Next(w: World, s: State, step: Step): State {
    match step
    case Advance(to, cycle) => s.(now := to, cycle := cycle, spent := if cycle == s.cycle then s.spent else ZERO)
    case Call(op, egress, ingress, workload) =>
      if Fits(w.lim, Seen(w, s), op, egress, ingress) then
        var c := CallCharge(w.lim, op, egress, ingress, workload);
        s.(counters := ChargeLocal(s.counters, w.backend, Bucket(s.now), c), spent := Charged(s.spent, c))
      else s
    case Flush(counters, stored) => s.(counters := counters, stored := stored, stale := true)
    case FailedFlush(counters) => s.(counters := counters)
    case Refresh(base) => s.(base := base, baseCycle := s.cycle, stale := false)
  }

  // ---------------------------------------------------------------------
  // What every step keeps
  // ---------------------------------------------------------------------

  ghost predicate Timed(w: World, s: State) {
    && InCycle(w, s.now, s.cycle) && s.baseCycle <= s.cycle
    && Before(s.counters, w.backend, s.now + 1) && Before(s.stored, w.backend, s.now + 1)
  }

  /** A baseline that is not stale is what the store holds of its cycle, and the
      store holds nothing later. */
  ghost predicate Fresh(w: World, s: State) {
    !s.stale ==>
      && Before(s.stored, w.backend, w.resets(s.baseCycle + 1))
      && forall f: Field :: s.base.At(f) == LoadAt(s.stored, w.backend, w.resets(s.baseCycle), f)
  }

  /** What was spent this cycle is what the store and the counters hold of it. */
  ghost predicate Counted(w: World, s: State) {
    forall f: Field ::
      s.spent.At(f) == LoadAt(s.stored, w.backend, w.resets(s.cycle), f)
                       + LoadAt(s.counters, w.backend, w.resets(s.cycle), f)
  }

  ghost predicate Within(w: World, s: State) {
    forall f: Field :: Bounded(w.lim, f, s.spent.At(f))
  }

  ghost predicate Good(w: World, s: State) {
    Timed(w, s) && Fresh(w, s) && Counted(w, s) && Within(w, s)
  }

  lemma BucketInCycle(now: int, reset: int)
    requires reset % HOUR == 0 && reset <= now
    ensures reset <= Bucket(now) <= now
  {
  }

  lemma BeforeLater(m: Counters, backend: string, end: int, later: int)
    requires Before(m, backend, end) && end <= later
    ensures Before(m, backend, later)
  {
  }

  /** A check on a fresh baseline sees at least what was spent this cycle, even
      with the baseline several cycles old. */
  lemma SeesAllSpent(w: World, s: State, f: Field)
    requires Calendar(w.resets) && Timed(w, s) && Fresh(w, s) && Counted(w, s) && !s.stale
    ensures s.spent.At(f) <= Seen(w, s)(f)
  {
    if s.now < w.resets(s.baseCycle + 1) {
      assert s.baseCycle == s.cycle;
    } else {
      assert s.baseCycle + 1 <= s.cycle;
      var since, later := w.resets(s.baseCycle + 1), w.resets(s.cycle);
      assert since <= later;
      LoadShrinks(s.counters, w.backend, since, later, s.now + 1, f);
      BeforeLater(s.stored, w.backend, since, later);
      LoadEmpty(s.stored, w.backend, later, f);
    }
  }

  lemma AdvanceGood(w: World, s: State, to: int, cycle: nat)
    requires Calendar(w.resets) && Good(w, s) && Enabled(w, s, Advance(to, cycle))
    requires Within(w, s.(spent := ZERO))
    ensures Good(w, Next(w, s, Advance(to, cycle)))
  {
    BeforeLater(s.counters, w.backend, s.now + 1, to + 1);
    BeforeLater(s.stored, w.backend, s.now + 1, to + 1);
    if cycle != s.cycle {
      var reset := w.resets(cycle);
      assert s.now + 1 <= w.resets(s.cycle + 1) <= reset;
      BeforeLater(s.counters, w.backend, s.now + 1, reset);
      BeforeLater(s.stored, w.backend, s.now + 1, reset);
      forall f: Field
        ensures LoadAt(s.stored, w.backend, reset, f) == 0 && LoadAt(s.counters, w.backend, reset, f) == 0
      {
        LoadEmpty(s.stored, w.backend, reset, f);
        LoadEmpty(s.counters, w.backend, reset, f);
      }
    }
  }

  /** What one charge adds to its own bucket it adds to the load of the cycle. */
  lemma ChargeLoads(m: Counters, backend: string, bucket: int, c: Charge, since: int, f: Field)
    requires !c.Empty() && c.poolN > 0 && since <= bucket
    ensures LoadAt(ChargeLocal(m, backend, bucket, c), backend, since, f)
         == LoadAt(m, backend, since, f) + LocalDelta(c, f)
  {
    var k := BucketKey(bucket, backend, c.workload);
    var u := Charged(Held(m, k), c);
    InWindowStep(m, k, u, backend, since, f);
    AddPoolsAt(Held(m, k).AddStat(c.api, c.egress, c.ingress), c.pools, c.poolN, f);
  }

  lemma ChargedAt(u: Usage, c: Charge, f: Field)
    requires !c.Empty() && c.poolN > 0
    ensures Charged(u, c).At(f) == u.At(f) + LocalDelta(c, f)
  {
    AddPoolsAt(u.AddStat(c.api, c.egress, c.ingress), c.pools, c.poolN, f);
  }

  lemma ChargeStaysBefore(m: Counters, backend: string, bucket: int, lim: Limits, op: string, egress: nat, ingress: nat,
                          workload: string, end: int)
    requires Before(m, backend, end) && bucket < end
    ensures Before(ChargeLocal(m, backend, bucket, CallCharge(lim, op, egress, ingress, workload)), backend, end)
  {
    var c := CallCharge(lim, op, egress, ingress, workload);
    var next := ChargeLocal(m, backend, bucket, c);
    forall k: BucketKey, f: Field | k.backend == backend
      ensures Held(next, k).At(f) >= 0 && (k.bucket >= end ==> Held(next, k).At(f) == 0)
    {
      var cell := Cell(k.backend, k.bucket, k.workload, f);
      assert KeyOf(cell) == k;
      ChargeLocalAt(m, backend, bucket, c, cell);
      assert LocalAt(next, cell) == Held(next, k).At(f) && LocalAt(m, cell) == Held(m, k).At(f);
      if f.Pool? {
        PoolDeltaNat(c.pools, f.name);
      }
    }
  }

  lemma CallCounts(w: World, s: State, op: string, egress: nat, ingress: nat, workload: string, f: Field)
    requires Calendar(w.resets) && Aligned(w.resets) && Good(w, s) && !s.stale
    requires Fits(w.lim, Seen(w, s), op, egress, ingress)
    ensures
      var c := CallCharge(w.lim, op, egress, ingress, workload);
      var spent := Charged(s.spent, c).At(f);
      && spent == LoadAt(s.stored, w.backend, w.resets(s.cycle), f)
                  + LoadAt(ChargeLocal(s.counters, w.backend, Bucket(s.now), c), w.backend, w.resets(s.cycle), f)
      && Bounded(w.lim, f, spent)
  {
    var c := CallCharge(w.lim, op, egress, ingress, workload);
    BucketInCycle(s.now, w.resets(s.cycle));
    ChargeLoads(s.counters, w.backend, Bucket(s.now), c, w.resets(s.cycle), f);
    ChargedAt(s.spent, c, f);
    SeesAllSpent(w, s, f);
    FitsKeepsBound(w.lim, Seen(w, s), op, egress, ingress, workload, f, s.spent.At(f));
  }

  /** A call that is charged leaves the store and the baseline alone. */
  lemma ChargeGood(w: World, s: State, counters: Counters, spent: Usage)
    requires Good(w, s) && Before(counters, w.backend, s.now + 1)
    requires forall f: Field ::
      && spent.At(f) == LoadAt(s.stored, w.backend, w.resets(s.cycle), f) + LoadAt(counters, w.backend, w.resets(s.cycle), f)
      && Bounded(w.lim, f, spent.At(f))
    ensures Good(w, s.(counters := counters, spent := spent))
  {
  }

  lemma CallGood(w: World, s: State, op: string, egress: nat, ingress: nat, workload: string)
    requires Calendar(w.resets) && Aligned(w.resets) && Good(w, s) && !s.stale
    ensures Good(w, Next(w, s, Call(op, egress, ingress, workload)))
  {
    if Fits(w.lim, Seen(w, s), op, egress, ingress) {
      var c := CallCharge(w.lim, op, egress, ingress, workload);
      var counters, spent := ChargeLocal(s.counters, w.backend, Bucket(s.now), c), Charged(s.spent, c);
      ChargeStaysBefore(s.counters, w.backend, Bucket(s.now), w.lim, op, egress, ingress, workload, s.now + 1);
      forall f: Field
        ensures spent.At(f) == LoadAt(s.stored, w.backend, w.resets(s.cycle), f)
                               + LoadAt(counters, w.backend, w.resets(s.cycle), f)
        ensures Bounded(w.lim, f, spent.At(f))
      {
        CallCounts(w, s, op, egress, ingress, workload, f);
      }
      ChargeGood(w, s, counters, spent);
    }
  }

  lemma FlushGood(w: World, s: State, counters: Counters, stored: Counters)
    requires Kept(w.resets) && Good(w, s) && Enabled(w, s, Flush(counters, stored))
    ensures Good(w, Next(w, s, Flush(counters, stored)))
  {
    var since := w.resets(s.cycle);
    assert since > s.now - USAGE_RETENTION by {
      assert w.resets(s.cycle + 1) - since <= USAGE_RETENTION;
    }
    assert Before(counters, w.backend, since);
    forall f: Field
      ensures LoadAt(stored, w.backend, since, f) + LoadAt(counters, w.backend, since, f)
           == LoadAt(s.stored, w.backend, since, f) + LoadAt(s.counters, w.backend, since, f)
    {
      LoadAdds(s.stored, s.counters, stored, w.backend, since, f);
      LoadEmpty(counters, w.backend, since, f);
    }
  }

  lemma FailedFlushGood(w: World, s: State, counters: Counters)
    requires Good(w, s) && Enabled(w, s, FailedFlush(counters))
    ensures Good(w, Next(w, s, FailedFlush(counters)))
  {
    var since := w.resets(s.cycle);
    forall f: Field
      ensures LoadAt(counters, w.backend, since, f) == LoadAt(s.counters, w.backend, since, f)
    {
      LoadAdds(s.counters, map[], counters, w.backend, since, f);
      LoadEmpty(map[], w.backend, since, f);
    }
  }

  lemma RefreshGood(w: World, s: State, base: Usage)
    requires Good(w, s) && Enabled(w, s, Refresh(base))
    ensures Good(w, Next(w, s, Refresh(base)))
  {
    BeforeLater(s.stored, w.backend, s.now + 1, w.resets(s.cycle + 1));
  }

  // ---------------------------------------------------------------------
  // Runs
  // ---------------------------------------------------------------------

  /** Runs in which no check falls between a flush and the refresh after it. */
  ghost predicate Reaches(w: World, s: State, steps: seq<Step>, end: State)
    decreases |steps|
  {
    if steps == [] then s == end
    else Enabled(w, s, steps[0]) && (steps[0].Call? ==> !s.stale) && Reaches(w, Next(w, s, steps[0]), steps[1..], end)
  }

  lemma ZeroWithin(w: World, s: State)
    ensures Within(w, s.(spent := ZERO))
  {
  }

  lemma StepGood(w: World, s: State, step: Step)
    requires Calendar(w.resets) && Aligned(w.resets) && Kept(w.resets) && Good(w, s)
    requires Enabled(w, s, step) && (step.Call? ==> !s.stale)
    ensures Good(w, Next(w, s, step))
  {
    match step
    case Advance(to, cycle) =>
      ZeroWithin(w, s);
      AdvanceGood(w, s, to, cycle);
    case Call(op, egress, ingress, workload) => CallGood(w, s, op, egress, ingress, workload);
    case Flush(counters, stored) => FlushGood(w, s, counters, stored);
    case FailedFlush(counters) => FailedFlushGood(w, s, counters);
    case Refresh(base) => RefreshGood(w, s, base);
  }

  /** Sequential admission never overspends: from any state within its limits and
      with a fresh baseline, over any run of checks, records, failed flushes and
      flushes each followed by its refresh before the next check, what is spent in
      a cycle stays within every bounded byte limit and pool. */
  lemma {:induction false} NeverOverspends(w: World, s: State, steps: seq<Step>, end: State)
    requires Calendar(w.resets) && Aligned(w.resets) && Kept(w.resets)
    requires Good(w, s) && Reaches(w, s, steps, end)
    ensures Good(w, end)
    decreases |steps|
  {
    if steps != [] {
      StepGood(w, s, steps[0]);
      NeverOverspends(w, Next(w, s, steps[0]), steps[1..], end);
    }
  }

  function CycleStart(w: World, cycle: nat): State {
    State(w.resets(cycle), cycle, map[], map[], ZERO, cycle, false, ZERO)
  }

  lemma LoadNothing(backend: string, since: int, f: Field)
    ensures LoadAt(map[], backend, since, f) == 0
  {
    LoadEmpty(map[], backend, since, f);
  }

  /** A reset inside a bucket breaks it: calls at the reset are counted in a
      bucket that began before the cycle, so no check of the cycle sees them. */
  lemma MisalignedOverspends(w: World, cycle: nat)
    requires Calendar(w.resets) && w.resets(cycle) % HOUR != 0
    requires w.lim.egress > 0 && w.lim.pools == [] && w.lim.ingress == 0
    ensures
      var call := Call("GetObject", w.lim.egress, 0, "");
      var end := Next(w, Next(w, CycleStart(w, cycle), call), call);
      && Reaches(w, CycleStart(w, cycle), [call, call], end)
      && !Within(w, end)
  {
    var s0 := CycleStart(w, cycle);
    var call := Call("GetObject", w.lim.egress, 0, "");
    assert w.resets(cycle) < w.resets(cycle + 1);
    LoadNothing(w.backend, w.resets(cycle), EgressBytes);
    assert Fits(w.lim, Seen(w, s0), "GetObject", w.lim.egress, 0);
    var s1 := Next(w, s0, call);
    var c := CallCharge(w.lim, "GetObject", w.lim.egress, 0, "");
    var k := BucketKey(Bucket(s0.now), w.backend, "");
    InWindowStep(map[], k, Charged(ZERO, c), w.backend, w.resets(cycle), EgressBytes);
    assert Fits(w.lim, Seen(w, s1), "GetObject", w.lim.egress, 0);
    var s2 := Next(w, s1, call);
    assert [call, call][1..] == [call];
    assert Reaches(w, s1, [call], s2);
    assert s2.spent.At(EgressBytes) == 2 * w.lim.egress;
  }

  /** So does a check between a flush and its refresh: the flushed usage is in
      neither the counters nor the baseline. */
  lemma StaleCheckOverspends(w: World, cycle: nat)
    requires Calendar(w.resets) && Aligned(w.resets)
    requires w.lim.egress > 0 && w.lim.pools == [] && w.lim.ingress == 0
    ensures
      var call := Call("GetObject", w.lim.egress, 0, "");
      var s1 := Next(w, CycleStart(w, cycle), call);
      var flush := Flush(map[], s1.counters);
      var s2 := Next(w, s1, flush);
      && Good(w, s1) && Enabled(w, s1, flush) && s2.stale
      && !Within(w, Next(w, s2, call))
  {
    var s0 := CycleStart(w, cycle);
    assert w.resets(cycle) < w.resets(cycle + 1);
    forall f: Field {
      LoadNothing(w.backend, w.resets(cycle), f);
    }
    assert Good(w, s0);
    CallGood(w, s0, "GetObject", w.lim.egress, 0, "");
    assert Fits(w.lim, Seen(w, s0), "GetObject", w.lim.egress, 0);
    var call := Call("GetObject", w.lim.egress, 0, "");
    var s1 := Next(w, s0, call);
    var s2 := Next(w, s1, Flush(map[], s1.counters));
    assert Fits(w.lim, Seen(w, s2), "GetObject", w.lim.egress, 0);
    assert Next(w, s2, call).spent.At(EgressBytes) == 2 * w.lim.egress;
  }
}
