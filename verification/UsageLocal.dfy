/** Usage counters held in this process: what a charge adds, the counters a
    flush takes and gives back, and the counters a limit check reads. Models
    internal/counter/local.go, internal/counter/registry.go and the usage
    records of internal/store/core/usagelimits.go. The registry is a map that
    Charge fills and Take swaps out whole. */
module UsageLocal {
  import opened Common
  import opened UsageNames

  /** A set of counters: calls, bytes each way, and calls per pool. */
  datatype Usage = Usage(api: int, egress: int, ingress: int, pools: map<string, int>) {
    function At(f: Field): int {
      match f
      case ApiRequests => api
      case EgressBytes => egress
      case IngressBytes => ingress
      case Pool(name) => Get(pools, name)
    }

    function AddPool(name: string, n: int): Usage {
      this.(pools := pools[name := Get(pools, name) + n])
    }

    function AddStat(a: int, e: int, i: int): Usage {
      this.(api := api + a, egress := egress + e, ingress := ingress + i)
    }

    function Plus(o: Usage): Usage {
      Usage(api + o.api, egress + o.egress, ingress + o.ingress,
            map n | n in pools.Keys + o.pools.Keys :: Get(pools, n) + Get(o.pools, n))
    }

    predicate IsZero() {
      api == 0 && egress == 0 && ingress == 0 && forall n | n in pools :: pools[n] == 0
    }
  }

  const ZERO := Usage(0, 0, 0, map[])

  /** What one call adds; a pool counts once for each time it is listed. */
  datatype Charge = Charge(api: int, egress: int, ingress: int, workload: string, pools: seq<string>, poolN: int) {
    predicate Empty() {
      api <= 0 && egress <= 0 && ingress <= 0 && (pools == [] || poolN <= 0)
    }
  }

  /** One counter's coordinates. */
  datatype Cell = Cell(backend: string, bucket: int, workload: string, field: Field)

  datatype BucketKey = BucketKey(bucket: int, backend: string, workload: string)

  type Counters = map<BucketKey, Usage>

  /** A backend's counters on their way to the store; only one from Redis has an ID. */
  datatype UsageBatch = UsageBatch(id: string, backend: string, buckets: map<(int, string), Usage>)

  function KeyOf(c: Cell): BucketKey {
    BucketKey(c.bucket, c.backend, c.workload)
  }

  function Held(m: Counters, k: BucketKey): Usage {
    if k in m then m[k] else ZERO
  }

  /** The counter at one cell of the local counters. */
  function LocalAt(m: Counters, c: Cell): int {
    Held(m, KeyOf(c)).At(c.field)
  }

  /** The counter at one cell of a batch. */
  function BatchAt(b: UsageBatch, c: Cell): int {
    if b.backend == c.backend && (c.bucket, c.workload) in b.buckets
    then b.buckets[(c.bucket, c.workload)].At(c.field) else 0
  }

  function BatchesAt(bs: seq<UsageBatch>, c: Cell): int {
    if bs == [] then 0 else BatchesAt(bs[..|bs| - 1], c) + BatchAt(bs[|bs| - 1], c)
  }

  // ---------------------------------------------------------------------
  // What a charge adds
  // ---------------------------------------------------------------------

  /** What charging n to each listed pool adds to the named one. */
  function PoolDelta(pools: seq<string>, n: int, name: string): int {
    if pools == [] then 0
    else PoolDelta(pools[..|pools| - 1], n, name) + (if pools[|pools| - 1] == name then n else 0)
  }

  function AddPools(u: Usage, pools: seq<string>, n: int): Usage {
    if pools == [] then u
    else AddPools(u, pools[..|pools| - 1], n).AddPool(pools[|pools| - 1], n)
  }

  /** What a charge adds to the local counters at one field. */
  function LocalDelta(c: Charge, f: Field): int {
    if c.Empty() then 0
    else match f
         case ApiRequests => c.api
         case EgressBytes => c.egress
         case IngressBytes => c.ingress
         case Pool(name) => if c.poolN <= 0 then 0 else PoolDelta(c.pools, c.poolN, name)
  }

  /** The counters after a charge that names a tracked backend. */
  function ChargeLocal(m: Counters, backend: string, bucket: int, c: Charge): Counters {
    if c.Empty() then m
    else
      var k := BucketKey(bucket, backend, c.workload);
      var u := Held(m, k).AddStat(c.api, c.egress, c.ingress);
      m[k := if c.poolN <= 0 then u else AddPools(u, c.pools, c.poolN)]
  }

  lemma {:induction false} AddPoolsAt(u: Usage, pools: seq<string>, n: int, f: Field)
    ensures AddPools(u, pools, n).At(f)
         == u.At(f) + (if f.Pool? then PoolDelta(pools, n, f.name) else 0)
  {
    if pools != [] {
      AddPoolsAt(u, pools[..|pools| - 1], n, f);
    }
  }

  /** A charge moves exactly its own cells, each by the charged amount. */
  lemma ChargeLocalAt(m: Counters, backend: string, bucket: int, c: Charge, cell: Cell)
    ensures LocalAt(ChargeLocal(m, backend, bucket, c), cell)
         == LocalAt(m, cell)
            + if cell.backend == backend && cell.bucket == bucket && cell.workload == c.workload
              then LocalDelta(c, cell.field) else 0
  {
    var k := BucketKey(bucket, backend, c.workload);
    AddPoolsAt(Held(m, k).AddStat(c.api, c.egress, c.ingress), c.pools, c.poolN, cell.field);
  }

  // ---------------------------------------------------------------------
  // Taking and giving back
  // ---------------------------------------------------------------------

  function BatchKeys(b: UsageBatch): set<BucketKey> {
    set w | w in b.buckets :: BucketKey(w.0, b.backend, w.1)
  }

  /** One key's counters after a batch is added back to them. */
  function WithBatch(m: Counters, b: UsageBatch, k: BucketKey): Usage {
    if k.backend == b.backend && (k.bucket, k.workload) in b.buckets
    then Held(m, k).Plus(b.buckets[(k.bucket, k.workload)]) else Held(m, k)
  }

  /** Counters with a batch added: what a flush returns, and what the store applies. */
  function AddBatch(m: Counters, b: UsageBatch): Counters {
    map k | k in m.Keys + BatchKeys(b) :: WithBatch(m, b, k)
  }

  lemma AddBatchAt(m: Counters, b: UsageBatch, c: Cell)
    ensures LocalAt(AddBatch(m, b), c) == LocalAt(m, c) + BatchAt(b, c)
  {
    var k := KeyOf(c);
    assert k in BatchKeys(b) <==> b.backend == c.backend && (c.bucket, c.workload) in b.buckets by {
      if b.backend == c.backend && (c.bucket, c.workload) in b.buckets {
        var w := (c.bucket, c.workload);
        assert BucketKey(w.0, b.backend, w.1) == k;
      }
    }
  }

  /** Counters without one backend's buckets before a cutoff. */
  function Recent(m: Counters, backend: string, cutoff: int): Counters {
    map k | k in m && !(k.backend == backend && k.bucket < cutoff) :: m[k]
  }

  lemma RecentAt(m: Counters, backend: string, cutoff: int, c: Cell)
    ensures LocalAt(Recent(m, backend, cutoff), c)
         == if c.backend == backend && c.bucket < cutoff then 0 else LocalAt(m, c)
  {
    var k := KeyOf(c);
    assert k.backend == c.backend && k.bucket == c.bucket;
  }

  lemma BatchKeysStep(b: UsageBatch, w: (int, string), u: Usage)
    ensures BatchKeys(b.(buckets := b.buckets[w := u])) == BatchKeys(b) + {BucketKey(w.0, b.backend, w.1)}
  {
    var after := b.(buckets := b.buckets[w := u]);
    forall k | k in BatchKeys(b) ensures k in BatchKeys(after) {
      var v :| v in b.buckets && k == BucketKey(v.0, b.backend, v.1);
      assert v in after.buckets;
    }
    assert w in after.buckets;
  }

  lemma AddBatchStep(m: Counters, b: UsageBatch, w: (int, string), u: Usage)
    requires w !in b.buckets
    ensures
      var k := BucketKey(w.0, b.backend, w.1);
      var before := AddBatch(m, b);
      AddBatch(m, b.(buckets := b.buckets[w := u])) == before[k := Held(before, k).Plus(u)]
  {
    var k := BucketKey(w.0, b.backend, w.1);
    var after := b.(buckets := b.buckets[w := u]);
    BatchKeysStep(b, w, u);
    assert (k.bucket, k.workload) == w;
    assert WithBatch(m, b, k) == Held(m, k);
    assert WithBatch(m, after, k) == Held(m, k).Plus(u);
    forall j: BucketKey | j != k ensures WithBatch(m, after, j) == WithBatch(m, b, j) {
      assert j.backend == b.backend ==> (j.bucket, j.workload) != w;
    }
  }

  /** What a Take of the counters m may hand out: batches with no ID, at most
      one per backend, that carry every counter of m exactly once. */
  ghost predicate IsTakeOf(m: Counters, bs: seq<UsageBatch>) {
    && (forall i :: 0 <= i < |bs| ==> bs[i].id == "")
    && (forall i, j :: 0 <= i < j < |bs| ==> bs[i].backend != bs[j].backend)
    && (forall c: Cell :: BatchesAt(bs, c) == LocalAt(m, c))
  }

  // ---------------------------------------------------------------------
  // Loading
  // ---------------------------------------------------------------------

  ghost function InWindow(m: Counters, backend: string, since: int, f: Field): map<BucketKey, int> {
    map k | k in m && k.backend == backend && k.bucket >= since :: m[k].At(f)
  }

  /** A backend's unflushed total at one field in buckets from since onward. */
  ghost function LoadAt(m: Counters, backend: string, since: int, f: Field): int {
    Sum(InWindow(m, backend, since, f))
  }

  lemma InWindowStep(m: Counters, k: BucketKey, u: Usage, backend: string, since: int, f: Field)
    ensures LoadAt(m[k := u], backend, since, f) == LoadAt(m, backend, since, f)
      + if k.backend == backend && k.bucket >= since then u.At(f) - Held(m, k).At(f) else 0
  {
    if k.backend == backend && k.bucket >= since {
      assert InWindow(m[k := u], backend, since, f) == InWindow(m, backend, since, f)[k := u.At(f)];
      SumUpdate(InWindow(m, backend, since, f), k, u.At(f));
    } else {
      assert InWindow(m[k := u], backend, since, f) == InWindow(m, backend, since, f);
    }
  }

  class LocalCounterBackend {
    const backends: seq<string>
    var counters: Counters

    constructor (names: seq<string>)
      ensures backends == names && counters == map[]
    {
      backends := names;
      counters := map[];
    }

    /** Counts a charge, if its backend is one of those tracked. */
    method Charge(backend: string, bucket: int, c: Charge)
      modifies this
      ensures counters == if backend in backends then ChargeLocal(old(counters), backend, bucket, c)
                          else old(counters)
    {
      if c.Empty() || backend !in backends {
        return;
      }
      var k := BucketKey(bucket, backend, c.workload);
      var u := Held(counters, k).AddStat(c.api, c.egress, c.ingress);
      ghost var start := u;
      if c.poolN > 0 {
        for i := 0 to |c.pools|
          invariant u == AddPools(start, c.pools[..i], c.poolN)
        {
          assert c.pools[..i + 1][..i] == c.pools[..i];
          u := u.AddPool(c.pools[i], c.poolN);
        }
        assert c.pools[..|c.pools|] == c.pools;
      }
      counters := counters[k := u];
    }

    /** Gives away everything counted, backend by backend, and starts over. */
    method Take() returns (batches: seq<UsageBatch>)
      modifies this
      ensures counters == map[]
      ensures IsTakeOf(old(counters), batches)
    {
      var taken := counters;
      counters := map[];
      var grouped := Group(taken);
      batches := [];
      var rest := grouped.Keys;
      while rest != {}
        invariant rest <= grouped.Keys
        invariant forall i :: 0 <= i < |batches| ==> batches[i].id == "" && batches[i].backend in grouped.Keys - rest
        invariant forall i, j :: 0 <= i < j < |batches| ==> batches[i].backend != batches[j].backend
        invariant forall c: Cell :: BatchesAt(batches, c) == if c.backend in rest then 0 else GroupAt(grouped, c)
        decreases rest
      {
        var backend :| backend in rest;
        var b := UsageBatch("", backend, grouped[backend]);
        assert (batches + [b])[..|batches|] == batches;
        batches := batches + [b];
        rest := rest - {backend};
      }
      assert forall c: Cell :: BatchesAt(batches, c) == GroupAt(grouped, c) == LocalAt(taken, c);
    }

    /** Returns an unapplied batch to the counters it was taken from. */
    method Settle(b: UsageBatch, applied: bool)
      modifies this
      ensures counters == if applied then old(counters) else AddBatch(old(counters), b)
    {
      if applied {
        return;
      }
      ghost var start := counters;
      var rest := b.buckets.Keys;
      while rest != {}
        invariant rest <= b.buckets.Keys
        invariant counters == AddBatch(start, UsageBatch("", b.backend, b.buckets - rest))
        decreases rest
      {
        var w :| w in rest;
        var k := BucketKey(w.0, b.backend, w.1);
        AddBatchStep(start, UsageBatch("", b.backend, b.buckets - rest), w, b.buckets[w]);
        assert b.buckets - (rest - {w}) == (b.buckets - rest)[w := b.buckets[w]];
        counters := counters[k := Held(counters, k).Plus(b.buckets[w])];
        rest := rest - {w};
      }
      assert b.buckets - rest == b.buckets;
    }

    /** Adds the backend's unflushed counters from since onward to u. */
    method Load(backend: string, since: int, u: Usage) returns (r: Usage)
      ensures forall f: Field :: r.At(f) == u.At(f) + LoadAt(counters, backend, since, f)
    {
      r := u;
      var done: Counters := map[];
      var rest := counters.Keys;
      while rest != {}
        invariant rest <= counters.Keys
        invariant done == counters - rest
        invariant forall f: Field :: r.At(f) == u.At(f) + LoadAt(done, backend, since, f)
        decreases rest
      {
        var k :| k in rest;
        forall f: Field {
          InWindowStep(done, k, counters[k], backend, since, f);
        }
        if k.backend == backend && k.bucket >= since {
          r := r.Plus(counters[k]);
        }
        done := done[k := counters[k]];
        rest := rest - {k};
      }
      assert done == counters;
    }
  }

  type Grouped = map<string, map<(int, string), Usage>>

  function GroupAt(g: Grouped, c: Cell): int {
    if c.backend in g then BatchAt(UsageBatch("", c.backend, g[c.backend]), c) else 0
  }

  function AddGrouped(g: Grouped, k: BucketKey, u: Usage): Grouped {
    var buckets := if k.backend in g then g[k.backend] else map[];
    g[k.backend := buckets[(k.bucket, k.workload) := u]]
  }

  lemma GroupStep(g: Grouped, done: Counters, k: BucketKey, u: Usage, c: Cell)
    requires k !in done
    requires forall b, w :: b in g && w in g[b] ==> BucketKey(w.0, b, w.1) in done
    requires GroupAt(g, c) == LocalAt(done, c)
    ensures GroupAt(if u.IsZero() then g else AddGrouped(g, k, u), c) == LocalAt(done[k := u], c)
  {
    if KeyOf(c) == k && c.field.Pool? {
      assert u.IsZero() ==> Get(u.pools, c.field.name) == 0;
    }
  }

  /** Groups counters by backend, leaving out the ones that carry nothing. */
  method Group(m: Counters) returns (g: Grouped)
    ensures forall c: Cell :: GroupAt(g, c) == LocalAt(m, c)
  {
    g := map[];
    var done: Counters := map[];
    var rest := m.Keys;
    while rest != {}
      invariant rest <= m.Keys
      invariant done == m - rest
      invariant forall b, w :: b in g && w in g[b] ==> BucketKey(w.0, b, w.1) in done
      invariant forall c: Cell :: GroupAt(g, c) == LocalAt(done, c)
      decreases rest
    {
      var k :| k in rest;
      var u := m[k];
      var next := if u.IsZero() then g else AddGrouped(g, k, u);
      var next' := done[k := u];
      forall c: Cell ensures GroupAt(next, c) == LocalAt(next', c) {
        GroupStep(g, done, k, u, c);
      }
      g, done := next, next';
      rest := rest - {k};
    }
    assert done == m;
  }
}
