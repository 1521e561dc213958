/** Usage counters shared through Redis: one hash of string-named fields per
    backend, charged in one transaction and renamed aside for a flush. Models
    the counter half of internal/counter/redis.go. A Redis call either is
    answered or leaves Redis unchanged; the caller says which, and the breaker
    refusing a call is a call not answered. */
module UsageRedis {
  import opened Common
  import opened UsageNames
  import opened UsageLocal

  type Hash = map<string, int>

  type Keys = map<string, Hash>

  /** The counters a field name can carry without ambiguity. */
  predicate Nameable(bucket: int, workload: string) {
    MIN_INT64 <= bucket <= MAX_INT64 && ':' !in workload
  }

  function HashAt(h: Hash, c: Cell): int {
    Get(h, FieldName(c.bucket, c.workload, c.field))
  }

  // ---------------------------------------------------------------------
  // Charging
  // ---------------------------------------------------------------------

  /** HINCRBY, sent only for a positive amount. */
  function Incr(h: Hash, field: string, n: int): Hash {
    if n > 0 then h[field := Get(h, field) + n] else h
  }

  function IncrPools(h: Hash, prefix: string, pools: seq<string>, n: int): Hash {
    if pools == [] then h
    else Incr(IncrPools(h, prefix, pools[..|pools| - 1], n), prefix + CounterName(Pool(pools[|pools| - 1])), n)
  }

  function IncrTotals(h: Hash, prefix: string, c: Charge): Hash {
    Incr(Incr(Incr(h, prefix + API_REQUESTS, c.api), prefix + EGRESS_BYTES, c.egress),
         prefix + INGRESS_BYTES, c.ingress)
  }

  /** The hash after the charge's transaction. */
  function ChargeHash(h: Hash, bucket: int, c: Charge): Hash {
    var prefix := FieldPrefix(bucket, c.workload);
    IncrPools(IncrTotals(h, prefix, c), prefix, c.pools, c.poolN)
  }

  /** The keyspace after an answered charge to a tracked backend. */
  function ChargeKeys(keys: Keys, prefix: string, backend: string, bucket: int, c: Charge): Keys {
    if c.Empty() then keys
    else
      var key := HashKey(prefix, backend);
      keys[key := ChargeHash(if key in keys then keys[key] else map[], bucket, c)]
  }

  /** What a charge adds to the shared counters at one field. */
  function SharedDelta(c: Charge, f: Field): int {
    if c.Empty() then 0
    else match f
         case ApiRequests => Max(c.api, 0)
         case EgressBytes => Max(c.egress, 0)
         case IngressBytes => Max(c.ingress, 0)
         case Pool(name) => PoolDelta(c.pools, Max(c.poolN, 0), name)
  }

  lemma {:induction false} NoPoolDelta(pools: seq<string>, name: string)
    ensures PoolDelta(pools, 0, name) == 0
  {
    if pools != [] {
      NoPoolDelta(pools[..|pools| - 1], name);
    }
  }

  /** Redis and the local fallback count a charge alike exactly when it adds
      nothing at all or no total in it is negative: Redis skips a negative
      amount, the local counters subtract it. */
  lemma FallbackCountsAlike(c: Charge)
    ensures (forall f: Field :: SharedDelta(c, f) == LocalDelta(c, f))
            <==> c.Empty() || (c.api >= 0 && c.egress >= 0 && c.ingress >= 0)
  {
    if forall f: Field :: SharedDelta(c, f) == LocalDelta(c, f) {
      assert SharedDelta(c, ApiRequests) == LocalDelta(c, ApiRequests);
      assert SharedDelta(c, EgressBytes) == LocalDelta(c, EgressBytes);
      assert SharedDelta(c, IngressBytes) == LocalDelta(c, IngressBytes);
    }
    forall name ensures PoolDelta(c.pools, 0, name) == 0 {
      NoPoolDelta(c.pools, name);
    }
  }

  lemma IncrAt(h: Hash, bucket: int, workload: string, f: Field, n: int, cell: Cell)
    requires Nameable(bucket, workload) && Nameable(cell.bucket, cell.workload)
    ensures HashAt(Incr(h, FieldName(bucket, workload, f), n), cell) == HashAt(h, cell)
      + if cell.bucket == bucket && cell.workload == workload && cell.field == f then Max(n, 0) else 0
  {
    if FieldName(bucket, workload, f) == FieldName(cell.bucket, cell.workload, cell.field) {
      FieldNamesDistinct(bucket, workload, f, cell.bucket, cell.workload, cell.field);
    }
  }

  lemma {:induction false} IncrPoolsAt(h: Hash, bucket: int, workload: string, pools: seq<string>, n: int, cell: Cell)
    requires Nameable(bucket, workload) && Nameable(cell.bucket, cell.workload)
    ensures HashAt(IncrPools(h, FieldPrefix(bucket, workload), pools, n), cell) == HashAt(h, cell)
      + if cell.bucket == bucket && cell.workload == workload && cell.field.Pool?
        then PoolDelta(pools, Max(n, 0), cell.field.name) else 0
  {
    if pools != [] {
      var front, last := pools[..|pools| - 1], pools[|pools| - 1];
      var before := IncrPools(h, FieldPrefix(bucket, workload), front, n);
      IncrPoolsAt(h, bucket, workload, front, n, cell);
      IncrAt(before, bucket, workload, Pool(last), n, cell);
      assert IncrPools(h, FieldPrefix(bucket, workload), pools, n)
          == Incr(before, FieldName(bucket, workload, Pool(last)), n);
    }
  }

  /** A charge moves exactly its own cells of the hash, each by the charged
      amount, however the field names are spelled. */
  lemma ChargeHashAt(h: Hash, bucket: int, c: Charge, cell: Cell)
    requires Nameable(bucket, c.workload) && Nameable(cell.bucket, cell.workload)
    requires !c.Empty()
    ensures HashAt(ChargeHash(h, bucket, c), cell) == HashAt(h, cell)
      + if cell.bucket == bucket && cell.workload == c.workload then SharedDelta(c, cell.field) else 0
  {
    var w := c.workload;
    var h1 := Incr(h, FieldName(bucket, w, ApiRequests), c.api);
    var h2 := Incr(h1, FieldName(bucket, w, EgressBytes), c.egress);
    var h3 := Incr(h2, FieldName(bucket, w, IngressBytes), c.ingress);
    IncrAt(h, bucket, w, ApiRequests, c.api, cell);
    IncrAt(h1, bucket, w, EgressBytes, c.egress, cell);
    IncrAt(h2, bucket, w, IngressBytes, c.ingress, cell);
    assert h3 == IncrTotals(h, FieldPrefix(bucket, w), c);
    IncrPoolsAt(h3, bucket, w, c.pools, c.poolN, cell);
  }

  // ---------------------------------------------------------------------
  // Field names a charge writes
  // ---------------------------------------------------------------------

  /** A field that parses, and is the spelling Charge uses for what it parses to. */
  predicate CanonicalField(field: string) {
    match ParseField(field)
    case None => false
    case Some((bucket, workload, name)) =>
      Nameable(bucket, workload) && FieldOf(name).Some?
      && field == FieldName(bucket, workload, FieldOf(name).value)
  }

  predicate Canonical(h: Hash) {
    forall field | field in h :: CanonicalField(field)
  }

  lemma FieldNameCanonical(bucket: int, workload: string, f: Field)
    requires Nameable(bucket, workload)
    ensures CanonicalField(FieldName(bucket, workload, f))
    ensures ParseField(FieldName(bucket, workload, f)) == Some((bucket, workload, CounterName(f)))
  {
    ParseFieldInverts(bucket, workload, CounterName(f));
    FieldOfCounterName(f);
  }

  lemma {:induction false} IncrPoolsCanonical(h: Hash, bucket: int, workload: string, pools: seq<string>, n: int)
    requires Nameable(bucket, workload) && Canonical(h)
    ensures Canonical(IncrPools(h, FieldPrefix(bucket, workload), pools, n))
  {
    if pools != [] {
      IncrPoolsCanonical(h, bucket, workload, pools[..|pools| - 1], n);
      FieldNameCanonical(bucket, workload, Pool(pools[|pools| - 1]));
    }
  }

  lemma ChargeHashCanonical(h: Hash, bucket: int, c: Charge)
    requires Nameable(bucket, c.workload) && Canonical(h)
    ensures Canonical(ChargeHash(h, bucket, c))
  {
    var w := c.workload;
    FieldNameCanonical(bucket, w, ApiRequests);
    FieldNameCanonical(bucket, w, EgressBytes);
    FieldNameCanonical(bucket, w, IngressBytes);
    var prefix := FieldPrefix(bucket, w);
    assert prefix + API_REQUESTS == FieldName(bucket, w, ApiRequests);
    assert prefix + EGRESS_BYTES == FieldName(bucket, w, EgressBytes);
    assert prefix + INGRESS_BYTES == FieldName(bucket, w, IngressBytes);
    assert Canonical(IncrTotals(h, prefix, c));
    IncrPoolsCanonical(IncrTotals(h, prefix, c), bucket, w, c.pools, c.poolN);
  }

  // ---------------------------------------------------------------------
  // Staging and reading
  // ---------------------------------------------------------------------

  /** The keyspace once a backend's live hash, if any, is renamed aside. */
  function StageKeys(keys: Keys, prefix: string, backend: string, id: string): Keys {
    var live := HashKey(prefix, backend);
    if live in keys then (keys - {live})[StagedKey(prefix, backend, id) := keys[live]] else keys
  }

  function StageAll(keys: Keys, prefix: string, backends: seq<string>, ids: seq<string>): Keys
    requires |ids| >= |backends|
  {
    if backends == [] then keys
    else
      var n := |backends| - 1;
      StageKeys(StageAll(keys, prefix, backends[..n], ids), prefix, backends[n], ids[n])
  }

  /** A batch carries exactly what a hash holds for its backend. */
  ghost predicate IsReadOf(h: Hash, b: UsageBatch) {
    forall c: Cell | c.backend == b.backend && Nameable(c.bucket, c.workload) :: BatchAt(b, c) == HashAt(h, c)
  }

  function AddField(u: Usage, f: Field, v: int): Usage {
    match f
    case ApiRequests => u.AddStat(v, 0, 0)
    case EgressBytes => u.AddStat(0, v, 0)
    case IngressBytes => u.AddStat(0, 0, v)
    case Pool(name) => u.AddPool(name, v)
  }

  lemma AddFieldAt(u: Usage, f: Field, v: int, g: Field)
    ensures AddField(u, f, v).At(g) == u.At(g) + if f == g then v else 0
  {
  }

  /** One turn of addFields: the batch after one more field of the hash. */
  function AddHashField(b: UsageBatch, field: string, v: int): UsageBatch {
    match ParseField(field)
    case None => b
    case Some((bucket, workload, name)) =>
      var w := (bucket, workload);
      var u := if w in b.buckets then b.buckets[w] else ZERO;
      match FieldOf(name)
      case None => b.(buckets := b.buckets[w := u])
      case Some(f) => b.(buckets := b.buckets[w := AddField(u, f, v)])
  }

  lemma AddHashFieldAt(h: Hash, b: UsageBatch, field: string, v: int, c: Cell)
    requires field !in h && CanonicalField(field) && BatchAt(b, c) == HashAt(h, c)
    requires c.backend == b.backend && Nameable(c.bucket, c.workload)
    ensures BatchAt(AddHashField(b, field, v), c) == HashAt(h[field := v], c)
  {
    var (bucket, workload, name) := ParseField(field).value;
    var f := FieldOf(name).value;
    if FieldName(c.bucket, c.workload, c.field) == field {
      FieldNamesDistinct(bucket, workload, f, c.bucket, c.workload, c.field);
    }
    var w := (bucket, workload);
    AddFieldAt(if w in b.buckets then b.buckets[w] else ZERO, f, v, c.field);
  }

  lemma AddHashFieldReads(h: Hash, b: UsageBatch, field: string, v: int)
    requires field !in h && CanonicalField(field) && IsReadOf(h, b)
    ensures IsReadOf(h[field := v], AddHashField(b, field, v))
  {
    var next := AddHashField(b, field, v);
    forall c: Cell | c.backend == b.backend && Nameable(c.bucket, c.workload)
      ensures BatchAt(next, c) == HashAt(h[field := v], c)
    {
      AddHashFieldAt(h, b, field, v, c);
    }
  }

  /** addFields over a whole hash. */
  method ReadFields(h: Hash, name: StagedName) returns (b: UsageBatch)
    ensures b.id == name.id && b.backend == name.backend
    ensures Canonical(h) ==> IsReadOf(h, b)
  {
    b := UsageBatch(name.id, name.backend, map[]);
    var done: Hash := map[];
    var rest := h.Keys;
    while rest != {}
      invariant rest <= h.Keys && done == h - rest
      invariant b.id == name.id && b.backend == name.backend
      invariant Canonical(h) ==> IsReadOf(done, b)
      decreases rest
    {
      var field :| field in rest;
      if Canonical(h) {
        AddHashFieldReads(done, b, field, h[field]);
      }
      b := AddHashField(b, field, h[field]);
      done := done[field := h[field]];
      rest := rest - {field};
    }
    assert done == h;
  }

  class Redis {
    var keys: Keys
  }

  class RedisCounterBackend {
    const redis: Redis
    const local: LocalCounterBackend
    const prefix: string
    const backends: seq<string>

    constructor (r: Redis, prefix: string, names: seq<string>)
      ensures redis == r && this.prefix == prefix && backends == names
      ensures fresh(local) && local.backends == names && local.counters == map[]
    {
      redis := r;
      this.prefix := prefix;
      backends := names;
      local := new LocalCounterBackend(names);
    }

    /** A charge lands whole in Redis, or whole in the local counters. */
    method Charge(backend: string, bucket: int, c: Charge, answered: bool)
      requires local.backends == backends
      modifies redis, local
      ensures redis.keys == if answered && backend in backends
                            then ChargeKeys(old(redis.keys), prefix, backend, bucket, c) else old(redis.keys)
      ensures local.counters == if !answered && backend in backends
                                then ChargeLocal(old(local.counters), backend, bucket, c) else old(local.counters)
    {
      if c.Empty() || backend !in backends {
        return;
      }
      if !answered {
        local.Charge(backend, bucket, c);
        return;
      }
      var key := HashKey(prefix, backend);
      var fields := FieldPrefix(bucket, c.workload);
      var h := if key in redis.keys then redis.keys[key] else map[];
      h := Incr(h, fields + API_REQUESTS, c.api);
      h := Incr(h, fields + EGRESS_BYTES, c.egress);
      h := Incr(h, fields + INGRESS_BYTES, c.ingress);
      ghost var start := h;
      for i := 0 to |c.pools|
        invariant h == IncrPools(start, fields, c.pools[..i], c.poolN)
      {
        assert c.pools[..i + 1][..i] == c.pools[..i];
        h := Incr(h, fields + (POOL_PREFIX + c.pools[i]), c.poolN);
      }
      assert c.pools[..|c.pools|] == c.pools;
      redis.keys := redis.keys[key := h];
    }

    /** Renames each live hash aside, stopping at the first call not answered. */
    method Stage(ids: seq<string>, answered: nat)
      requires |ids| == |backends|
      modifies redis
      ensures redis.keys == StageAll(old(redis.keys), prefix, backends[..Min(answered, |backends|)], ids)
    {
      ghost var start := redis.keys;
      var i := 0;
      while i < |backends| && i < answered
        invariant 0 <= i <= Min(answered, |backends|)
        invariant redis.keys == StageAll(start, prefix, backends[..i], ids)
      {
        var live := HashKey(prefix, backends[i]);
        if live in redis.keys {
          redis.keys := (redis.keys - {live})[StagedKey(prefix, backends[i], ids[i]) := redis.keys[live]];
        }
        assert backends[..i + 1][..i] == backends[..i];
        i := i + 1;
      }
    }

    /** The batch of a staged key, when there is one: its hash, field for field. */
    method ReadBatch(key: string, answered: bool) returns (r: Option<UsageBatch>)
      ensures r.Some? ==>
        && key in redis.keys
        && ParseStagedKey(prefix, key) == Some(StagedName(r.value.backend, r.value.id))
        && (Canonical(redis.keys[key]) ==> IsReadOf(redis.keys[key], r.value))
      ensures r.None? <==>
        || ParseStagedKey(prefix, key) == None
        || !answered
        || key !in redis.keys
        || redis.keys[key] == map[]
    {
      var name := ParseStagedKey(prefix, key);
      if name == None || !answered || key !in redis.keys || redis.keys[key] == map[] {
        return None;
      }
      var b := ReadFields(redis.keys[key], name.value);
      return Some(b);
    }

    /** Forgets an applied batch, in Redis or here; an unapplied local one returns. */
    method Settle(b: UsageBatch, applied: bool, answered: bool)
      modifies redis, local
      ensures redis.keys == if b.id != "" && applied && answered
                            then old(redis.keys) - {StagedKey(prefix, b.backend, b.id)} else old(redis.keys)
      ensures local.counters == if b.id == "" && !applied then AddBatch(old(local.counters), b)
                                else old(local.counters)
    {
      if b.id == "" {
        local.Settle(b, applied);
        return;
      }
      if applied && answered {
        redis.keys := redis.keys - {StagedKey(prefix, b.backend, b.id)};
      }
    }
  }
}
