/** Usage accounting across every instance as one transition system: charges to
    Redis or to a local fallback, hashes renamed aside, staged hashes read by any
    instance any number of times, batches applied, refused and settled, deletes
    Redis never answered, hashes that expire, applied flush IDs and old usage rows
    that are pruned, backends that are removed, and instances that crash. Nothing
    charged is lost and nothing is counted twice. Each step is one atomic action
    of internal/counter/redis.go, internal/counter/local.go, FlushUsage in
    internal/counter/tracker.go or the store of internal/store/sqlite/quota.go,
    and uses the specification functions their methods are proved against. */
module UsageFleet {
  import opened Common
  import opened UsageNames
  import opened UsageLocal
  import opened UsageRedis

  /** longestFlush bounds how long a flush holds a batch it read from Redis. */
  datatype Config = Config(prefix: string, backends: seq<string>, longestFlush: nat)

  predicate Valid(cfg: Config) {
    "" !in cfg.backends
  }

  /** What the store answered for a batch a flush holds. */
  datatype Outcome = Waiting | Applied | Refused

  /** A batch a flush took at since. */
  datatype InHand = InHand(batch: UsageBatch, outcome: Outcome, since: int) {
    /** Settling gives a local batch that was not applied back to the counters. */
    predicate Returns() {
      batch.id == "" && outcome != Applied
    }

    /** Settling deletes the hash of a shared batch that was applied. */
    predicate Unstages() {
      batch.id != "" && outcome == Applied
    }

    function Key(prefix: string): string {
      StagedKey(prefix, batch.backend, batch.id)
    }
  }

  /** One recorded charge, and whether it was kept locally. */
  datatype Charged = Charged(backend: string, bucket: int, charge: Charge, kept: bool)

  /** keys is the Redis keyspace, locals and hands each instance's counters and
      the batches its flush still holds, store the database's usage rows and
      remembered the applied flush IDs it still knows. expiry is when each key
      lapses, flushed when each flush ID was applied, pruned or not, used every
      flush ID drawn so far, charged every charge made, dropped what the store held
      and deleted, and lost what crashed instances and lapsed live hashes held. A
      staged hash stays in keys when it lapses, but can no longer be read. */
  datatype Fleet = Fleet(
    now: int,
    keys: Keys,
    expiry: map<string, int>,
    locals: map<nat, Counters>,
    hands: map<nat, seq<InHand>>,
    store: Counters,
    remembered: set<string>,
    flushed: map<string, int>,
    used: set<string>,
    charged: seq<Charged>,
    dropped: Cell -> int,
    lost: Cell -> int)

  const DAY := 24 * 3600
  const KEY_TTL := 35 * DAY
  const FLUSH_RETENTION := 40 * DAY

  const USAGE_RETENTION := 100 * DAY

  /** What the retention of an applied ID leaves beyond the life of its hash. */
  const MARGIN := FLUSH_RETENTION - KEY_TTL

  datatype Step =
    | Tick(d: nat)
    | Expire(backend: string)
    | ChargeShared(backend: string, bucket: int, charge: Charge)
    | ChargeKept(i: nat, backend: string, bucket: int, charge: Charge)
    | TakeLocal(i: nat, batches: seq<UsageBatch>)
    | Stage(backend: string, id: string)
    | ReadStaged(i: nat, key: string, batch: UsageBatch)
    | Apply(i: nat)
    | Refuse(i: nat, landed: bool)
    | Settle(i: nat, answered: bool)
    | RemoveBackend(backend: string)
    | Crash(i: nat)

  function Local(s: Fleet, i: nat): Counters {
    if i in s.locals then s.locals[i] else map[]
  }

  function Hand(s: Fleet, i: nat): seq<InHand> {
    if i in s.hands then s.hands[i] else []
  }

  function InHands(bs: seq<UsageBatch>, now: int): (h: seq<InHand>)
    ensures |h| == |bs| && forall i :: 0 <= i < |bs| ==> h[i] == InHand(bs[i], Waiting, now)
  {
    seq(|bs|, i requires 0 <= i < |bs| => InHand(bs[i], Waiting, now))
  }

  predicate Lapsed(s: Fleet, key: string) {
    key in s.expiry && s.expiry[key] < s.now
  }

  predicate PromptAt(longest: nat, h: InHand, now: int) {
    h.batch.id != "" && h.outcome == Waiting ==> now <= h.since + longest
  }

  /** The flush IDs a prune leaves. */
  function Pruned(remembered: set<string>, flushed: map<string, int>, now: int): set<string> {
    set id | id in remembered && id in flushed && flushed[id] >= now - FLUSH_RETENTION
  }

  /** The usage rows once a batch is added and the backend's old buckets go. */
  function Stored(store: Counters, b: UsageBatch, now: int): Counters {
    Recent(AddBatch(store, b), b.backend, now - USAGE_RETENTION)
  }

  /** What goes with those buckets at one cell. */
  function AgedAt(store: Counters, b: UsageBatch, now: int, c: Cell): int {
    if c.backend == b.backend && c.bucket < now - USAGE_RETENTION then LocalAt(AddBatch(store, b), c) else 0
  }

  lemma StoredAt(store: Counters, b: UsageBatch, now: int, c: Cell)
    ensures LocalAt(Stored(store, b, now), c) + AgedAt(store, b, now, c) == LocalAt(store, c) + BatchAt(b, c)
  {
    RecentAt(AddBatch(store, b), b.backend, now - USAGE_RETENTION, c);
    AddBatchAt(store, b, c);
  }

  /** The usage rows without one backend's. */
  function Without(store: Counters, backend: string): Counters {
    map k | k in store && k.backend != backend :: store[k]
  }

  predicate IsNew(s: Fleet, b: UsageBatch) {
    b.id == "" || b.id !in s.remembered
  }

  /** ApplyUsageBatch: a batch without an ID is always applied, one with an ID when
      the ID is not remembered, and then old IDs are pruned; old buckets of its
      backend are, either way. */
  function ApplyBatch(s: Fleet, b: UsageBatch): Fleet {
    if !IsNew(s, b) then s
    else
      var flushed := if b.id == "" then s.flushed else s.flushed[b.id := s.now];
      s.(store := Stored(s.store, b, s.now),
         dropped := c => s.dropped(c) + AgedAt(s.store, b, s.now, c),
         flushed := flushed,
         remembered := if b.id == "" then s.remembered else Pruned(s.remembered + {b.id}, flushed, s.now))
  }

  /** Redis shows no key past its expiry: a live one is dropped before anything
      else is done with it. */
  predicate Current(s: Fleet, key: string) {
    key in s.keys ==> key in s.expiry && s.now <= s.expiry[key]
  }

  ghost predicate Enabled(cfg: Config, s: Fleet, step: Step) {
    match step
    case Tick(d) => forall i, j | i in s.hands && 0 <= j < |s.hands[i]| :: PromptAt(cfg.longestFlush, s.hands[i][j], s.now + d)
    case Expire(backend) => HashKey(cfg.prefix, backend) in s.keys && Lapsed(s, HashKey(cfg.prefix, backend))
    case ChargeShared(backend, bucket, c) =>
      Nameable(bucket, c.workload) && Current(s, HashKey(cfg.prefix, backend))
    case ChargeKept(_, _, _, _) => true
    case TakeLocal(i, batches) => IsTakeOf(Local(s, i), batches)
    case Stage(backend, id) =>
      && backend in cfg.backends && id != "" && ':' !in id && id !in s.used
      && Current(s, HashKey(cfg.prefix, backend))
    case ReadStaged(i, key, b) =>
      && key in s.keys && Current(s, key)
      && ParseStagedKey(cfg.prefix, key) == Some(StagedName(b.backend, b.id))
      && IsReadOf(s.keys[key], b)
    case Apply(i) => Hand(s, i) != [] && Hand(s, i)[0].outcome == Waiting
    // A store that reports a failure changed nothing, except that a batch with
    // an ID may have landed before the failure was reported.
    case Refuse(i, landed) =>
      Hand(s, i) != [] && Hand(s, i)[0].outcome == Waiting && (landed ==> Hand(s, i)[0].batch.id != "")
    case Settle(i, _) => Hand(s, i) != [] && Hand(s, i)[0].outcome != Waiting
    case RemoveBackend(_) => true
    case Crash(_) => true
  }

  ghost function Next(cfg: Config, s: Fleet, step: Step): Fleet
    requires Enabled(cfg, s, step)
  {
    match step
    case Tick(d) => s.(now := s.now + d)
    case Expire(backend) =>
      var key := HashKey(cfg.prefix, backend);
      s.(keys := s.keys - {key},
         lost := c => s.lost(c) + if c.backend == backend && key in s.keys then HashAt(s.keys[key], c) else 0)
    case ChargeShared(backend, bucket, c) =>
      if backend !in cfg.backends then s
      else s.(keys := ChargeKeys(s.keys, cfg.prefix, backend, bucket, c),
              expiry := if c.Empty() then s.expiry else s.expiry[HashKey(cfg.prefix, backend) := s.now + KEY_TTL],
              charged := s.charged + [Charged(backend, bucket, c, false)])
    case ChargeKept(i, backend, bucket, c) =>
      if backend !in cfg.backends then s
      else s.(locals := s.locals[i := ChargeLocal(Local(s, i), backend, bucket, c)],
              charged := s.charged + [Charged(backend, bucket, c, true)])
    case TakeLocal(i, batches) =>
      s.(locals := s.locals[i := map[]], hands := s.hands[i := Hand(s, i) + InHands(batches, s.now)])
    case Stage(backend, id) =>
      var live := HashKey(cfg.prefix, backend);
      s.(keys := StageKeys(s.keys, cfg.prefix, backend, id), used := s.used + {id},
         expiry := if live in s.keys then s.expiry[StagedKey(cfg.prefix, backend, id) := s.expiry[live]] else s.expiry)
    case ReadStaged(i, key, b) =>
      s.(hands := s.hands[i := Hand(s, i) + [InHand(b, Waiting, s.now)]])
    case Apply(i) =>
      var h := Hand(s, i);
      var done := ApplyBatch(s, h[0].batch);
      done.(hands := s.hands[i := [h[0].(outcome := Applied)] + h[1..]])
    case Refuse(i, landed) =>
      var h := Hand(s, i);
      var done := if landed then ApplyBatch(s, h[0].batch) else s;
      done.(hands := s.hands[i := [h[0].(outcome := Refused)] + h[1..]])
    case Settle(i, answered) =>
      var h := Hand(s, i);
      s.(hands := s.hands[i := h[1..]],
         locals := if h[0].Returns() then s.locals[i := AddBatch(Local(s, i), h[0].batch)] else s.locals,
         keys := if answered && h[0].Unstages() then s.keys - {h[0].Key(cfg.prefix)} else s.keys)
    case RemoveBackend(backend) =>
      s.(store := Without(s.store, backend),
         dropped := c => s.dropped(c) + if c.backend == backend then LocalAt(s.store, c) else 0)
    case Crash(i) =>
      s.(locals := s.locals - {i}, hands := s.hands - {i},
         lost := c => s.lost(c) + LocalAt(Local(s, i), c) + HandAt(Hand(s, i), c))
  }

  // ---------------------------------------------------------------------
  // Where a charge can be
  // ---------------------------------------------------------------------

  /** A local batch counts until the store applies it; a staged one is counted
      by its hash. */
  function EntryAt(h: InHand, c: Cell): int {
    if h.batch.id == "" && h.outcome != Applied then BatchAt(h.batch, c) else 0
  }

  function HandAt(h: seq<InHand>, c: Cell): int {
    if h == [] then 0 else EntryAt(h[0], c) + HandAt(h[1..], c)
  }

  ghost function LocalAmounts(locals: map<nat, Counters>, c: Cell): map<nat, int> {
    map i | i in locals :: LocalAt(locals[i], c)
  }

  ghost function HandAmounts(hands: map<nat, seq<InHand>>, c: Cell): map<nat, int> {
    map i | i in hands :: HandAt(hands[i], c)
  }

  function LiveAt(prefix: string, keys: Keys, c: Cell): int {
    var key := HashKey(prefix, c.backend);
    if key in keys then HashAt(keys[key], c) else 0
  }

  /** What a key contributes while it is a staged hash not yet applied. */
  function PendingAt(prefix: string, flushed: set<string>, key: string, h: Hash, c: Cell): int {
    match ParseStagedKey(prefix, key)
    case None => 0
    case Some(n) => if n.backend == c.backend && n.id !in flushed then HashAt(h, c) else 0
  }

  ghost function Pending(prefix: string, flushed: set<string>, keys: Keys, c: Cell): map<string, int> {
    map key | key in keys :: PendingAt(prefix, flushed, key, keys[key], c)
  }

  function ChargedAt(charged: seq<Charged>, c: Cell): int {
    if charged == [] then 0
    else ChargedAt(charged[..|charged| - 1], c) + OneCharge(charged[|charged| - 1], c)
  }

  function OneCharge(x: Charged, c: Cell): int {
    if x.backend == c.backend && x.bucket == c.bucket && x.charge.workload == c.workload
    then if x.kept then LocalDelta(x.charge, c.field) else SharedDelta(x.charge, c.field)
    else 0
  }

  /** Every unit charged at a cell is in exactly one place. */
  ghost predicate Conserved(cfg: Config, s: Fleet, c: Cell) {
    ChargedAt(s.charged, c)
    == LocalAt(s.store, c)
     + LiveAt(cfg.prefix, s.keys, c)
     + Sum(Pending(cfg.prefix, s.flushed.Keys, s.keys, c))
     + Sum(LocalAmounts(s.locals, c))
     + Sum(HandAmounts(s.hands, c))
     + s.dropped(c)
     + s.lost(c)
  }

  // ---------------------------------------------------------------------
  // The invariant that makes a repeated read harmless
  // ---------------------------------------------------------------------

  /** A batch in hand that carries an ID was applied already, or the hash it was
      read from is still there and still holds what was read. */
  ghost predicate Backed(prefix: string, used: set<string>, flushed: set<string>, keys: Keys, h: InHand) {
    h.batch.id != "" ==>
      && ':' !in h.batch.id && h.batch.backend != ""
      && h.batch.id in used
      && (h.outcome == Applied ==> h.batch.id in flushed)
      && (h.batch.id in flushed
          || (var key := StagedKey(prefix, h.batch.backend, h.batch.id);
              key in keys && IsReadOf(keys[key], h.batch)))
  }

  ghost predicate AllBacked(prefix: string, used: set<string>, flushed: set<string>, keys: Keys, hands: map<nat, seq<InHand>>) {
    forall i, j | i in hands && 0 <= j < |hands[i]| :: Backed(prefix, used, flushed, keys, hands[i][j])
  }

  /** No two staged hashes share a flush ID, which is what the store applies by. */
  ghost predicate UniqueIds(prefix: string, keys: Keys) {
    forall k1, k2 | k1 in keys && k2 in keys && SameId(prefix, k1, k2) :: k1 == k2
  }

  predicate SameId(prefix: string, k1: string, k2: string) {
    var n1, n2 := ParseStagedKey(prefix, k1), ParseStagedKey(prefix, k2);
    n1.Some? && n2.Some? && n1.value.id == n2.value.id
  }

  /** The hashes can be read back, and each staged one has a flush ID of its own. */
  ghost predicate Readable(prefix: string, used: set<string>, keys: Keys) {
    && (forall key | key in keys :: Canonical(keys[key]))
    && (forall key | key in keys && ParseStagedKey(prefix, key).Some? :: ParseStagedKey(prefix, key).value.id in used)
    && UniqueIds(prefix, keys)
  }

  ghost predicate Wellformed(cfg: Config, s: Fleet) {
    && Readable(cfg.prefix, s.used, s.keys)
    && s.remembered <= s.flushed.Keys <= s.used
    && AllBacked(cfg.prefix, s.used, s.flushed.Keys, s.keys, s.hands)
  }

  // ---------------------------------------------------------------------
  // The invariant that makes a pruned flush ID harmless
  // ---------------------------------------------------------------------

  /** A key lapses within its lifetime of now, and, once its flush ID is applied,
      within its lifetime of that. */
  predicate LapsesInTime(prefix: string, now: int, expiry: map<string, int>, flushed: map<string, int>, key: string) {
    && key in expiry && expiry[key] <= now + KEY_TTL
    && (match ParseStagedKey(prefix, key)
        case None => true
        case Some(n) => n.id in flushed ==> expiry[key] <= flushed[n.id] + KEY_TTL)
  }

  ghost predicate AllLapse(prefix: string, now: int, expiry: map<string, int>, flushed: map<string, int>, keys: Keys) {
    forall key | key in keys :: LapsesInTime(prefix, now, expiry, flushed, key)
  }

  /** An applied ID is remembered for the whole of its retention. */
  ghost predicate Remembers(now: int, flushed: map<string, int>, remembered: set<string>) {
    && remembered <= flushed.Keys
    && forall id | id in flushed ::
         flushed[id] <= now && (flushed[id] >= now - FLUSH_RETENTION ==> id in remembered)
  }

  /** A batch was read while its hash could be, and a flush does not sit on it. */
  predicate Timed(longest: nat, now: int, flushed: map<string, int>, h: InHand) {
    h.batch.id != "" ==>
      && h.since <= now && PromptAt(longest, h, now)
      && (h.batch.id in flushed ==> h.since <= flushed[h.batch.id] + KEY_TTL)
  }

  ghost predicate AllTimed(longest: nat, now: int, flushed: map<string, int>, hands: map<nat, seq<InHand>>) {
    forall i, j | i in hands && 0 <= j < |hands[i]| :: Timed(longest, now, flushed, hands[i][j])
  }

  ghost predicate Timely(cfg: Config, s: Fleet) {
    && AllLapse(cfg.prefix, s.now, s.expiry, s.flushed, s.keys)
    && Remembers(s.now, s.flushed, s.remembered)
    && AllTimed(cfg.longestFlush, s.now, s.flushed, s.hands)
  }

  /** A waiting batch that was applied before is still known to the store. */
  lemma Recalled(longest: nat, now: int, flushed: map<string, int>, remembered: set<string>, h: InHand)
    requires longest <= MARGIN
    requires Remembers(now, flushed, remembered) && Timed(longest, now, flushed, h)
    requires h.outcome == Waiting && h.batch.id != ""
    ensures h.batch.id in flushed <==> h.batch.id in remembered
  {
  }

  /** An apply finds its batch's ID remembered exactly if it was applied before. */
  predicate Recognises(s: Fleet, step: Step) {
    (step.Apply? || step.Refuse?) && Hand(s, step.i) != [] && Hand(s, step.i)[0].batch.id != "" ==>
      (Hand(s, step.i)[0].batch.id in s.flushed <==> Hand(s, step.i)[0].batch.id in s.remembered)
  }

  lemma TimelyRecognises(cfg: Config, s: Fleet, step: Step)
    requires cfg.longestFlush <= MARGIN && Timely(cfg, s) && Enabled(cfg, s, step)
    ensures Recognises(s, step)
  {
    if (step.Apply? || step.Refuse?) && Hand(s, step.i)[0].batch.id != "" {
      assert Timed(cfg.longestFlush, s.now, s.flushed, s.hands[step.i][0]);
      Recalled(cfg.longestFlush, s.now, s.flushed, s.remembered, s.hands[step.i][0]);
    }
  }

  // ---------------------------------------------------------------------
  // How a step moves each sum
  // ---------------------------------------------------------------------

  lemma LocalsSet(locals: map<nat, Counters>, i: nat, m: Counters, c: Cell)
    ensures Sum(LocalAmounts(locals[i := m], c))
         == Sum(LocalAmounts(locals, c)) - LocalAt(if i in locals then locals[i] else map[], c) + LocalAt(m, c)
  {
    assert LocalAmounts(locals[i := m], c) == LocalAmounts(locals, c)[i := LocalAt(m, c)];
    SumUpdate(LocalAmounts(locals, c), i, LocalAt(m, c));
  }

  lemma HandsSet(hands: map<nat, seq<InHand>>, i: nat, h: seq<InHand>, c: Cell)
    ensures Sum(HandAmounts(hands[i := h], c))
         == Sum(HandAmounts(hands, c)) - HandAt(if i in hands then hands[i] else [], c) + HandAt(h, c)
  {
    assert HandAmounts(hands[i := h], c) == HandAmounts(hands, c)[i := HandAt(h, c)];
    SumUpdate(HandAmounts(hands, c), i, HandAt(h, c));
  }

  lemma DropInstance(locals: map<nat, Counters>, hands: map<nat, seq<InHand>>, i: nat, c: Cell)
    ensures Sum(LocalAmounts(locals - {i}, c))
         == Sum(LocalAmounts(locals, c)) - LocalAt(if i in locals then locals[i] else map[], c)
    ensures Sum(HandAmounts(hands - {i}, c))
         == Sum(HandAmounts(hands, c)) - HandAt(if i in hands then hands[i] else [], c)
  {
    assert LocalAmounts(locals - {i}, c) == LocalAmounts(locals, c) - {i};
    SumRemove(LocalAmounts(locals, c), i);
    assert HandAmounts(hands - {i}, c) == HandAmounts(hands, c) - {i};
    SumRemove(HandAmounts(hands, c), i);
  }

  /** A charge lands in the live hash and leaves every staged one alone. */
  lemma LiveSet(prefix: string, flushed: set<string>, keys: Keys, backend: string, h: Hash, c: Cell)
    ensures
      var keys' := keys[HashKey(prefix, backend) := h];
      && Sum(Pending(prefix, flushed, keys', c)) == Sum(Pending(prefix, flushed, keys, c))
      && LiveAt(prefix, keys', c) == if c.backend == backend then HashAt(h, c) else LiveAt(prefix, keys, c)
  {
    var key := HashKey(prefix, backend);
    LiveKeysApart(prefix, backend, c.backend);
    var before := Pending(prefix, flushed, keys, c);
    assert Pending(prefix, flushed, keys[key := h], c) == before[key := 0];
    SumUpdate(before, key, 0);
  }

  /** A rename moves the live hash's counters to a staged one. */
  lemma StageMoves(prefix: string, flushed: set<string>, keys: Keys, backend: string, id: string, c: Cell)
    requires backend != "" && id != "" && ':' !in id && id !in flushed
    requires StagedKey(prefix, backend, id) !in keys
    ensures
      var keys' := StageKeys(keys, prefix, backend, id);
      LiveAt(prefix, keys', c) + Sum(Pending(prefix, flushed, keys', c))
      == LiveAt(prefix, keys, c) + Sum(Pending(prefix, flushed, keys, c))
  {
    var live, staged := HashKey(prefix, backend), StagedKey(prefix, backend, id);
    ParseStagedKeyInverts(prefix, backend, id);
    LiveKeysApart(prefix, backend, c.backend);
    LiveKeysApart(prefix, c.backend, backend);
    if live in keys {
      var before := Pending(prefix, flushed, keys, c);
      var moved := PendingAt(prefix, flushed, staged, keys[live], c);
      assert Pending(prefix, flushed, StageKeys(keys, prefix, backend, id), c) == (before - {live})[staged := moved];
      SumRemove(before, live);
      SumUpdate(before - {live}, staged, moved);
    }
  }

  /** Recording a flush ID settles exactly the one hash staged under it. */
  lemma FlushSettles(prefix: string, flushed: set<string>, keys: Keys, backend: string, id: string, c: Cell)
    requires backend != "" && id != "" && ':' !in id && id !in flushed
    requires StagedKey(prefix, backend, id) in keys && UniqueIds(prefix, keys)
    ensures Sum(Pending(prefix, flushed + {id}, keys, c)) == Sum(Pending(prefix, flushed, keys, c))
      - if c.backend == backend then HashAt(keys[StagedKey(prefix, backend, id)], c) else 0
  {
    var key := StagedKey(prefix, backend, id);
    ParseStagedKeyInverts(prefix, backend, id);
    var before := Pending(prefix, flushed, keys, c);
    var after := Pending(prefix, flushed + {id}, keys, c);
    forall k | k in keys && k != key
      ensures after[k] == before[k]
    {
      assert !SameId(prefix, k, key);
    }
    assert after == before[key := 0];
    SumUpdate(before, key, 0);
  }

  /** Deleting a staged hash that was applied changes no total. */
  lemma UnstageKeeps(prefix: string, flushed: set<string>, keys: Keys, backend: string, id: string, c: Cell)
    requires backend != "" && id != "" && ':' !in id && id in flushed
    ensures
      var keys' := keys - {StagedKey(prefix, backend, id)};
      && LiveAt(prefix, keys', c) == LiveAt(prefix, keys, c)
      && Sum(Pending(prefix, flushed, keys', c)) == Sum(Pending(prefix, flushed, keys, c))
  {
    var key := StagedKey(prefix, backend, id);
    ParseStagedKeyInverts(prefix, backend, id);
    LiveKeysApart(prefix, c.backend, c.backend);
    var before := Pending(prefix, flushed, keys, c);
    assert Pending(prefix, flushed, keys - {key}, c) == before - {key};
    SumRemove(before, key);
  }

  lemma {:induction false} HandAtAppend(h: seq<InHand>, x: InHand, c: Cell)
    ensures HandAt(h + [x], c) == HandAt(h, c) + EntryAt(x, c)
  {
    if h == [] {
      assert h + [x] == [x];
    } else {
      assert (h + [x])[1..] == h[1..] + [x];
      HandAtAppend(h[1..], x, c);
    }
  }

  lemma {:induction false} HandAtTaken(h: seq<InHand>, bs: seq<UsageBatch>, now: int, c: Cell)
    requires forall i :: 0 <= i < |bs| ==> bs[i].id == ""
    ensures HandAt(h + InHands(bs, now), c) == HandAt(h, c) + BatchesAt(bs, c)
  {
    if bs == [] {
      assert h + InHands(bs, now) == h;
    } else {
      var n := |bs| - 1;
      HandAtTaken(h, bs[..n], now, c);
      assert h + InHands(bs, now) == (h + InHands(bs[..n], now)) + [InHand(bs[n], Waiting, now)];
      HandAtAppend(h + InHands(bs[..n], now), InHand(bs[n], Waiting, now), c);
    }
  }

  // ---------------------------------------------------------------------
  // Each step keeps the books balanced
  // ---------------------------------------------------------------------

  lemma ChargeSharedConserves(cfg: Config, s: Fleet, step: Step, c: Cell)
    requires step.ChargeShared? && Enabled(cfg, s, step)
    requires Nameable(c.bucket, c.workload) && Conserved(cfg, s, c)
    ensures Conserved(cfg, Next(cfg, s, step), c)
  {
    var s' := Next(cfg, s, step);
    if step.backend in cfg.backends {
      assert s'.charged[..|s.charged|] == s.charged;
      if !step.charge.Empty() {
        var key := HashKey(cfg.prefix, step.backend);
        var h := if key in s.keys then s.keys[key] else map[];
        LiveSet(cfg.prefix, s.flushed.Keys, s.keys, step.backend, ChargeHash(h, step.bucket, step.charge), c);
        ChargeHashAt(h, step.bucket, step.charge, c);
      }
    }
  }

  lemma ChargeKeptConserves(cfg: Config, s: Fleet, step: Step, c: Cell)
    requires step.ChargeKept? && Enabled(cfg, s, step) && Conserved(cfg, s, c)
    ensures Conserved(cfg, Next(cfg, s, step), c)
  {
    var s' := Next(cfg, s, step);
    if step.backend in cfg.backends {
      assert s'.charged[..|s.charged|] == s.charged;
      var m := ChargeLocal(Local(s, step.i), step.backend, step.bucket, step.charge);
      LocalsSet(s.locals, step.i, m, c);
      ChargeLocalAt(Local(s, step.i), step.backend, step.bucket, step.charge, c);
    }
  }

  lemma TakeLocalConserves(cfg: Config, s: Fleet, step: Step, c: Cell)
    requires step.TakeLocal? && Enabled(cfg, s, step) && Conserved(cfg, s, c)
    ensures Conserved(cfg, Next(cfg, s, step), c)
  {
    LocalsSet(s.locals, step.i, map[], c);
    HandsSet(s.hands, step.i, Hand(s, step.i) + InHands(step.batches, s.now), c);
    HandAtTaken(Hand(s, step.i), step.batches, s.now, c);
    assert BatchesAt(step.batches, c) == LocalAt(Local(s, step.i), c);
  }

  lemma StageConserves(cfg: Config, s: Fleet, step: Step, c: Cell)
    requires Valid(cfg) && step.Stage? && Enabled(cfg, s, step) && Wellformed(cfg, s)
    requires Conserved(cfg, s, c)
    ensures Conserved(cfg, Next(cfg, s, step), c)
  {
    ParseStagedKeyInverts(cfg.prefix, step.backend, step.id);
    StageMoves(cfg.prefix, s.flushed.Keys, s.keys, step.backend, step.id, c);
  }

  lemma ReadStagedConserves(cfg: Config, s: Fleet, step: Step, c: Cell)
    requires step.ReadStaged? && Enabled(cfg, s, step) && Conserved(cfg, s, c)
    ensures Conserved(cfg, Next(cfg, s, step), c)
  {
    ParseStagedKeySound(cfg.prefix, step.key);
    var x := InHand(step.batch, Waiting, s.now);
    HandsSet(s.hands, step.i, Hand(s, step.i) + [x], c);
    HandAtAppend(Hand(s, step.i), x, c);
  }

  /** Applying a staged batch moves its hash from pending to applied, once. */
  lemma ApplyStaged(cfg: Config, s: Fleet, h: InHand, c: Cell)
    requires Wellformed(cfg, s) && Backed(cfg.prefix, s.used, s.flushed.Keys, s.keys, h) && h.batch.id != ""
    requires h.batch.id in s.flushed <==> h.batch.id in s.remembered
    requires Nameable(c.bucket, c.workload)
    ensures
      var s' := ApplyBatch(s, h.batch);
      LocalAt(s'.store, c) + s'.dropped(c) + Sum(Pending(cfg.prefix, s'.flushed.Keys, s.keys, c))
      == LocalAt(s.store, c) + s.dropped(c) + Sum(Pending(cfg.prefix, s.flushed.Keys, s.keys, c))
  {
    var b := h.batch;
    if b.id !in s.flushed {
      FlushSettles(cfg.prefix, s.flushed.Keys, s.keys, b.backend, b.id, c);
      assert s.flushed[b.id := s.now].Keys == s.flushed.Keys + {b.id};
      StoredAt(s.store, b, s.now, c);
    }
  }

  lemma ApplyConserves(cfg: Config, s: Fleet, step: Step, c: Cell)
    requires step.Apply? || step.Refuse?
    requires Enabled(cfg, s, step) && Wellformed(cfg, s) && Recognises(s, step)
    requires Nameable(c.bucket, c.workload) && Conserved(cfg, s, c)
    ensures Conserved(cfg, Next(cfg, s, step), c)
  {
    var h := Hand(s, step.i);
    assert Backed(cfg.prefix, s.used, s.flushed.Keys, s.keys, h[0]);
    var outcome := if step.Apply? then Applied else Refused;
    var h' := [h[0].(outcome := outcome)] + h[1..];
    assert h'[1..] == h[1..];
    HandsSet(s.hands, step.i, h', c);
    if h[0].batch.id != "" {
      ApplyStaged(cfg, s, h[0], c);
    } else {
      StoredAt(s.store, h[0].batch, s.now, c);
    }
  }

  lemma SettleConserves(cfg: Config, s: Fleet, step: Step, c: Cell)
    requires step.Settle? && Enabled(cfg, s, step) && Wellformed(cfg, s) && Conserved(cfg, s, c)
    ensures Conserved(cfg, Next(cfg, s, step), c)
  {
    var h := Hand(s, step.i);
    var b := h[0].batch;
    assert Backed(cfg.prefix, s.used, s.flushed.Keys, s.keys, h[0]);
    HandsSet(s.hands, step.i, h[1..], c);
    if h[0].Returns() {
      LocalsSet(s.locals, step.i, AddBatch(Local(s, step.i), b), c);
      AddBatchAt(Local(s, step.i), b, c);
    } else if h[0].Unstages() {
      UnstageKeeps(cfg.prefix, s.flushed.Keys, s.keys, b.backend, b.id, c);
    }
  }

  lemma CrashConserves(cfg: Config, s: Fleet, step: Step, c: Cell)
    requires step.Crash? && Enabled(cfg, s, step) && Conserved(cfg, s, c)
    ensures Conserved(cfg, Next(cfg, s, step), c)
  {
    DropInstance(s.locals, s.hands, step.i, c);
  }

  lemma ExpireConserves(cfg: Config, s: Fleet, step: Step, c: Cell)
    requires step.Expire? && Enabled(cfg, s, step) && Conserved(cfg, s, c)
    ensures Conserved(cfg, Next(cfg, s, step), c)
  {
    var key := HashKey(cfg.prefix, step.backend);
    LiveKeysApart(cfg.prefix, step.backend, c.backend);
    var before := Pending(cfg.prefix, s.flushed.Keys, s.keys, c);
    assert Pending(cfg.prefix, s.flushed.Keys, s.keys - {key}, c) == before - {key};
    SumRemove(before, key);
  }

  lemma StepConserves(cfg: Config, s: Fleet, step: Step, c: Cell)
    requires Valid(cfg) && Enabled(cfg, s, step) && Wellformed(cfg, s) && Recognises(s, step)
    requires Nameable(c.bucket, c.workload) && Conserved(cfg, s, c)
    ensures Conserved(cfg, Next(cfg, s, step), c)
  {
    match step
    case Tick(_) =>
    case Expire(_) => ExpireConserves(cfg, s, step, c);
    case ChargeShared(_, _, _) => ChargeSharedConserves(cfg, s, step, c);
    case ChargeKept(_, _, _, _) => ChargeKeptConserves(cfg, s, step, c);
    case TakeLocal(_, _) => TakeLocalConserves(cfg, s, step, c);
    case Stage(_, _) => StageConserves(cfg, s, step, c);
    case ReadStaged(_, _, _) => ReadStagedConserves(cfg, s, step, c);
    case Apply(_) => ApplyConserves(cfg, s, step, c);
    case Refuse(_, _) => ApplyConserves(cfg, s, step, c);
    case Settle(_, _) => SettleConserves(cfg, s, step, c);
    case RemoveBackend(_) =>
    case Crash(_) => CrashConserves(cfg, s, step, c);
  }

  // ---------------------------------------------------------------------
  // Each step keeps the staged hashes and the batches read from them in line
  // ---------------------------------------------------------------------

  /** Every staged hash not yet applied is kept. */
  ghost predicate KeepsStaged(prefix: string, flushed: set<string>, keys: Keys, keys': Keys) {
    forall key | key in keys :: KeepsHash(prefix, flushed, keys, keys', key)
  }

  predicate KeepsHash(prefix: string, flushed: set<string>, keys: Keys, keys': Keys, key: string)
    requires key in keys
  {
    match ParseStagedKey(prefix, key)
    case None => true
    case Some(n) => n.id in flushed || (key in keys' && keys'[key] == keys[key])
  }

  /** What a batch in hand rests on is not disturbed by a step that keeps the
      used and flushed IDs and every staged hash not yet flushed. */
  lemma BackedFrame(prefix: string, used: set<string>, flushed: set<string>, keys: Keys,
                    used': set<string>, flushed': set<string>, keys': Keys, h: InHand)
    requires Backed(prefix, used, flushed, keys, h)
    requires used <= used' && flushed <= flushed' && KeepsStaged(prefix, flushed', keys, keys')
    ensures Backed(prefix, used', flushed', keys', h)
  {
    if h.batch.id != "" && h.batch.id !in flushed' {
      ParseStagedKeyInverts(prefix, h.batch.backend, h.batch.id);
      assert KeepsHash(prefix, flushed', keys, keys', StagedKey(prefix, h.batch.backend, h.batch.id));
    }
  }

  lemma AllBackedFrame(prefix: string, used: set<string>, flushed: set<string>, keys: Keys,
                       used': set<string>, flushed': set<string>, keys': Keys, hands: map<nat, seq<InHand>>)
    requires AllBacked(prefix, used, flushed, keys, hands)
    requires used <= used' && flushed <= flushed' && KeepsStaged(prefix, flushed', keys, keys')
    ensures AllBacked(prefix, used', flushed', keys', hands)
  {
    forall i, j | i in hands && 0 <= j < |hands[i]|
      ensures Backed(prefix, used', flushed', keys', hands[i][j])
    {
      BackedFrame(prefix, used, flushed, keys, used', flushed', keys', hands[i][j]);
    }
  }

  /** Rewriting a hash that is not staged. */
  lemma LiveSetReadable(prefix: string, used: set<string>, keys: Keys, key: string, h: Hash)
    requires Readable(prefix, used, keys) && Canonical(h) && ParseStagedKey(prefix, key).None?
    ensures Readable(prefix, used, keys[key := h])
  {
    var keys' := keys[key := h];
    forall k1, k2 | k1 in keys' && k2 in keys' && SameId(prefix, k1, k2)
      ensures k1 == k2
    {
      assert k1 in keys && k2 in keys;
    }
  }

  lemma LiveSetKeeps(prefix: string, flushed: set<string>, keys: Keys, key: string, h: Hash)
    requires ParseStagedKey(prefix, key).None?
    ensures KeepsStaged(prefix, flushed, keys, keys[key := h])
  {
  }

  lemma StageReadable(prefix: string, used: set<string>, flushed: set<string>, keys: Keys, backend: string, id: string)
    requires Readable(prefix, used, keys) && backend != "" && id != "" && ':' !in id && id !in used
    ensures Readable(prefix, used + {id}, StageKeys(keys, prefix, backend, id))
    ensures KeepsStaged(prefix, flushed, keys, StageKeys(keys, prefix, backend, id))
  {
    var staged := StagedKey(prefix, backend, id);
    ParseStagedKeyInverts(prefix, backend, id);
    LiveKeysApart(prefix, backend, backend);
    assert forall k | k in keys :: !SameId(prefix, k, staged) && !SameId(prefix, staged, k);
  }

  /** A key that is dropped was a live one, or staged and applied. */
  lemma DropReadable(prefix: string, used: set<string>, flushed: set<string>, keys: Keys, key: string)
    requires Readable(prefix, used, keys)
    requires ParseStagedKey(prefix, key).None? || ParseStagedKey(prefix, key).value.id in flushed
    ensures Readable(prefix, used, keys - {key}) && KeepsStaged(prefix, flushed, keys, keys - {key})
  {
  }

  lemma ChargeWellformed(cfg: Config, s: Fleet, step: Step)
    requires step.ChargeShared? && Enabled(cfg, s, step) && Wellformed(cfg, s)
    ensures Wellformed(cfg, Next(cfg, s, step))
  {
    if step.backend in cfg.backends && !step.charge.Empty() {
      var key := HashKey(cfg.prefix, step.backend);
      var h := if key in s.keys then s.keys[key] else map[];
      var h' := ChargeHash(h, step.bucket, step.charge);
      ChargeHashCanonical(h, step.bucket, step.charge);
      LiveKeysApart(cfg.prefix, step.backend, step.backend);
      LiveSetReadable(cfg.prefix, s.used, s.keys, key, h');
      LiveSetKeeps(cfg.prefix, s.flushed.Keys, s.keys, key, h');
      AllBackedFrame(cfg.prefix, s.used, s.flushed.Keys, s.keys, s.used, s.flushed.Keys, s.keys[key := h'], s.hands);
    }
  }

  lemma StageWellformed(cfg: Config, s: Fleet, step: Step)
    requires Valid(cfg) && step.Stage? && Enabled(cfg, s, step) && Wellformed(cfg, s)
    ensures Wellformed(cfg, Next(cfg, s, step))
  {
    var keys' := StageKeys(s.keys, cfg.prefix, step.backend, step.id);
    StageReadable(cfg.prefix, s.used, s.flushed.Keys, s.keys, step.backend, step.id);
    AllBackedFrame(cfg.prefix, s.used, s.flushed.Keys, s.keys, s.used + {step.id}, s.flushed.Keys, keys', s.hands);
  }

  lemma ExpireWellformed(cfg: Config, s: Fleet, step: Step)
    requires step.Expire? && Enabled(cfg, s, step) && Wellformed(cfg, s)
    ensures Wellformed(cfg, Next(cfg, s, step))
  {
    var key := HashKey(cfg.prefix, step.backend);
    LiveKeysApart(cfg.prefix, step.backend, step.backend);
    DropReadable(cfg.prefix, s.used, s.flushed.Keys, s.keys, key);
    AllBackedFrame(cfg.prefix, s.used, s.flushed.Keys, s.keys, s.used, s.flushed.Keys, s.keys - {key}, s.hands);
  }

  /** A hand filled from the counters or from a hash. */
  lemma TakeWellformed(cfg: Config, s: Fleet, step: Step)
    requires step.TakeLocal? || step.ReadStaged?
    requires Enabled(cfg, s, step) && Wellformed(cfg, s)
    ensures Wellformed(cfg, Next(cfg, s, step))
  {
    if step.ReadStaged? {
      ParseStagedKeySound(cfg.prefix, step.key);
    }
  }

  lemma ApplyWellformed(cfg: Config, s: Fleet, step: Step)
    requires step.Apply? || step.Refuse?
    requires Enabled(cfg, s, step) && Wellformed(cfg, s)
    ensures Wellformed(cfg, Next(cfg, s, step))
  {
    var s' := Next(cfg, s, step);
    var h := Hand(s, step.i);
    assert Backed(cfg.prefix, s.used, s.flushed.Keys, s.keys, h[0]);
    AllBackedFrame(cfg.prefix, s.used, s.flushed.Keys, s.keys, s.used, s'.flushed.Keys, s.keys, s.hands);
    MarkBacked(cfg.prefix, s.used, s'.flushed.Keys, s.keys, s.hands, step.i, if step.Apply? then Applied else Refused);
  }

  /** Marking the batch at the head of a hand. */
  lemma MarkBacked(prefix: string, used: set<string>, flushed: set<string>, keys: Keys,
                   hands: map<nat, seq<InHand>>, i: nat, outcome: Outcome)
    requires AllBacked(prefix, used, flushed, keys, hands) && i in hands && hands[i] != []
    requires outcome == Applied && hands[i][0].batch.id != "" ==> hands[i][0].batch.id in flushed
    ensures AllBacked(prefix, used, flushed, keys, hands[i := [hands[i][0].(outcome := outcome)] + hands[i][1..]])
  {
    var hands' := hands[i := [hands[i][0].(outcome := outcome)] + hands[i][1..]];
    forall k, j | k in hands' && 0 <= j < |hands'[k]|
      ensures Backed(prefix, used, flushed, keys, hands'[k][j])
    {
      assert Backed(prefix, used, flushed, keys, hands[k][j]);
    }
  }

  lemma SettleWellformed(cfg: Config, s: Fleet, step: Step)
    requires step.Settle? && Enabled(cfg, s, step) && Wellformed(cfg, s)
    ensures Wellformed(cfg, Next(cfg, s, step))
  {
    var h := Hand(s, step.i)[0];
    assert Backed(cfg.prefix, s.used, s.flushed.Keys, s.keys, h);
    DropBacked(cfg.prefix, s.used, s.flushed.Keys, s.keys, s.hands, step.i);
    if h.Unstages() {
      ParseStagedKeyInverts(cfg.prefix, h.batch.backend, h.batch.id);
      DropReadable(cfg.prefix, s.used, s.flushed.Keys, s.keys, h.Key(cfg.prefix));
      AllBackedFrame(cfg.prefix, s.used, s.flushed.Keys, s.keys, s.used, s.flushed.Keys, s.keys - {h.Key(cfg.prefix)},
                     s.hands[step.i := s.hands[step.i][1..]]);
    }
  }

  lemma DropBacked(prefix: string, used: set<string>, flushed: set<string>, keys: Keys, hands: map<nat, seq<InHand>>, i: nat)
    requires AllBacked(prefix, used, flushed, keys, hands) && i in hands && hands[i] != []
    ensures AllBacked(prefix, used, flushed, keys, hands[i := hands[i][1..]])
  {
    var hands' := hands[i := hands[i][1..]];
    forall k, j | k in hands' && 0 <= j < |hands'[k]|
      ensures Backed(prefix, used, flushed, keys, hands'[k][j])
    {
      assert Backed(prefix, used, flushed, keys, hands[k][if k == i then j + 1 else j]);
    }
  }

  lemma StepWellformed(cfg: Config, s: Fleet, step: Step)
    requires Valid(cfg) && Enabled(cfg, s, step) && Wellformed(cfg, s)
    ensures Wellformed(cfg, Next(cfg, s, step))
  {
    match step
    case ChargeShared(_, _, _) => ChargeWellformed(cfg, s, step);
    case Stage(_, _) => StageWellformed(cfg, s, step);
    case Expire(_) => ExpireWellformed(cfg, s, step);
    case TakeLocal(_, _) => TakeWellformed(cfg, s, step);
    case ReadStaged(_, _, _) => TakeWellformed(cfg, s, step);
    case Apply(_) => ApplyWellformed(cfg, s, step);
    case Refuse(_, _) => ApplyWellformed(cfg, s, step);
    case Settle(_, _) => SettleWellformed(cfg, s, step);
    case _ =>
  }

  // ---------------------------------------------------------------------
  // Each step keeps an applied ID in memory long enough
  // ---------------------------------------------------------------------

  lemma StageLapses(prefix: string, now: int, expiry: map<string, int>, flushed: map<string, int>, keys: Keys, backend: string, id: string)
    requires AllLapse(prefix, now, expiry, flushed, keys)
    requires HashKey(prefix, backend) in keys && backend != "" && id != "" && ':' !in id && id !in flushed
    ensures AllLapse(prefix, now, expiry[StagedKey(prefix, backend, id) := expiry[HashKey(prefix, backend)]], flushed,
                     StageKeys(keys, prefix, backend, id))
  {
    var live, staged := HashKey(prefix, backend), StagedKey(prefix, backend, id);
    ParseStagedKeyInverts(prefix, backend, id);
    assert LapsesInTime(prefix, now, expiry, flushed, live);
    forall key | key in StageKeys(keys, prefix, backend, id)
      ensures LapsesInTime(prefix, now, expiry[staged := expiry[live]], flushed, key)
    {
      assert key == staged || LapsesInTime(prefix, now, expiry, flushed, key);
    }
  }

  lemma StageTimely(cfg: Config, s: Fleet, step: Step)
    requires Valid(cfg) && step.Stage? && Enabled(cfg, s, step) && Wellformed(cfg, s) && Timely(cfg, s)
    ensures Timely(cfg, Next(cfg, s, step))
  {
    if HashKey(cfg.prefix, step.backend) in s.keys {
      StageLapses(cfg.prefix, s.now, s.expiry, s.flushed, s.keys, step.backend, step.id);
    }
  }

  lemma KeysTimely(cfg: Config, s: Fleet, step: Step)
    requires step.ChargeShared? || step.Expire?
    requires Enabled(cfg, s, step) && Timely(cfg, s)
    ensures Timely(cfg, Next(cfg, s, step))
  {
    LiveKeysApart(cfg.prefix, step.backend, step.backend);
  }

  lemma ReadTimely(cfg: Config, s: Fleet, step: Step)
    requires step.ReadStaged? && Enabled(cfg, s, step) && Timely(cfg, s)
    ensures Timely(cfg, Next(cfg, s, step))
  {
    assert LapsesInTime(cfg.prefix, s.now, s.expiry, s.flushed, step.key);
  }

  /** Applying a batch for the first time dates its ID now. */
  lemma ApplyLapses(prefix: string, now: int, expiry: map<string, int>, flushed: map<string, int>, keys: Keys, id: string)
    requires AllLapse(prefix, now, expiry, flushed, keys)
    ensures AllLapse(prefix, now, expiry, flushed[id := now], keys)
  {
    forall key | key in keys
      ensures LapsesInTime(prefix, now, expiry, flushed[id := now], key)
    {
      assert LapsesInTime(prefix, now, expiry, flushed, key);
    }
  }

  lemma ApplyRemembers(now: int, flushed: map<string, int>, remembered: set<string>, id: string)
    requires Remembers(now, flushed, remembered)
    ensures Remembers(now, flushed[id := now], Pruned(remembered + {id}, flushed[id := now], now))
  {
  }

  /** What a hand holds once the batch at its head is marked. */
  lemma MarkTimed(longest: nat, now: int, flushed: map<string, int>, hands: map<nat, seq<InHand>>, i: nat, outcome: Outcome)
    requires AllTimed(longest, now, flushed, hands) && i in hands && hands[i] != [] && outcome != Waiting
    ensures AllTimed(longest, now, flushed, hands[i := [hands[i][0].(outcome := outcome)] + hands[i][1..]])
  {
    var hands' := hands[i := [hands[i][0].(outcome := outcome)] + hands[i][1..]];
    forall k, j | k in hands' && 0 <= j < |hands'[k]|
      ensures Timed(longest, now, flushed, hands'[k][j])
    {
      assert Timed(longest, now, flushed, hands[k][j]);
    }
  }

  lemma ApplyTimely(cfg: Config, s: Fleet, step: Step)
    requires step.Apply? || step.Refuse?
    requires Enabled(cfg, s, step) && Timely(cfg, s)
    ensures Timely(cfg, Next(cfg, s, step))
  {
    var id := Hand(s, step.i)[0].batch.id;
    var outcome := if step.Apply? then Applied else Refused;
    ApplyLapses(cfg.prefix, s.now, s.expiry, s.flushed, s.keys, id);
    ApplyRemembers(s.now, s.flushed, s.remembered, id);
    assert AllTimed(cfg.longestFlush, s.now, s.flushed[id := s.now], s.hands);
    MarkTimed(cfg.longestFlush, s.now, s.flushed, s.hands, step.i, outcome);
    MarkTimed(cfg.longestFlush, s.now, s.flushed[id := s.now], s.hands, step.i, outcome);
  }

  lemma DropTimed(longest: nat, now: int, flushed: map<string, int>, hands: map<nat, seq<InHand>>, i: nat)
    requires AllTimed(longest, now, flushed, hands) && i in hands && hands[i] != []
    ensures AllTimed(longest, now, flushed, hands[i := hands[i][1..]])
  {
    var hands' := hands[i := hands[i][1..]];
    forall k, j | k in hands' && 0 <= j < |hands'[k]|
      ensures Timed(longest, now, flushed, hands'[k][j])
    {
      assert Timed(longest, now, flushed, hands[k][if k == i then j + 1 else j]);
    }
  }

  lemma SettleTimely(cfg: Config, s: Fleet, step: Step)
    requires step.Settle? && Enabled(cfg, s, step) && Timely(cfg, s)
    ensures Timely(cfg, Next(cfg, s, step))
  {
    DropTimed(cfg.longestFlush, s.now, s.flushed, s.hands, step.i);
  }

  lemma TickTimely(cfg: Config, s: Fleet, step: Step)
    requires step.Tick? && Enabled(cfg, s, step) && Timely(cfg, s)
    ensures Timely(cfg, Next(cfg, s, step))
  {
    var s' := Next(cfg, s, step);
    forall key | key in s.keys
      ensures LapsesInTime(cfg.prefix, s'.now, s.expiry, s.flushed, key)
    {
      assert LapsesInTime(cfg.prefix, s.now, s.expiry, s.flushed, key);
    }
    forall k, j | k in s.hands && 0 <= j < |s.hands[k]|
      ensures Timed(cfg.longestFlush, s'.now, s.flushed, s.hands[k][j])
    {
      assert Timed(cfg.longestFlush, s.now, s.flushed, s.hands[k][j]) && PromptAt(cfg.longestFlush, s.hands[k][j], s'.now);
    }
  }

  lemma StepTimely(cfg: Config, s: Fleet, step: Step)
    requires Valid(cfg) && Enabled(cfg, s, step) && Wellformed(cfg, s) && Timely(cfg, s)
    ensures Timely(cfg, Next(cfg, s, step))
  {
    match step
    case Tick(_) => TickTimely(cfg, s, step);
    case Expire(_) => KeysTimely(cfg, s, step);
    case ChargeShared(_, _, _) => KeysTimely(cfg, s, step);
    case Stage(_, _) => StageTimely(cfg, s, step);
    case ReadStaged(_, _, _) => ReadTimely(cfg, s, step);
    case Apply(_) => ApplyTimely(cfg, s, step);
    case Refuse(_, _) => ApplyTimely(cfg, s, step);
    case Settle(_, _) => SettleTimely(cfg, s, step);
    case _ =>
  }

  // ---------------------------------------------------------------------
  // Every run
  // ---------------------------------------------------------------------

  function Init(): Fleet {
    Fleet(0, map[], map[], map[], map[], map[], {}, map[], {}, [], _ => 0, _ => 0)
  }

  /** The state a run ends in, or None when a step of it was not possible. */
  ghost function Run(cfg: Config, steps: seq<Step>): Option<Fleet> {
    if steps == [] then Some(Init())
    else
      match Run(cfg, steps[..|steps| - 1])
      case None => None
      case Some(s) =>
        var step := steps[|steps| - 1];
        if Enabled(cfg, s, step) then Some(Next(cfg, s, step)) else None
  }

  /** Conservation. After any run of charges, failures, renames, repeated reads,
      applies, prunes, lost answers, expiries, removals and crashes, every unit
      charged at a cell is in the store's rows, in the live hash, in a staged hash
      not yet applied, in an instance's counters, in a batch an instance took and
      has not settled, was dropped by the store with an old bucket or a removed
      backend, or was lost with a crashed instance or a lapsed live hash, and is
      counted once. All it asks is that no flush holds a batch for longer than an
      applied ID outlives its hash. */
  lemma {:induction false} UsageConserved(cfg: Config, steps: seq<Step>, c: Cell)
    requires Valid(cfg) && cfg.longestFlush <= MARGIN && Run(cfg, steps).Some?
    requires Nameable(c.bucket, c.workload)
    ensures Wellformed(cfg, Run(cfg, steps).value) && Timely(cfg, Run(cfg, steps).value)
    ensures Conserved(cfg, Run(cfg, steps).value, c)
  {
    if steps != [] {
      var front := steps[..|steps| - 1];
      UsageConserved(cfg, front, c);
      StepTimely(cfg, Run(cfg, front).value, steps[|steps| - 1]);
      StepWellformed(cfg, Run(cfg, front).value, steps[|steps| - 1]);
      TimelyRecognises(cfg, Run(cfg, front).value, steps[|steps| - 1]);
      StepConserves(cfg, Run(cfg, front).value, steps[|steps| - 1], c);
    } else {
      InitBalanced(cfg, c);
    }
  }

  lemma InitBalanced(cfg: Config, c: Cell)
    ensures Wellformed(cfg, Init()) && Timely(cfg, Init()) && Conserved(cfg, Init(), c)
  {
    assert LocalAmounts(map[], c) == map[] && HandAmounts(map[], c) == map[];
    assert Pending(cfg.prefix, Init().flushed.Keys, map[], c) == map[];
  }

  /** No counter that could still be flushed is anywhere but in the store: no live
      hash, no staged hash to read that the store has not applied, nothing in an
      instance's counters or hands. */
  ghost predicate Settled(cfg: Config, s: Fleet) {
    && (forall key | key in s.keys ::
          && ParseStagedKey(cfg.prefix, key).Some?
          && (Lapsed(s, key) || ParseStagedKey(cfg.prefix, key).value.id in s.flushed))
    && (forall i | i in s.locals :: s.locals[i] == map[])
    && (forall i | i in s.hands :: s.hands[i] == [])
  }

  /** The hashes that can no longer be read. */
  ghost function LapsedKeys(s: Fleet): Keys {
    map key | key in s.keys && Lapsed(s, key) :: s.keys[key]
  }

  /** Once everything is flushed, the store holds exactly what was charged, was not
      dropped by it or lost in a crash and did not lapse unapplied, even where a
      delete was missed. */
  lemma SettledExactly(cfg: Config, steps: seq<Step>, c: Cell)
    requires Valid(cfg) && cfg.longestFlush <= MARGIN && Run(cfg, steps).Some? && Settled(cfg, Run(cfg, steps).value)
    requires Nameable(c.bucket, c.workload)
    ensures
      var s := Run(cfg, steps).value;
      LocalAt(s.store, c)
      == ChargedAt(s.charged, c) - s.dropped(c) - s.lost(c) - Sum(Pending(cfg.prefix, s.flushed.Keys, LapsedKeys(s), c))
  {
    var s := Run(cfg, steps).value;
    UsageConserved(cfg, steps, c);
    SumZeros(LocalAmounts(s.locals, c));
    SumZeros(HandAmounts(s.hands, c));
    SumWithin(Pending(cfg.prefix, s.flushed.Keys, LapsedKeys(s), c), Pending(cfg.prefix, s.flushed.Keys, s.keys, c));
    LiveKeysApart(cfg.prefix, c.backend, c.backend);
  }

  /** Why an applied ID outlives its hash: were a waiting batch's ID applied and
      forgotten, applying it again would balance only if it was empty. */
  lemma ForgottenIdDoubles(cfg: Config, s: Fleet, i: nat, c: Cell)
    requires Conserved(cfg, s, c) && Enabled(cfg, s, Apply(i))
    requires Hand(s, i)[0].batch.id != "" && Hand(s, i)[0].batch.id in s.flushed
    requires Hand(s, i)[0].batch.id !in s.remembered
    ensures Conserved(cfg, Next(cfg, s, Apply(i)), c) <==> BatchAt(Hand(s, i)[0].batch, c) == 0
  {
    var h := Hand(s, i);
    var h' := [h[0].(outcome := Applied)] + h[1..];
    assert h'[1..] == h[1..];
    HandsSet(s.hands, i, h', c);
    StoredAt(s.store, h[0].batch, s.now, c);
    assert s.flushed[h[0].batch.id := s.now].Keys == s.flushed.Keys;
  }

  /** A batch with no ID rests on the store's word: had it landed although the
      store reported a failure, the books would balance only if it was empty. */
  lemma LocalBatchNeedsAtomicStore(cfg: Config, s: Fleet, i: nat, c: Cell)
    requires Conserved(cfg, s, c)
    requires Hand(s, i) != [] && Hand(s, i)[0].outcome == Waiting && Hand(s, i)[0].batch.id == ""
    ensures
      var h := Hand(s, i);
      var landed := ApplyBatch(s, h[0].batch).(hands := s.hands[i := [h[0].(outcome := Refused)] + h[1..]]);
      Conserved(cfg, landed, c) <==> BatchAt(h[0].batch, c) == 0
  {
    var h := Hand(s, i);
    var h' := [h[0].(outcome := Refused)] + h[1..];
    assert h'[1..] == h[1..];
    HandsSet(s.hands, i, h', c);
    StoredAt(s.store, h[0].batch, s.now, c);
  }
}
