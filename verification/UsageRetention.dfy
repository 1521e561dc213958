/** How long the store remembers, and what that is worth: exactly when a usage row
    is whole, and exactly how long a flush may hold a batch before an applied one
    can be applied again. Models the retentions of internal/store/core/usagelimits.go
    and internal/store/sqlite/quota.go over the runs of UsageFleet. */
module UsageRetention {
  import opened Common
  import opened UsageNames
  import opened UsageLocal
  import opened UsageRedis
  import opened UsageFleet

  // ---------------------------------------------------------------------
  // When a row is whole
  // ---------------------------------------------------------------------

  /** A step that applies a new batch of a cell's backend once the cell's bucket is
      past its retention. */
  predicate Ages(s: Fleet, step: Step, c: Cell) {
    && (step.Apply? || (step.Refuse? && step.landed))
    && Hand(s, step.i) != [] && IsNew(s, Hand(s, step.i)[0].batch)
    && Hand(s, step.i)[0].batch.backend == c.backend && c.bucket < s.now - USAGE_RETENTION
  }

  ghost predicate AgesAt(cfg: Config, steps: seq<Step>, k: nat, c: Cell)
    requires k < |steps|
  {
    Run(cfg, steps[..k]).Some? && Ages(Run(cfg, steps[..k]).value, steps[k], c)
  }

  ghost predicate Late(cfg: Config, steps: seq<Step>, c: Cell) {
    exists k: nat :: k < |steps| && AgesAt(cfg, steps, k, c)
  }

  lemma AgesInFront(cfg: Config, steps: seq<Step>, k: nat, c: Cell)
    requires k < |steps| - 1
    ensures AgesAt(cfg, steps[..|steps| - 1], k, c) <==> AgesAt(cfg, steps, k, c)
  {
    var front := steps[..|steps| - 1];
    assert front[..k] == steps[..k];
  }

  lemma LateOrLast(cfg: Config, steps: seq<Step>, k: nat, c: Cell)
    requires k < |steps| && AgesAt(cfg, steps, k, c)
    ensures
      var n := |steps| - 1;
      Late(cfg, steps[..n], c) || (Run(cfg, steps[..n]).Some? && Ages(Run(cfg, steps[..n]).value, steps[n], c))
  {
    if k < |steps| - 1 {
      AgesInFront(cfg, steps, k, c);
    }
  }

  lemma LateStays(cfg: Config, steps: seq<Step>, c: Cell)
    requires steps != [] && Late(cfg, steps[..|steps| - 1], c)
    ensures Late(cfg, steps, c)
  {
    var k: nat :| k < |steps| - 1 && AgesAt(cfg, steps[..|steps| - 1], k, c);
    AgesInFront(cfg, steps, k, c);
  }

  lemma LateFront(cfg: Config, steps: seq<Step>, s: Fleet, c: Cell)
    requires steps != [] && Run(cfg, steps[..|steps| - 1]) == Some(s)
    ensures Late(cfg, steps, c) <==> Late(cfg, steps[..|steps| - 1], c) || Ages(s, steps[|steps| - 1], c)
  {
    var n := |steps| - 1;
    if Late(cfg, steps, c) {
      var k: nat :| k < |steps| && AgesAt(cfg, steps, k, c);
      LateOrLast(cfg, steps, k, c);
    }
    if Late(cfg, steps[..n], c) {
      LateStays(cfg, steps, c);
    }
    if Ages(s, steps[n], c) {
      assert AgesAt(cfg, steps, n, c);
    }
  }

  /** An applied batch leaves nothing in a bucket past its retention. */
  lemma StepAges(cfg: Config, s: Fleet, step: Step, c: Cell)
    requires Enabled(cfg, s, step)
    ensures var n := Next(cfg, s, step);
      && s.now <= n.now
      && (!Ages(s, step, c) && step != RemoveBackend(c.backend) ==> n.dropped(c) == s.dropped(c))
      && (Ages(s, step, c) ==> LocalAt(n.store, c) == 0)
      && (LocalAt(s.store, c) == 0 && c.bucket < s.now - USAGE_RETENTION ==> LocalAt(n.store, c) == 0)
  {
    if step.Apply? || step.Refuse? {
      BatchAges(s.store, Hand(s, step.i)[0].batch, s.now, c);
    }
  }

  lemma BatchAges(store: Counters, b: UsageBatch, now: int, c: Cell)
    ensures c.backend == b.backend && c.bucket < now - USAGE_RETENTION ==> LocalAt(Stored(store, b, now), c) == 0
    ensures c.backend != b.backend ==> LocalAt(Stored(store, b, now), c) == LocalAt(store, c)
  {
    RecentAt(AddBatch(store, b), b.backend, now - USAGE_RETENTION, c);
    AddBatchAt(store, b, c);
  }

  lemma {:induction false} RowSoFar(cfg: Config, steps: seq<Step>, c: Cell)
    requires Run(cfg, steps).Some?
    ensures var s := Run(cfg, steps).value;
      && (!Late(cfg, steps, c) && RemoveBackend(c.backend) !in steps ==> s.dropped(c) == 0)
      && (Late(cfg, steps, c) ==> LocalAt(s.store, c) == 0 && c.bucket < s.now - USAGE_RETENTION)
  {
    if steps != [] {
      var n := |steps| - 1;
      RowSoFar(cfg, steps[..n], c);
      LateFront(cfg, steps, Run(cfg, steps[..n]).value, c);
      StepAges(cfg, Run(cfg, steps[..n]).value, steps[n], c);
    }
  }

  /** A row holds everything ever applied to it exactly when no new batch of its
      backend was applied after its retention, unless nothing ever was; and after
      such a batch it holds nothing, for good. Removing the backend is the only
      other way to lose it. */
  lemma RowIsWhole(cfg: Config, steps: seq<Step>, c: Cell)
    requires Run(cfg, steps).Some? && RemoveBackend(c.backend) !in steps
    ensures var s := Run(cfg, steps).value;
      var landed := LocalAt(s.store, c) + s.dropped(c);
      && (LocalAt(s.store, c) == landed <==> !Late(cfg, steps, c) || landed == 0)
      && (Late(cfg, steps, c) ==> LocalAt(s.store, c) == 0)
  {
    RowSoFar(cfg, steps, c);
  }

  // ---------------------------------------------------------------------
  // How long a flush may hold a batch
  // ---------------------------------------------------------------------

  ghost predicate Reached(cfg: Config, s: Fleet) {
    exists steps :: Run(cfg, steps) == Some(s)
  }

  lemma StartReached(cfg: Config)
    ensures Reached(cfg, Init())
  {
    assert Run(cfg, []) == Some(Init());
  }

  lemma StepReached(cfg: Config, s: Fleet, step: Step)
    requires Reached(cfg, s) && Enabled(cfg, s, step)
    ensures Reached(cfg, Next(cfg, s, step))
  {
    var steps :| Run(cfg, steps) == Some(s);
    assert (steps + [step])[..|steps|] == steps;
    assert Run(cfg, steps + [step]) == Some(Next(cfg, s, step));
  }

  /** A run in which every apply recognises a batch applied before. */
  ghost predicate Calm(cfg: Config, steps: seq<Step>) {
    steps == [] || (
      var n := |steps| - 1;
      Calm(cfg, steps[..n]) && Run(cfg, steps[..n]).Some? && Recognises(Run(cfg, steps[..n]).value, steps[n]))
  }

  ghost predicate Calmly(cfg: Config, s: Fleet) {
    exists steps :: Run(cfg, steps) == Some(s) && Calm(cfg, steps)
  }

  lemma {:induction false} CalmConserves(cfg: Config, steps: seq<Step>, c: Cell)
    requires Valid(cfg) && Nameable(c.bucket, c.workload) && Run(cfg, steps).Some? && Calm(cfg, steps)
    ensures Wellformed(cfg, Run(cfg, steps).value) && Conserved(cfg, Run(cfg, steps).value, c)
  {
    InitBalanced(cfg, c);
    if steps != [] {
      var n := |steps| - 1;
      CalmConserves(cfg, steps[..n], c);
      StepWellformed(cfg, Run(cfg, steps[..n]).value, steps[n]);
      StepConserves(cfg, Run(cfg, steps[..n]).value, steps[n], c);
    }
  }

  lemma CalmStart(cfg: Config)
    ensures Calmly(cfg, Init())
  {
    assert Run(cfg, []) == Some(Init()) && Calm(cfg, []);
  }

  lemma CalmStep(cfg: Config, s: Fleet, step: Step)
    requires Calmly(cfg, s) && Enabled(cfg, s, step) && Recognises(s, step)
    ensures Calmly(cfg, Next(cfg, s, step))
  {
    var steps :| Run(cfg, steps) == Some(s) && Calm(cfg, steps);
    assert (steps + [step])[..|steps|] == steps;
    assert Run(cfg, steps + [step]) == Some(Next(cfg, s, step)) && Calm(cfg, steps + [step]);
  }

  /** Every hash charges wrote can be read. */
  lemma {:induction false} SomeRead(h: Hash, id: string, backend: string) returns (b: UsageBatch)
    requires Canonical(h)
    ensures b.id == id && b.backend == backend && IsReadOf(h, b)
    decreases |h|
  {
    if h == map[] {
      b := UsageBatch(id, backend, map[]);
    } else {
      var field :| field in h;
      b := SomeRead(h - {field}, id, backend);
      b := OneMoreRead(h, b, field);
    }
  }

  lemma OneMoreRead(h: Hash, b: UsageBatch, field: string) returns (more: UsageBatch)
    requires Canonical(h) && field in h && IsReadOf(h - {field}, b)
    ensures more.id == b.id && more.backend == b.backend && IsReadOf(h, more)
  {
    PutBack(h, field);
    AddsToSame(b, field, h[field]);
    AddHashFieldReads(h - {field}, b, field, h[field]);
    more := AddHashField(b, field, h[field]);
  }

  lemma PutBack(h: Hash, field: string)
    requires field in h
    ensures (h - {field})[field := h[field]] == h
  {
  }

  lemma AddsToSame(b: UsageBatch, field: string, v: int)
    ensures AddHashField(b, field, v).id == b.id && AddHashField(b, field, v).backend == b.backend
  {
  }

  /** A call, and the hash it leaves in an empty one. */
  predicate IsHashOf(call: Charge, h: Hash) {
    !call.Empty() && Nameable(0, call.workload) && h == ChargeHash(map[], 0, call)
  }

  predicate IsId(id: string) {
    id != "" && ':' !in id
  }

  /** One call charged to a backend with no live hash. */
  lemma Charges(cfg: Config, s: Fleet, backend: string, call: Charge, h: Hash) returns (t: Fleet)
    requires backend in cfg.backends && Calmly(cfg, s) && HashKey(cfg.prefix, backend) !in s.keys
    requires IsHashOf(call, h)
    ensures Calmly(cfg, t)
    ensures
      var live := HashKey(cfg.prefix, backend);
      t == s.(keys := s.keys[live := h], expiry := s.expiry[live := s.now + KEY_TTL], charged := t.charged)
  {
    t := ChargesSome(cfg, s, backend, call);
    FirstCharge(s.keys, cfg.prefix, backend, call, h);
  }

  lemma ChargesSome(cfg: Config, s: Fleet, backend: string, call: Charge) returns (t: Fleet)
    requires backend in cfg.backends && Calmly(cfg, s) && HashKey(cfg.prefix, backend) !in s.keys
    requires !call.Empty() && Nameable(0, call.workload)
    ensures Calmly(cfg, t)
    ensures t == s.(keys := ChargeKeys(s.keys, cfg.prefix, backend, 0, call), charged := t.charged,
                    expiry := s.expiry[HashKey(cfg.prefix, backend) := s.now + KEY_TTL])
  {
    t := NextOfCharge(cfg, s, backend, call);
    CalmStep(cfg, s, ChargeShared(backend, 0, call));
  }

  lemma NextOfCharge(cfg: Config, s: Fleet, backend: string, call: Charge) returns (t: Fleet)
    requires backend in cfg.backends && HashKey(cfg.prefix, backend) !in s.keys
    requires !call.Empty() && Nameable(0, call.workload)
    ensures Enabled(cfg, s, ChargeShared(backend, 0, call)) && t == Next(cfg, s, ChargeShared(backend, 0, call))
    ensures t == s.(keys := ChargeKeys(s.keys, cfg.prefix, backend, 0, call), charged := t.charged,
                    expiry := s.expiry[HashKey(cfg.prefix, backend) := s.now + KEY_TTL])
  {
    t := Next(cfg, s, ChargeShared(backend, 0, call));
  }

  lemma FirstCharge(keys: Keys, prefix: string, backend: string, call: Charge, h: Hash)
    requires HashKey(prefix, backend) !in keys && IsHashOf(call, h)
    ensures ChargeKeys(keys, prefix, backend, 0, call) == keys[HashKey(prefix, backend) := h]
  {
  }

  /** The live hash renamed aside. */
  lemma Stages(cfg: Config, s: Fleet, backend: string, id: string) returns (t: Fleet)
    requires backend in cfg.backends && Calmly(cfg, s) && IsId(id) && id !in s.used
    requires HashKey(cfg.prefix, backend) in s.keys && HashKey(cfg.prefix, backend) in s.expiry
    requires s.now <= s.expiry[HashKey(cfg.prefix, backend)]
    ensures Calmly(cfg, t)
    ensures
      var live, key := HashKey(cfg.prefix, backend), StagedKey(cfg.prefix, backend, id);
      t == s.(keys := (s.keys - {live})[key := s.keys[live]], expiry := s.expiry[key := s.expiry[live]], used := s.used + {id})
  {
    CalmStep(cfg, s, Step.Stage(backend, id));
    t := Next(cfg, s, Step.Stage(backend, id));
  }

  /** A staged hash read by an instance that holds nothing. */
  lemma Reads(cfg: Config, s: Fleet, i: nat, b: UsageBatch) returns (t: Fleet)
    requires Calmly(cfg, s) && b.backend != "" && IsId(b.id) && Hand(s, i) == []
    requires var key := StagedKey(cfg.prefix, b.backend, b.id);
      key in s.keys && key in s.expiry && s.now <= s.expiry[key] && IsReadOf(s.keys[key], b)
    ensures Calmly(cfg, t)
    ensures t == s.(hands := s.hands[i := [InHand(b, Waiting, s.now)]])
  {
    var step := ReadStaged(i, StagedKey(cfg.prefix, b.backend, b.id), b);
    ParseStagedKeyInverts(cfg.prefix, b.backend, b.id);
    CalmStep(cfg, s, step);
    t := Next(cfg, s, step);
    assert Hand(s, i) + [InHand(b, Waiting, s.now)] == [InHand(b, Waiting, s.now)];
  }

  /** A batch applied for the first time. */
  lemma Applies(cfg: Config, s: Fleet, i: nat, h: InHand) returns (t: Fleet)
    requires Calmly(cfg, s)
    requires i in s.hands && s.hands[i] == [h] && h.outcome == Waiting && h.batch.id != ""
    requires h.batch.id !in s.remembered && h.batch.id !in s.flushed
    ensures Calmly(cfg, t)
    ensures
      var id := h.batch.id;
      t == s.(store := t.store, dropped := t.dropped, hands := s.hands[i := [h.(outcome := Applied)]],
              flushed := s.flushed[id := s.now],
              remembered := Pruned(s.remembered + {id}, s.flushed[id := s.now], s.now))
  {
    CalmStep(cfg, s, Apply(i));
    t := Next(cfg, s, Apply(i));
    assert [h.(outcome := Applied)] + [h][1..] == [h.(outcome := Applied)];
  }

  /** A call charged and flushed: charge, rename, read, apply. */
  lemma FlushOnce(cfg: Config, s: Fleet, i: nat, call: Charge, h: Hash, b: UsageBatch) returns (t: Fleet)
    requires Valid(cfg) && b.backend in cfg.backends && Calmly(cfg, s) && IsHashOf(call, h)
    requires IsId(b.id) && b.id !in s.used && b.id !in s.flushed && b.id !in s.remembered
    requires IsReadOf(h, b) && HashKey(cfg.prefix, b.backend) !in s.keys && Hand(s, i) == []
    ensures Calmly(cfg, t) && t.now == s.now && t.used == s.used + {b.id}
    ensures
      var key := StagedKey(cfg.prefix, b.backend, b.id);
      t.keys == s.keys[key := h] && key in t.expiry && t.expiry[key] == s.now + KEY_TTL
    ensures t.hands == s.hands[i := [InHand(b, Applied, s.now)]]
    ensures t.flushed == s.flushed[b.id := s.now]
    ensures t.remembered == Pruned(s.remembered + {b.id}, s.flushed[b.id := s.now], s.now)
  {
    t := ChargeAndStage(cfg, s, call, h, b);
    t := ReadAndApply(cfg, t, i, b);
  }

  lemma ReadAndApply(cfg: Config, s: Fleet, i: nat, b: UsageBatch) returns (t: Fleet)
    requires Calmly(cfg, s) && b.backend != "" && IsId(b.id) && Hand(s, i) == []
    requires b.id !in s.flushed && b.id !in s.remembered
    requires var key := StagedKey(cfg.prefix, b.backend, b.id);
      key in s.keys && key in s.expiry && s.now <= s.expiry[key] && IsReadOf(s.keys[key], b)
    ensures Calmly(cfg, t)
    ensures t == s.(store := t.store, dropped := t.dropped, hands := s.hands[i := [InHand(b, Applied, s.now)]],
                    flushed := s.flushed[b.id := s.now],
                    remembered := Pruned(s.remembered + {b.id}, s.flushed[b.id := s.now], s.now))
  {
    var s1 := Reads(cfg, s, i, b);
    t := Applies(cfg, s1, i, InHand(b, Waiting, s.now));
  }

  lemma ChargeAndStage(cfg: Config, s: Fleet, call: Charge, h: Hash, b: UsageBatch) returns (t: Fleet)
    requires Valid(cfg) && b.backend in cfg.backends && Calmly(cfg, s) && IsHashOf(call, h)
    requires IsId(b.id) && b.id !in s.used && HashKey(cfg.prefix, b.backend) !in s.keys
    ensures Calmly(cfg, t)
    ensures
      var live, key := HashKey(cfg.prefix, b.backend), StagedKey(cfg.prefix, b.backend, b.id);
      t == s.(keys := s.keys[key := h], expiry := s.expiry[live := s.now + KEY_TTL][key := s.now + KEY_TTL],
              used := s.used + {b.id}, charged := t.charged)
  {
    var s1 := Charges(cfg, s, b.backend, call, h);
    t := Stages(cfg, s1, b.backend, b.id);
    TakeBack(s.keys, HashKey(cfg.prefix, b.backend), h);
  }

  lemma TakeBack(keys: Keys, key: string, h: Hash)
    requires key !in keys
    ensures keys[key := h] - {key} == keys
  {
  }

  lemma Ticks(cfg: Config, s: Fleet, d: nat) returns (t: Fleet)
    requires Calmly(cfg, s) && Enabled(cfg, s, Tick(d))
    ensures Calmly(cfg, t) && t == s.(now := s.now + d)
  {
    CalmStep(cfg, s, Tick(d));
    t := Next(cfg, s, Tick(d));
  }

  /** A batch applied at the start, and read again as its hash is about to lapse. */
  lemma ReadTwice(cfg: Config, call: Charge, h: Hash, b: UsageBatch) returns (t: Fleet)
    requires Valid(cfg) && b.backend in cfg.backends && IsHashOf(call, h)
    requires IsId(b.id) && IsReadOf(h, b)
    ensures Calmly(cfg, t) && t.now == KEY_TTL && t.used == {b.id}
    ensures t.keys == map[StagedKey(cfg.prefix, b.backend, b.id) := h]
    ensures t.flushed == map[b.id := 0] && t.remembered <= {b.id}
    ensures t.hands == map[0 := [InHand(b, Applied, 0)], 1 := [InHand(b, Waiting, KEY_TTL)]]
  {
    CalmStart(cfg);
    var s := FlushOnce(cfg, Init(), 0, call, h, b);
    s := Ticks(cfg, s, KEY_TTL);
    t := Reads(cfg, s, 1, b);
  }

  /** Held for longer than the margin, the second batch waits until another flush
      has pruned its ID. */
  lemma Forgotten(cfg: Config, call: Charge, h: Hash, b: UsageBatch, other: UsageBatch) returns (t: Fleet)
    requires Valid(cfg) && cfg.longestFlush > MARGIN && b.backend in cfg.backends && other.backend == b.backend
    requires IsHashOf(call, h) && IsReadOf(h, b) && IsReadOf(h, other)
    requires IsId(b.id) && IsId(other.id) && b.id != other.id
    ensures Calmly(cfg, t) && 1 in t.hands && t.hands[1] == [InHand(b, Waiting, KEY_TTL)]
    ensures b.id in t.flushed && b.id !in t.remembered
  {
    var s := ReadTwice(cfg, call, h, b);
    s := Ticks(cfg, s, MARGIN + 1);
    LiveKeysApart(cfg.prefix, b.backend, b.backend);
    ParseStagedKeyInverts(cfg.prefix, b.backend, b.id);
    t := FlushOnce(cfg, s, 2, call, h, other);
  }

  /** A flush that may hold a batch for longer than the margin can count it twice. */
  lemma SlowFlushDoubles(cfg: Config, call: Charge, h: Hash, b: UsageBatch, other: UsageBatch, c: Cell)
    returns (t: Fleet)
    requires Valid(cfg) && cfg.longestFlush > MARGIN && b.backend in cfg.backends && other.backend == b.backend
    requires IsHashOf(call, h) && IsReadOf(h, b) && IsReadOf(h, other)
    requires IsId(b.id) && IsId(other.id) && b.id != other.id
    requires Nameable(c.bucket, c.workload) && BatchAt(b, c) != 0
    ensures Reached(cfg, t) && !Conserved(cfg, t, c)
  {
    var s := Forgotten(cfg, call, h, b, other);
    var steps :| Run(cfg, steps) == Some(s) && Calm(cfg, steps);
    CalmConserves(cfg, steps, c);
    ForgottenIdDoubles(cfg, s, 1, c);
    StepReached(cfg, s, Apply(1));
    t := Next(cfg, s, Apply(1));
  }

  const ONE_CALL := Charge(1, 0, 0, "", [], 0)

  lemma OneCallHash(c: Cell) returns (h: Hash)
    requires c.bucket == 0 && c.workload == "" && c.field == ApiRequests
    ensures IsHashOf(ONE_CALL, h) && Canonical(h) && HashAt(h, c) == 1
  {
    h := ChargeHash(map[], 0, ONE_CALL);
    ChargeHashCanonical(map[], 0, ONE_CALL);
    ChargeHashAt(map[], 0, ONE_CALL, c);
  }

  /** The books balance in every run exactly when no flush may hold a batch for
      longer than an applied ID outlives its hash. */
  lemma MarginIsExact(cfg: Config)
    requires Valid(cfg) && cfg.backends != []
    ensures (forall s: Fleet, c: Cell :: Reached(cfg, s) && Nameable(c.bucket, c.workload) ==> Conserved(cfg, s, c))
            <==> cfg.longestFlush <= MARGIN
  {
    if cfg.longestFlush <= MARGIN {
      forall s: Fleet, c: Cell | Reached(cfg, s) && Nameable(c.bucket, c.workload)
        ensures Conserved(cfg, s, c)
      {
        var steps :| Run(cfg, steps) == Some(s);
        UsageConserved(cfg, steps, c);
      }
    } else {
      var s, c := SomeDoubling(cfg);
    }
  }

  lemma SomeDoubling(cfg: Config) returns (t: Fleet, c: Cell)
    requires Valid(cfg) && cfg.backends != [] && cfg.longestFlush > MARGIN
    ensures Reached(cfg, t) && Nameable(c.bucket, c.workload) && !Conserved(cfg, t, c)
  {
    c := Cell(cfg.backends[0], 0, "", ApiRequests);
    var h := OneCallHash(c);
    var b := SomeRead(h, "x", c.backend);
    var other := SomeRead(h, "y", c.backend);
    assert BatchAt(b, c) == HashAt(h, c);
    t := SlowFlushDoubles(cfg, ONE_CALL, h, b, other, c);
  }
}
