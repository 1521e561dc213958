/** The registry of counters behind every local charge, at the grain its users run
    at: internal/counter/registry.go, with the charge of internal/counter/local.go
    that resolves its accumulator and then adds to it, and the take that swaps the
    registry out and then reads what it held. */
module CounterRegistry {
  import opened Common

  class Accumulator {
    var n: int

    constructor ()
      ensures n == 0
    {
      n := 0;
    }
  }

  class Registry<K(==)> {
    var entries: map<K, Accumulator>

    constructor ()
      ensures entries == map[]
    {
      entries := map[];
    }

    method Peek(key: K) returns (a: Option<Accumulator>)
      ensures a == Find(entries, key)
    {
      a := Find(entries, key);
    }

    /** The accumulator of a key, created at zero on first use. */
    method Get(key: K) returns (a: Accumulator)
      modifies this
      ensures entries == old(entries)[key := a]
      ensures if key in old(entries) then a == old(entries)[key] else fresh(a) && a.n == 0
    {
      var existing := Peek(key);
      if existing.Some? {
        return existing.value;
      }
      a := new Accumulator();
      entries := entries[key := a];
    }

    /** Empties the registry and hands over what it held. */
    method SwapAll() returns (held: map<K, Accumulator>)
      modifies this
      ensures entries == map[] && held == old(entries)
    {
      held := entries;
      entries := map[];
    }
  }

  // ---------------------------------------------------------------------
  // Charges that race a take
  // ---------------------------------------------------------------------

  /** Accumulators are numbered in order of creation. entries is the registry;
      swapped are accumulators taken out and not yet read, read those a take has
      read; charging maps a charge under way to the accumulator it resolved.
      charged, taken and late are sums: what was ever added, what takes read,
      and what was added to an accumulator already read. */
  datatype Race = Race(
    entries: map<string, nat>, cells: map<nat, int>, swapped: set<nat>, read: set<nat>,
    charging: map<nat, nat>, charged: int, taken: int, late: int)

  const QUIET := Race(map[], map[], {}, {}, map[], 0, 0, 0)

  datatype Step =
    | Resolve(charge: nat, key: string, cell: nat)
    | Add(charge: nat, n: int)
    | Swap
    | Read(cell: nat)

  predicate Enabled(r: Race, step: Step) {
    match step
    case Resolve(_, key, cell) => key in r.entries || cell !in r.cells
    case Add(charge, _) => charge in r.charging && r.charging[charge] in r.cells
    case Swap => true
    case Read(cell) => cell in r.swapped && cell in r.cells
  }

  function Next(r: Race, step: Step): Race
    requires Enabled(r, step)
  {
    match step
    case Resolve(charge, key, cell) =>
      if key in r.entries then r.(charging := r.charging[charge := r.entries[key]])
      else r.(entries := r.entries[key := cell], cells := r.cells[cell := 0], charging := r.charging[charge := cell])
    case Add(charge, n) =>
      var cell := r.charging[charge];
      r.(cells := r.cells[cell := r.cells[cell] + n], charging := r.charging - {charge}, charged := r.charged + n,
         late := r.late + if cell in r.read then n else 0)
    case Swap => r.(entries := map[], swapped := r.swapped + r.entries.Values)
    case Read(cell) => r.(swapped := r.swapped - {cell}, read := r.read + {cell}, taken := r.taken + r.cells[cell])
  }

  /** What takes have still to read: the accumulators in the registry or swapped
      out of it. */
  function Unread(r: Race): map<nat, int> {
    map cell | cell in r.cells && cell !in r.read :: r.cells[cell]
  }

  ghost predicate Sound(r: Race) {
    && (forall k :: k in r.entries ==> r.entries[k] in r.cells && r.entries[k] !in r.read && r.entries[k] !in r.swapped)
    && (forall c :: c in r.charging ==> r.charging[c] in r.cells)
    && r.swapped <= r.cells.Keys && r.read <= r.cells.Keys && r.swapped !! r.read
    && (forall cell :: cell in r.cells && cell !in r.read ==> cell in r.swapped || cell in r.entries.Values)
    && r.charged == r.taken + Sum(Unread(r)) + r.late
  }

  lemma ResolveSound(r: Race, charge: nat, key: string, cell: nat)
    requires Sound(r) && Enabled(r, Resolve(charge, key, cell))
    ensures Sound(Next(r, Resolve(charge, key, cell)))
  {
    var n := Next(r, Resolve(charge, key, cell));
    if key !in r.entries {
      assert n.entries[key] == cell;
      forall c | c in r.entries.Values
        ensures c in n.entries.Values
      {
        var k :| k in r.entries && r.entries[k] == c;
        assert n.entries[k] == c;
      }
      assert Unread(n) == Unread(r)[cell := 0];
      SumUpdate(Unread(r), cell, 0);
    } else {
      assert Unread(n) == Unread(r);
    }
  }

  lemma AddSound(r: Race, charge: nat, amount: int)
    requires Sound(r) && Enabled(r, Add(charge, amount))
    ensures Sound(Next(r, Add(charge, amount)))
  {
    var n, cell := Next(r, Add(charge, amount)), r.charging[charge];
    if cell in r.read {
      assert Unread(n) == Unread(r);
    } else {
      assert Unread(n) == Unread(r)[cell := r.cells[cell] + amount];
      SumUpdate(Unread(r), cell, r.cells[cell] + amount);
    }
  }

  lemma ReadSound(r: Race, cell: nat)
    requires Sound(r) && Enabled(r, Read(cell))
    ensures Sound(Next(r, Read(cell)))
  {
    var n := Next(r, Read(cell));
    assert Unread(n) == Unread(r) - {cell};
    SumRemove(Unread(r), cell);
  }

  lemma StepSound(r: Race, step: Step)
    requires Sound(r) && Enabled(r, step)
    ensures Sound(Next(r, step))
  {
    match step
    case Resolve(charge, key, cell) => ResolveSound(r, charge, key, cell);
    case Add(charge, n) => AddSound(r, charge, n);
    case Swap => assert Unread(Next(r, step)) == Unread(r);
    case Read(cell) => ReadSound(r, cell);
  }

  ghost predicate Reaches(r: Race, steps: seq<Step>, end: Race)
    decreases |steps|
  {
    if steps == [] then r == end
    else Enabled(r, steps[0]) && Reaches(Next(r, steps[0]), steps[1..], end)
  }

  lemma {:induction false} RunSound(r: Race, steps: seq<Step>, end: Race)
    requires Sound(r) && Reaches(r, steps, end)
    ensures Sound(end)
    decreases |steps|
  {
    if steps != [] {
      StepSound(r, steps[0]);
      RunSound(Next(r, steps[0]), steps[1..], end);
    }
  }

  lemma QuietSound()
    ensures Sound(QUIET)
  {
    assert Unread(QUIET) == map[];
  }

  /** No step of a run adds an amount to an accumulator a take has already read. */
  ghost predicate Punctual(r: Race, steps: seq<Step>)
    decreases |steps|
  {
    steps == [] || (
      && Enabled(r, steps[0])
      && (steps[0].Add? && steps[0].n != 0 ==> r.charging[steps[0].charge] !in r.read)
      && Punctual(Next(r, steps[0]), steps[1..]))
  }

  predicate NoneNegative(steps: seq<Step>) {
    forall i :: 0 <= i < |steps| && steps[i].Add? ==> steps[i].n >= 0
  }

  lemma {:induction false} LateCounts(r: Race, steps: seq<Step>, end: Race)
    requires Reaches(r, steps, end)
    ensures Punctual(r, steps) ==> end.late == r.late
    ensures NoneNegative(steps) ==> end.late >= r.late && (end.late == r.late <==> Punctual(r, steps))
    decreases |steps|
  {
    if steps != [] {
      LateCounts(Next(r, steps[0]), steps[1..], end);
      assert NoneNegative(steps) ==> NoneNegative(steps[1..]) && (steps[0].Add? ==> steps[0].n >= 0);
    }
  }

  /** Over every interleaving, what was charged is what takes read or will read, if
      nothing is added to an accumulator a take had already read; and, where no
      amount is negative, only if. What is missing is the net amount added late. */
  lemma ChargesAccountedFor(steps: seq<Step>, end: Race)
    requires Reaches(QUIET, steps, end)
    ensures end.charged - (end.taken + Sum(Unread(end))) == end.late
    ensures Punctual(QUIET, steps) ==> end.charged == end.taken + Sum(Unread(end))
    ensures NoneNegative(steps) ==>
              (end.charged == end.taken + Sum(Unread(end)) <==> Punctual(QUIET, steps))
  {
    QuietSound();
    RunSound(QUIET, steps, end);
    LateCounts(QUIET, steps, end);
  }

  /** A charge that resolves its accumulator, and adds to it once a take has
      swapped it out and read it, is lost. */
  lemma LateChargeIsLost(n: int)
    requires n != 0
    ensures
      var steps := [Resolve(0, "k", 0), Swap, Read(0), Add(0, n)];
      exists end :: Reaches(QUIET, steps, end) && end.charged == n && end.taken == 0 && Sum(Unread(end)) == 0
  {
    var s1 := Next(QUIET, Resolve(0, "k", 0));
    var s2 := Next(s1, Swap);
    assert s1.entries["k"] == 0 && 0 in s1.entries.Values;
    var s3 := Next(s2, Read(0));
    var end := Next(s3, Add(0, n));
    var steps := [Resolve(0, "k", 0), Swap, Read(0), Add(0, n)];
    assert steps[1..] == [Swap, Read(0), Add(0, n)];
    assert steps[1..][1..] == [Read(0), Add(0, n)];
    assert steps[1..][1..][1..] == [Add(0, n)];
    assert Reaches(s3, [Add(0, n)], end);
    assert Reaches(s2, [Read(0), Add(0, n)], end);
    assert Reaches(s1, [Swap, Read(0), Add(0, n)], end);
    assert Reaches(QUIET, steps, end);
    ChargesAccountedFor(steps, end);
  }
}
