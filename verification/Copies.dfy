/** Removing copies without losing objects: the locked removal and placement of
    internal/store/core/objects.go, the drain of internal/worker/drainer.go and
    the over-replication cleaner of internal/worker/overreplication.go. One
    object at a time, since every write locks its key. */
module Copies {
  import opened Common

  /** One backend's copy: where its bytes are, and whether its row still has what
      opens them. */
  datatype Copy = Copy(storageKey: string, readable: bool)

  type Copies = map<string, Copy>

  /** A copy as a worker read it, possibly long ago. */
  datatype Location = Location(backend: string, storageKey: string)

  datatype Refusal = CopyChanged | CopyNotExcess | CopyHoldsOnlyDEK | TargetRefused

  // ---------------------------------------------------------------------
  // Removing and placing under the key lock
  // ---------------------------------------------------------------------

  function Readable(copies: Copies): set<string> {
    set b | b in copies && copies[b].readable
  }

  /** The only copy still carrying the object's key while a sibling does not. */
  predicate LastDecryptable(copies: Copies, backend: string) {
    Readable(copies) == {backend} && |copies| > 1
  }

  predicate Current(copies: Copies, loc: Location) {
    loc.backend in copies && copies[loc.backend].storageKey == loc.storageKey
  }

  /** Why a copy must stay, if it must. */
  function RemovalRefused(copies: Copies, loc: Location, keepAtLeast: int): Option<Refusal> {
    if !Current(copies, loc) then Some(CopyChanged)
    else if keepAtLeast <= 0 then None
    else if |copies| <= keepAtLeast then Some(CopyNotExcess)
    else if LastDecryptable(copies, loc.backend) then Some(CopyHoldsOnlyDEK)
    else None
  }

  function AfterDrop(copies: Copies, loc: Location, keepAtLeast: int): Copies {
    if RemovalRefused(copies, loc, keepAtLeast).Some? then copies else copies - {loc.backend}
  }

  /** Why a copy made of source on target cannot be recorded, if it cannot. */
  function PlacementRefused(copies: Copies, source: Location, target: string, move: bool): Option<Refusal> {
    if !Current(copies, source) then Some(CopyChanged)
    else if target == source.backend then (if move then None else Some(TargetRefused))
    else if target in copies then Some(TargetRefused)
    else None
  }

  function AfterPlace(copies: Copies, source: Location, target: string, path: string, move: bool): Copies {
    if PlacementRefused(copies, source, target, move).Some? then copies
    else
      var rest := if move then copies - {source.backend} else copies;
      rest[target := Copy(path, copies[source.backend].readable)]
  }

  lemma DropCounts(copies: Copies, loc: Location, keepAtLeast: int)
    requires keepAtLeast >= 1
    ensures
      var next := AfterDrop(copies, loc, keepAtLeast);
      if RemovalRefused(copies, loc, keepAtLeast).Some? then next == copies
      else loc.backend in copies && next == copies - {loc.backend} && |next| == |copies| - 1 >= keepAtLeast
  {
  }

  /** A removal that keeps a copy keeps one that can be opened, if there was one. */
  lemma DropKeepsReadable(copies: Copies, loc: Location, keepAtLeast: int)
    requires keepAtLeast >= 1 && Readable(copies) != {}
    ensures Readable(AfterDrop(copies, loc, keepAtLeast)) != {}
  {
    var next := AfterDrop(copies, loc, keepAtLeast);
    if next != copies {
      assert |copies| > 1;
      assert Readable(copies) != {loc.backend};
      var b :| b in Readable(copies) && b != loc.backend;
      assert b in Readable(next);
    }
  }

  lemma PlaceKeepsReadable(copies: Copies, source: Location, target: string, path: string, move: bool)
    requires Readable(copies) != {}
    ensures Readable(AfterPlace(copies, source, target, path, move)) != {}
  {
    var next := AfterPlace(copies, source, target, path, move);
    var b :| b in Readable(copies);
    assert b in Readable(next) || target in Readable(next);
  }

  // ---------------------------------------------------------------------
  // One object under every interleaving
  // ---------------------------------------------------------------------

  /** An object: its copies, whether a client has it stored, its version, and the
      version of the bytes ever written at each path. */
  datatype Object = Object(copies: Copies, stored: bool, version: nat, paths: map<string, nat>)

  datatype Step =
    | Write(targets: map<string, string>, readable: bool)
    | ClientDelete
    | Replicate(source: Location, target: string, path: string)
    | Move(source: Location, target: string, path: string)
    | DrainDrop(loc: Location)
    | CleanDrop(loc: Location, factor: int)
    | LoseKey(backend: string)

  /** Each write and each copy has a path of its own; workers act on locations
      read at any earlier time; the cleaner runs only for factors above one. */
  predicate Enabled(o: Object, step: Step) {
    match step
    case Write(targets, _) =>
      targets != map[] && forall b :: b in targets ==> targets[b] !in o.paths
    case Replicate(source, _, path) => source.storageKey in o.paths && path !in o.paths
    case Move(source, _, path) => source.storageKey in o.paths && path !in o.paths
    case CleanDrop(_, factor) => factor > 1
    case LoseKey(backend) => backend in o.copies
    case _ => true
  }

  function Next(o: Object, step: Step): Object
    requires Enabled(o, step)
  {
    match step
    case Write(targets, readable) =>
      Object(map b | b in targets :: Copy(targets[b], readable), true, o.version + 1,
             o.paths + map p | p in targets.Values :: o.version + 1)
    case ClientDelete => o.(copies := map[], stored := false)
    case Replicate(source, target, path) =>
      o.(copies := AfterPlace(o.copies, source, target, path, false), paths := o.paths[path := o.paths[source.storageKey]])
    case Move(source, target, path) =>
      o.(copies := AfterPlace(o.copies, source, target, path, true), paths := o.paths[path := o.paths[source.storageKey]])
    case DrainDrop(loc) => o.(copies := AfterDrop(o.copies, loc, 1))
    case CleanDrop(loc, factor) => o.(copies := AfterDrop(o.copies, loc, factor))
    case LoseKey(backend) => o.(copies := o.copies[backend := o.copies[backend].(readable := false)])
  }

  /** A stored object has a copy, and every copy holds its last version. */
  ghost predicate Whole(o: Object) {
    && (o.stored ==> o.copies != map[])
    && (forall b :: b in o.copies ==> o.copies[b].storageKey in o.paths)
    && (forall b :: b in o.copies ==> o.paths[o.copies[b].storageKey] == o.version)
  }

  lemma WriteWhole(o: Object, step: Step)
    requires step.Write? && Enabled(o, step)
    ensures Whole(Next(o, step))
  {
    var n := Next(o, step);
    var b :| b in step.targets;
    assert b in n.copies;
    assert forall b :: b in step.targets ==> step.targets[b] in step.targets.Values;
  }

  lemma PlaceWhole(o: Object, source: Location, target: string, path: string, move: bool)
    requires Whole(o) && source.storageKey in o.paths && path !in o.paths
    ensures Whole(o.(copies := AfterPlace(o.copies, source, target, path, move), paths := o.paths[path := o.paths[source.storageKey]]))
  {
    var copies := AfterPlace(o.copies, source, target, path, move);
    if copies != o.copies {
      assert target in copies;
    }
  }

  lemma DropWhole(o: Object, loc: Location, keepAtLeast: int)
    requires Whole(o) && keepAtLeast >= 1
    ensures Whole(o.(copies := AfterDrop(o.copies, loc, keepAtLeast)))
  {
    DropCounts(o.copies, loc, keepAtLeast);
  }

  lemma StepWhole(o: Object, step: Step)
    requires Whole(o) && Enabled(o, step)
    ensures Whole(Next(o, step))
  {
    match step
    case Write(_, _) => WriteWhole(o, step);
    case Replicate(source, target, path) => PlaceWhole(o, source, target, path, false);
    case Move(source, target, path) => PlaceWhole(o, source, target, path, true);
    case DrainDrop(loc) => DropWhole(o, loc, 1);
    case CleanDrop(loc, factor) => DropWhole(o, loc, factor);
    case _ =>
  }

  ghost predicate Reaches(o: Object, steps: seq<Step>, end: Object)
    decreases |steps|
  {
    if steps == [] then o == end
    else Enabled(o, steps[0]) && Reaches(Next(o, steps[0]), steps[1..], end)
  }

  /** Over any interleaving of drain and over-replication passes working from stale
      locations, replication and client writes, an object that was not deleted
      has a copy, and every copy holds the last version written. */
  lemma {:induction false} NeverLost(o: Object, steps: seq<Step>, end: Object)
    requires Whole(o) && Reaches(o, steps, end)
    ensures Whole(end)
    decreases |steps|
  {
    if steps != [] {
      StepWhole(o, steps[0]);
      NeverLost(Next(o, steps[0]), steps[1..], end);
    }
  }

  /** The cleaner never takes an object below its factor, and no worker step takes
      the last copy that can be opened. */
  lemma WorkersKeepEnough(o: Object, step: Step)
    requires Enabled(o, step)
    ensures step.CleanDrop? && |o.copies| >= step.factor ==> |Next(o, step).copies| >= step.factor
    ensures step.CleanDrop? && |o.copies| <= step.factor ==> Next(o, step).copies == o.copies
    ensures (step.CleanDrop? || step.DrainDrop? || step.Move? || step.Replicate?) && Readable(o.copies) != {} ==>
              Readable(Next(o, step).copies) != {}
  {
    match step
    case Replicate(source, target, path) =>
      if Readable(o.copies) != {} { PlaceKeepsReadable(o.copies, source, target, path, false); }
    case Move(source, target, path) =>
      if Readable(o.copies) != {} { PlaceKeepsReadable(o.copies, source, target, path, true); }
    case DrainDrop(loc) =>
      if Readable(o.copies) != {} { DropKeepsReadable(o.copies, loc, 1); }
    case CleanDrop(loc, factor) =>
      DropCounts(o.copies, loc, factor);
      if Readable(o.copies) != {} { DropKeepsReadable(o.copies, loc, factor); }
    case _ =>
  }
}
