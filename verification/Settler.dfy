/** One settle pass over claimed rows: delete their bytes with one batched request
    per backend, then give each row its outcome. Models
    internal/cleanup/settler.go over the store writes of
    internal/store/sqlite/cleanup.go. */
module Settler {
  import opened Common
  import opened Cleanup

  // ---------------------------------------------------------------------
  // Deleting
  // ---------------------------------------------------------------------

  datatype DeleteError = Missing | Broken

  /** The backends a settle reaches: which names resolve, which admission lets
      through, and what a batched delete of paths reports, by path. */
  datatype Backends = Backends(
    registered: set<string>, admits: string -> bool,
    delete: (string, seq<string>) -> map<string, DeleteError>)

  predicate Distinct(items: seq<Item>) {
    forall i, j :: 0 <= i < j < |items| ==> items[i].id != items[j].id
  }

  /** The rows on one backend, in order. */
  function On(items: seq<Item>, backend: string): seq<Item> {
    if items == [] then []
    else
      var front, last := On(items[..|items| - 1], backend), items[|items| - 1];
      if last.place.backend == backend then front + [last] else front
  }

  function Paths(items: seq<Item>): (paths: seq<string>)
    ensures |paths| == |items|
  {
    seq(|items|, i requires 0 <= i < |items| => items[i].place.path)
  }

  function Verdict(error: Option<DeleteError>): Deletion {
    if error.None? then Deleted else if error.value == Missing then NotFound else Failed
  }

  /** What deleting one row of a backend's group came to, none if the group was
      not attempted. */
  function DeletionIn(backends: Backends, group: seq<Item>, item: Item): Option<Deletion> {
    var name := item.place.backend;
    if name !in backends.registered then Some(UnknownBackend)
    else if !backends.admits(name) then None
    else Some(Verdict(Find(backends.delete(name, Paths(group)), item.place.path)))
  }

  function DeletionOf(backends: Backends, items: seq<Item>, item: Item): Option<Deletion> {
    DeletionIn(backends, On(items, item.place.backend), item)
  }

  lemma {:induction false} OnIsFilter(items: seq<Item>, backend: string)
    ensures forall item :: item in On(items, backend) <==> item in items && item.place.backend == backend
    ensures Distinct(items) ==> Distinct(On(items, backend))
  {
    if items != [] {
      var front := items[..|items| - 1];
      OnIsFilter(front, backend);
      assert items == front + [items[|items| - 1]];
    }
  }

  ghost predicate Records(deleted: map<nat, Deletion>, item: Item, d: Option<Deletion>) {
    Find(deleted, item.id) == d
  }

  method Group(items: seq<Item>) returns (byBackend: map<string, seq<Item>>)
    ensures forall b :: b in byBackend <==> On(items, b) != []
    ensures forall b :: b in byBackend ==> byBackend[b] == On(items, b)
  {
    byBackend := map[];
    for i := 0 to |items|
      invariant forall b :: b in byBackend <==> On(items[..i], b) != []
      invariant forall b :: b in byBackend ==> byBackend[b] == On(items[..i], b)
    {
      assert items[..i + 1][..i] == items[..i];
      var name := items[i].place.backend;
      byBackend := byBackend[name := (if name in byBackend then byBackend[name] else []) + [items[i]]];
    }
    assert items[..|items|] == items;
  }

  predicate Apart(group: seq<Item>, id: nat) {
    forall item :: item in group ==> item.id != id
  }

  /** Records what each row of a group came to. */
  method Record(deleted: map<nat, Deletion>, group: seq<Item>, what: Item -> Deletion)
    returns (after: map<nat, Deletion>)
    requires Distinct(group)
    ensures forall item :: item in group ==> Records(after, item, Some(what(item)))
    ensures forall id :: Apart(group, id) ==> Find(after, id) == Find(deleted, id)
  {
    after := deleted;
    for i := 0 to |group|
      invariant forall k :: 0 <= k < i ==> Records(after, group[k], Some(what(group[k])))
      invariant forall id :: Apart(group, id) ==> Find(after, id) == Find(deleted, id)
    {
      after := after[group[i].id := what(group[i])];
    }
  }

  /** Deletes one backend's group in one request, once it is admitted. */
  method DeleteGroup(backends: Backends, name: string, group: seq<Item>, deleted: map<nat, Deletion>)
    returns (after: map<nat, Deletion>)
    requires Distinct(group) && forall item :: item in group ==> item.place.backend == name
    requires forall item :: item in group ==> item.id !in deleted
    ensures forall item :: item in group ==> Records(after, item, DeletionIn(backends, group, item))
    ensures forall id :: Apart(group, id) ==> Find(after, id) == Find(deleted, id)
  {
    if name !in backends.registered {
      after := Record(deleted, group, _ => UnknownBackend);
    } else if backends.admits(name) {
      var failed := backends.delete(name, Paths(group));
      after := Record(deleted, group, (item: Item) => Verdict(Find(failed, item.place.path)));
    } else {
      after := deleted;
    }
  }

  lemma ApartFromOthers(items: seq<Item>, name: string, item: Item)
    requires Distinct(items) && item in items && item.place.backend != name
    ensures Apart(On(items, name), item.id)
  {
    OnIsFilter(items, name);
  }

  /** What became of each row's bytes. A backend gets a single request, for its
      own rows' paths and no others. */
  method DeleteAll(backends: Backends, items: seq<Item>) returns (deleted: map<nat, Deletion>)
    requires Distinct(items)
    ensures forall item :: item in items ==> Records(deleted, item, DeletionOf(backends, items, item))
  {
    var byBackend := Group(items);
    deleted := map[];
    var waiting := byBackend.Keys;
    forall item | item in items
      ensures item.place.backend in waiting
    {
      OnIsFilter(items, item.place.backend);
    }
    while waiting != {}
      invariant waiting <= byBackend.Keys
      invariant forall item :: item in items && item.place.backend in waiting ==> Records(deleted, item, None)
      invariant forall item :: item in items && item.place.backend !in waiting ==>
                  Records(deleted, item, DeletionOf(backends, items, item))
      decreases waiting
    {
      var name :| name in waiting;
      OnIsFilter(items, name);
      forall item | item in items && item.place.backend != name
        ensures Apart(On(items, name), item.id)
      {
        ApartFromOthers(items, name, item);
      }
      deleted := DeleteGroup(backends, name, byBackend[name], deleted);
      waiting := waiting - {name};
    }
  }

  // ---------------------------------------------------------------------
  // Settling
  // ---------------------------------------------------------------------

  /** Where one row stands: in the queue, or with the outcome it was given. */
  datatype Fate = Fate(row: Option<Row>, outcome: Option<Outcome>)

  function FateIn(queue: Queue, outcomes: Outcomes, id: nat): Fate {
    Fate(Find(queue, id), Find(outcomes, id))
  }

  predicate Held(fate: Fate, item: Item) {
    fate.row.Some? && fate.row.value.claim == Some(item.claim)
  }

  /** What settling an item makes of its row: nothing once the claim is lost. */
  function Settle(fate: Fate, item: Item, d: Deletion, now: int): Fate {
    if !Held(fate, item) then fate
    else if d.Gone() then Fate(None, Some(Retired(fate.row.value.place)))
    else if Exhausted(item) then Fate(None, Some(DeadLettered(fate.row.value.place, fate.row.value.attempts)))
    else fate.(row := Some(Retry(fate.row.value, item, now)))
  }

  /** Which store writes fail in a settle: the one call that retires, and the
      write about one row. */
  datatype Writes = Writes(retireFails: bool, rowFails: nat -> bool) {
    predicate Lands(item: Item, d: Deletion) {
      if d.Gone() then !retireFails else !rowFails(item.id)
    }
  }

  function SettleIfWritten(fate: Fate, item: Item, d: Option<Deletion>, writes: Writes, now: int): Fate {
    if d.Some? && writes.Lands(item, d.value) then Settle(fate, item, d.value, now) else fate
  }

  datatype ItemResult = Skipped | ClaimLost | Success | SuccessAbsent | FailedRetry | FailedExhausted

  function ResultOf(fate: Fate, item: Item, d: Option<Deletion>, writes: Writes): ItemResult {
    if d.None? then Skipped
    else if writes.Lands(item, d.value) && !Held(fate, item) then ClaimLost
    else if d.value.Gone() then
      if writes.retireFails then Skipped else if d.value == NotFound then SuccessAbsent else Success
    else if Exhausted(item) then FailedExhausted
    else FailedRetry
  }

  /** A settle does to a row exactly what the protocol's step for it does. */
  lemma SettleIsAStep(s: System, t: nat, id: nat)
    requires t in s.tasks && s.tasks[t].deletion.Some?
    ensures
      var task := s.tasks[t];
      var step := if task.deletion.value.Gone() then Complete(t) else Step.Fail(t);
      && Enabled(s, step)
      && var n := Next(s, step);
      && FateIn(n.queue, n.outcomes, id)
         == (var fate := FateIn(s.queue, s.outcomes, id);
             if id == task.item.id then Settle(fate, task.item, task.deletion.value, s.clock) else fate)
  {
  }

  class CleanupStore {
    var queue: Queue
    var outcomes: Outcomes

    function FateOf(id: nat): Fate
      reads this
    {
      FateIn(queue, outcomes, id)
    }

    /** Retires the rows still held under their claims, all or, on an error, none. */
    method CompleteCleanupItems(items: seq<Item>, fails: bool) returns (ok: bool, retired: set<nat>)
      requires Distinct(items)
      modifies this
      ensures ok <==> !fails
      ensures ok ==> forall item :: item in items ==>
                       && FateOf(item.id) == Settle(old(FateOf(item.id)), item, Deleted, 0)
                       && (item.id in retired <==> Held(old(FateOf(item.id)), item))
      ensures forall id :: !ok || Apart(items, id) ==> FateOf(id) == old(FateOf(id))
    {
      ok, retired := !fails, {};
      if fails {
        return;
      }
      for i := 0 to |items|
        invariant forall k :: 0 <= k < i ==>
                    && FateOf(items[k].id) == Settle(old(FateOf(items[k].id)), items[k], Deleted, 0)
                    && (items[k].id in retired <==> Held(old(FateOf(items[k].id)), items[k]))
        invariant forall k :: i <= k < |items| ==>
                    FateOf(items[k].id) == old(FateOf(items[k].id)) && items[k].id !in retired
        invariant forall id :: Apart(items, id) ==> FateOf(id) == old(FateOf(id))
      {
        var item := items[i];
        if Holds(queue, item) {
          outcomes := outcomes[item.id := Retired(queue[item.id].place)];
          queue := queue - {item.id};
          retired := retired + {item.id};
        }
      }
    }

    method RetryCleanupItem(item: Item, now: int) returns (retried: bool)
      modifies this
      ensures retried <==> Held(old(FateOf(item.id)), item)
      ensures FateOf(item.id) == var fate := old(FateOf(item.id));
                                 if retried then fate.(row := Some(Retry(fate.row.value, item, now))) else fate
      ensures forall id :: id != item.id ==> FateOf(id) == old(FateOf(id))
    {
      retried := Holds(queue, item);
      if retried {
        queue := queue[item.id := Retry(queue[item.id], item, now)];
      }
    }

    method MoveCleanupToDLQ(item: Item) returns (moved: bool)
      modifies this
      ensures moved <==> Held(old(FateOf(item.id)), item)
      ensures FateOf(item.id) == var fate := old(FateOf(item.id));
                                 if !moved then fate
                                 else Fate(None, Some(DeadLettered(fate.row.value.place, fate.row.value.attempts)))
      ensures forall id :: id != item.id ==> FateOf(id) == old(FateOf(id))
    {
      moved := Holds(queue, item);
      if moved {
        outcomes := outcomes[item.id := DeadLettered(queue[item.id].place, queue[item.id].attempts)];
        queue := queue - {item.id};
      }
    }
  }

  /** Where a row goes whose bytes could not be removed: back to wait, or, out of
      attempts, to the dead letters. */
  method SettleFailed(store: CleanupStore, item: Item, writes: Writes, now: int) returns (result: ItemResult)
    modifies store
    ensures result == ResultOf(old(store.FateOf(item.id)), item, Some(Failed), writes)
    ensures store.FateOf(item.id) == SettleIfWritten(old(store.FateOf(item.id)), item, Some(Failed), writes, now)
    ensures forall id :: id != item.id ==> store.FateOf(id) == old(store.FateOf(id))
  {
    if Exhausted(item) {
      if writes.rowFails(item.id) {
        return FailedExhausted;
      }
      var moved := store.MoveCleanupToDLQ(item);
      return if moved then FailedExhausted else ClaimLost;
    }
    if writes.rowFails(item.id) {
      return FailedRetry;
    }
    var retried := store.RetryCleanupItem(item, now);
    return if retried then FailedRetry else ClaimLost;
  }

  /** Whether a settle leaves a row to the one call that retires. */
  predicate Retires(d: Option<Deletion>) {
    d.Some? && d.value.Gone()
  }

  /** The rows to retire, in order. */
  predicate Gone(items: seq<Item>, deleted: map<nat, Deletion>, gone: seq<nat>, upto: nat)
    requires upto <= |items|
  {
    && (forall j :: 0 <= j < |gone| ==> gone[j] < upto && Retires(Find(deleted, items[gone[j]].id)))
    && (forall j, k :: 0 <= j < k < |gone| ==> gone[j] != gone[k])
    && (forall k :: 0 <= k < upto && Retires(Find(deleted, items[k].id)) ==> k in gone)
  }

  /** An item given its outcome, and one not yet. */
  predicate Done(before: Fate, after: Fate, result: ItemResult, item: Item, d: Option<Deletion>, writes: Writes, now: int) {
    result == ResultOf(before, item, d, writes) && after == SettleIfWritten(before, item, d, writes, now)
  }

  predicate Untouched(before: Fate, after: Fate, result: ItemResult) {
    result == Skipped && after == before
  }

  /** Settles the rows whose delete failed and lists those to retire. */
  method SettleFailures(store: CleanupStore, items: seq<Item>, deleted: map<nat, Deletion>, writes: Writes, now: int)
    returns (results: seq<ItemResult>, gone: seq<nat>)
    requires Distinct(items)
    modifies store
    ensures |results| == |items| && Gone(items, deleted, gone, |items|)
    ensures forall k :: 0 <= k < |items| && Retires(Find(deleted, items[k].id)) ==>
              Untouched(old(store.FateOf(items[k].id)), store.FateOf(items[k].id), results[k])
    ensures forall k :: 0 <= k < |items| && !Retires(Find(deleted, items[k].id)) ==>
              Done(old(store.FateOf(items[k].id)), store.FateOf(items[k].id), results[k],
                   items[k], Find(deleted, items[k].id), writes, now)
    ensures forall id :: Apart(items, id) ==> store.FateOf(id) == old(store.FateOf(id))
  {
    results := seq(|items|, _ => Skipped);
    gone := [];
    for i := 0 to |items|
      invariant |results| == |items| && Gone(items, deleted, gone, i)
      invariant forall k :: 0 <= k < |items| && (k >= i || Retires(Find(deleted, items[k].id))) ==>
                  Untouched(old(store.FateOf(items[k].id)), store.FateOf(items[k].id), results[k])
      invariant forall k :: 0 <= k < i && !Retires(Find(deleted, items[k].id)) ==>
                  Done(old(store.FateOf(items[k].id)), store.FateOf(items[k].id), results[k],
                       items[k], Find(deleted, items[k].id), writes, now)
      invariant forall id :: Apart(items, id) ==> store.FateOf(id) == old(store.FateOf(id))
    {
      var d := Find(deleted, items[i].id);
      if Retires(d) {
        gone := gone + [i];
      } else if d.Some? {
        var result := SettleFailed(store, items[i], writes, now);
        results := results[i := result];
      }
    }
  }

  /** The result of a row with nothing left to delete, given which were retired. */
  function GoneResult(item: Item, deleted: map<nat, Deletion>, retired: set<nat>): ItemResult {
    if item.id !in retired then ClaimLost
    else if Find(deleted, item.id) == Some(NotFound) then SuccessAbsent else Success
  }

  method ReportGone(items: seq<Item>, gone: seq<nat>, deleted: map<nat, Deletion>, retired: set<nat>,
                    results: seq<ItemResult>)
    returns (after: seq<ItemResult>)
    requires |results| == |items| && forall j :: 0 <= j < |gone| ==> gone[j] < |items|
    ensures |after| == |items|
    ensures forall k :: 0 <= k < |items| ==>
              after[k] == if k in gone then GoneResult(items[k], deleted, retired) else results[k]
  {
    after := results;
    for j := 0 to |gone|
      invariant |after| == |items|
      invariant forall k :: 0 <= k < |items| ==>
                  after[k] == if k in gone[..j] then GoneResult(items[k], deleted, retired) else results[k]
    {
      after := after[gone[j] := GoneResult(items[gone[j]], deleted, retired)];
    }
  }

  /** The rows with nothing left to delete leave the queue together. */
  method Retire(store: CleanupStore, items: seq<Item>, gone: seq<nat>, deleted: map<nat, Deletion>,
                results: seq<ItemResult>, writes: Writes)
    returns (after: seq<ItemResult>)
    requires Distinct(items) && |results| == |items| && Gone(items, deleted, gone, |items|)
    requires forall k :: 0 <= k < |items| && Retires(Find(deleted, items[k].id)) ==> results[k] == Skipped
    modifies store
    ensures |after| == |items|
    ensures forall k :: 0 <= k < |items| ==>
              if !Retires(Find(deleted, items[k].id))
              then after[k] == results[k] && store.FateOf(items[k].id) == old(store.FateOf(items[k].id))
              else Done(old(store.FateOf(items[k].id)), store.FateOf(items[k].id), after[k],
                        items[k], Find(deleted, items[k].id), writes, 0)
    ensures forall id :: Apart(items, id) ==> store.FateOf(id) == old(store.FateOf(id))
  {
    after := results;
    if gone == [] {
      return;
    }
    var retiring := seq(|gone|, j requires 0 <= j < |gone| => items[gone[j]]);
    var ok, retired := store.CompleteCleanupItems(retiring, writes.retireFails);
    assert forall k :: 0 <= k < |items| && k !in gone ==> Apart(retiring, items[k].id);
    if !ok {
      return;
    }
    after := ReportGone(items, gone, deleted, retired, results);
    forall k | 0 <= k < |items| && Retires(Find(deleted, items[k].id))
      ensures Done(old(store.FateOf(items[k].id)), store.FateOf(items[k].id), after[k],
                   items[k], Find(deleted, items[k].id), writes, 0)
    {
      var j :| 0 <= j < |gone| && gone[j] == k;
      assert items[k] == retiring[j];
    }
  }

  /** One settle pass: a delete for each row, then a write for each. */
  method SettleItems(store: CleanupStore, backends: Backends, items: seq<Item>, writes: Writes, now: int)
    returns (results: seq<ItemResult>)
    requires Distinct(items)
    modifies store
    ensures |results| == |items|
    ensures forall i :: 0 <= i < |items| ==>
              Done(old(store.FateOf(items[i].id)), store.FateOf(items[i].id), results[i],
                   items[i], DeletionOf(backends, items, items[i]), writes, now)
    ensures forall id :: Apart(items, id) ==> store.FateOf(id) == old(store.FateOf(id))
  {
    var deleted := DeleteAll(backends, items);
    assert forall i :: 0 <= i < |items| ==> Records(deleted, items[i], DeletionOf(backends, items, items[i]));
    var gone;
    results, gone := SettleFailures(store, items, deleted, writes, now);
    results := Retire(store, items, gone, deleted, results, writes);
  }
}
