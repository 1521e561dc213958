/** One tick of the cleanup worker: claim pending rows in batches and settle each
    batch, until the queue runs out, a batch settles nothing, the tick has done
    enough, it is cancelled or a claim fails. Models internal/worker/cleanup.go
    with the claim of internal/store/sqlite/cleanup.go and the page walk of
    internal/util/batch/walk.go. Time passes between claims and settles. */
module CleanupWorker {
  import opened Common
  import opened Cleanup
  import opened Settler

  const CLAIM_BATCH: nat := 50

  const MAX_BATCHES_PER_TICK: nat := 20

  predicate IsClaimable(fate: Fate, now: int, grace: nat) {
    fate.row.Some? && Claimable(fate.row.value, now, now - grace)
  }

  /** An item read from a row that was claimable, and the row under its claim. */
  predicate Claims(before: Fate, after: Fate, item: Item, holder: string, now: int, grace: nat) {
    && IsClaimable(before, now, grace)
    && item.place == before.row.value.place && item.attempts == before.row.value.attempts
    && item.claim == Claim(now, holder)
    && after == before.(row := Some(before.row.value.(claim := Some(item.claim))))
  }

  function Eligible(queue: Queue, now: int, grace: nat): set<nat> {
    set id | id in queue && Claimable(queue[id], now, now - grace)
  }

  /** The order rows are claimed in: by when they are due, then by age. */
  predicate Sooner(queue: Queue, created: nat -> int, a: nat, b: nat) {
    && a in queue && b in queue
    && (queue[a].nextRetry < queue[b].nextRetry
        || (queue[a].nextRetry == queue[b].nextRetry && created(a) < created(b)))
  }

  predicate IsFirst(queue: Queue, created: nat -> int, rest: set<nat>, id: nat) {
    id in rest && forall other :: other in rest ==> !Sooner(queue, created, other, id)
  }

  lemma {:induction false} SomeIsFirst(queue: Queue, created: nat -> int, rest: set<nat>)
    requires rest != {} && rest <= queue.Keys
    ensures exists id :: IsFirst(queue, created, rest, id)
    decreases |rest|
  {
    var id :| id in rest;
    if rest == {id} {
      assert IsFirst(queue, created, rest, id);
    } else {
      SomeIsFirst(queue, created, rest - {id});
      var first :| IsFirst(queue, created, rest - {id}, first);
      var least := if Sooner(queue, created, id, first) then id else first;
      forall other | other in rest
        ensures !Sooner(queue, created, other, least)
      {
        assert other == id || other in rest - {id};
      }
      assert IsFirst(queue, created, rest, least);
    }
  }

  /** The first ids in claiming order, up to limit of them. */
  method FirstInOrder(queue: Queue, ids: set<nat>, created: nat -> int, limit: nat) returns (order: seq<nat>)
    requires ids <= queue.Keys
    ensures |order| == Min(limit, |ids|)
    ensures forall i :: 0 <= i < |order| ==> order[i] in ids
    ensures forall i, j :: 0 <= i < j < |order| ==> order[i] != order[j] && !Sooner(queue, created, order[j], order[i])
    ensures forall i, id :: 0 <= i < |order| && id in ids && id !in order ==> !Sooner(queue, created, id, order[i])
    ensures |order| < limit ==> forall id :: id in ids ==> id in order
  {
    order := [];
    var rest := ids;
    while |order| < limit && rest != {}
      invariant rest <= ids && |order| <= limit && |rest| + |order| == |ids|
      invariant forall id :: id in ids ==> (id in rest <==> id !in order)
      invariant forall i :: 0 <= i < |order| ==> order[i] in ids
      invariant forall i, j :: 0 <= i < j < |order| ==> order[i] != order[j] && !Sooner(queue, created, order[j], order[i])
      invariant forall i, id :: 0 <= i < |order| && id in rest ==> !Sooner(queue, created, id, order[i])
      decreases rest
    {
      SomeIsFirst(queue, created, rest);
      var id :| IsFirst(queue, created, rest, id);
      order := order + [id];
      rest := rest - {id};
    }
  }

  /** Puts a claim on each row of order, in one statement. */
  method StampClaims(store: CleanupStore, order: seq<nat>, claim: Claim) returns (items: seq<Item>)
    requires forall i :: 0 <= i < |order| ==> order[i] in store.queue
    requires forall i, j :: 0 <= i < j < |order| ==> order[i] != order[j]
    modifies store
    ensures |items| == |order| && forall i :: 0 <= i < |order| ==> Stamped(old(store.queue), store.queue, order[i], items[i], claim)
    ensures store.queue.Keys == old(store.queue).Keys && store.outcomes == old(store.outcomes)
    ensures forall id :: id in store.queue && id !in order ==> store.queue[id] == old(store.queue)[id]
  {
    items := [];
    for i := 0 to |order|
      invariant |items| == i
      invariant forall k :: 0 <= k < i ==> Stamped(old(store.queue), store.queue, order[k], items[k], claim)
      invariant store.queue.Keys == old(store.queue).Keys && store.outcomes == old(store.outcomes)
      invariant forall id :: id in store.queue && id !in order[..i] ==> store.queue[id] == old(store.queue)[id]
    {
      var row := store.queue[order[i]];
      store.queue := store.queue[order[i] := row.(claim := Some(claim))];
      items := items + [Item(order[i], row.place, row.attempts, claim)];
    }
  }

  predicate Stamped(before: Queue, after: Queue, id: nat, item: Item, claim: Claim) {
    && id in before && id in after
    && item == Item(id, before[id].place, before[id].attempts, claim)
    && after[id] == before[id].(claim := Some(claim))
  }

  /** Claims the first rows in order, up to limit, in one transaction. */
  method ClaimPendingCleanups(store: CleanupStore, limit: nat, holder: string, now: int, grace: nat, created: nat -> int)
    returns (items: seq<Item>)
    modifies store
    ensures Distinct(items) && |items| <= limit
    ensures forall i :: 0 <= i < |items| ==>
              Claims(old(store.FateOf(items[i].id)), store.FateOf(items[i].id), items[i], holder, now, grace)
    ensures forall id :: Apart(items, id) ==> store.FateOf(id) == old(store.FateOf(id))
    ensures |items| < limit ==> forall id :: !IsClaimable(store.FateOf(id), now, grace)
    ensures forall i, j :: 0 <= i < j < |items| ==> !Sooner(old(store.queue), created, items[j].id, items[i].id)
    ensures forall i, id :: 0 <= i < |items| && Apart(items, id) && id in Eligible(old(store.queue), now, grace) ==>
              !Sooner(old(store.queue), created, id, items[i].id)
  {
    var order := FirstInOrder(store.queue, Eligible(store.queue, now, grace), created, limit);
    items := StampClaims(store, order, Claim(now, holder));
    assert forall i :: 0 <= i < |order| ==> items[i].id == order[i];
    forall id | id in order
      ensures !Apart(items, id)
    {
      var i :| 0 <= i < |order| && order[i] == id;
      assert items[i] in items;
    }
    if |items| < limit {
      forall id
        ensures !IsClaimable(store.FateOf(id), now, grace)
      {
        if id in order {
          var i :| 0 <= i < |order| && order[i] == id;
          assert Stamped(old(store.queue), store.queue, order[i], items[i], Claim(now, holder));
        } else {
          assert id !in Eligible(old(store.queue), now, grace);
        }
      }
    }
  }

  /** A row as a batch leaves it: out of the queue, waiting out a backoff, or still
      under the batch's claim. */
  predicate Parked(fate: Fate, claimed: int, settled: int) {
    fate.row.Some? ==>
      || fate.row.value.nextRetry >= settled + MINUTE
      || (fate.row.value.claim.Some? && fate.row.value.claim.value.at >= claimed)
  }

  /** Settling parks a claimed row, whatever settling it came to. */
  lemma SettledIsParked(before: Fate, claimed: Fate, item: Item, holder: string, now: int, grace: nat,
                        d: Option<Deletion>, writes: Writes, settled: int)
    requires Claims(before, claimed, item, holder, now, grace)
    ensures Parked(SettleIfWritten(claimed, item, d, writes, settled), now, settled)
  {
    RetryWaits(item.attempts);
  }

  /** A parked row cannot be claimed again until a minute or the grace period has
      passed. */
  lemma ParkedIsNotClaimable(fate: Fate, claimed: int, settled: int, now: int, grace: nat)
    requires Parked(fate, claimed, settled) && now <= claimed + grace && now < settled + MINUTE
    ensures !IsClaimable(fate, now, grace)
  {
  }

  /** Exactly when a row claimed at now can be claimed again at a later time: never
      once it left the queue, after its backoff when it was retried, and after the
      grace period when nothing about it was written. */
  lemma ComesBackExactly(before: Fate, claimed: Fate, item: Item, holder: string, now: int, grace: nat,
                         d: Option<Deletion>, writes: Writes, settled: int, later: int)
    requires Claims(before, claimed, item, holder, now, grace) && now <= later
    ensures IsClaimable(SettleIfWritten(claimed, item, d, writes, settled), later, grace)
            <==> if d.None? || !writes.Lands(item, d.value) then now + grace < later
                 else !d.value.Gone() && !Cleanup.Exhausted(item) && settled + RetryBackoff(item.attempts) <= later
  {
    if d.Some? && writes.Lands(item, d.value) {
      assert Held(claimed, item);
    }
  }

  function Succeeded(results: seq<ItemResult>): nat {
    if results == [] then 0
    else Succeeded(results[..|results| - 1])
         + if results[|results| - 1] == Success || results[|results| - 1] == SuccessAbsent then 1 else 0
  }

  lemma {:induction false} SucceededNone(results: seq<ItemResult>)
    ensures Succeeded(results) == 0
            <==> forall i :: 0 <= i < |results| ==> results[i] != Success && results[i] != SuccessAbsent
  {
    if results != [] {
      SucceededNone(results[..|results| - 1]);
    }
  }

  predicate WasRetired(fate: Fate) {
    fate.row.None? && fate.outcome.Some? && fate.outcome.value.Retired?
  }

  /** A row just claimed is reported a success exactly when it was retired. */
  lemma SuccessIsRetired(before: Fate, claimed: Fate, item: Item, holder: string, now: int, grace: nat,
                         d: Option<Deletion>, writes: Writes, settled: int)
    requires Claims(before, claimed, item, holder, now, grace)
    ensures ResultOf(claimed, item, d, writes) in {Success, SuccessAbsent}
            <==> WasRetired(SettleIfWritten(claimed, item, d, writes, settled))
  {
  }

  /** Claims one batch and settles it; progress is none exactly when no row of it
      was retired. */
  method RunBatch(store: CleanupStore, backends: Backends, writes: Writes, holder: string,
                  now: int, settled: int, grace: nat, created: nat -> int)
    returns (items: seq<Item>, progress: nat)
    requires now <= settled
    modifies store
    ensures Distinct(items) && |items| <= CLAIM_BATCH
    ensures forall i :: 0 <= i < |items| ==>
              IsClaimable(old(store.FateOf(items[i].id)), now, grace) && Parked(store.FateOf(items[i].id), now, settled)
    ensures forall id :: Apart(items, id) ==> store.FateOf(id) == old(store.FateOf(id))
    ensures |items| < CLAIM_BATCH ==> forall id :: !IsClaimable(store.FateOf(id), now, grace)
    ensures progress == 0 <==> forall i :: 0 <= i < |items| ==> !WasRetired(store.FateOf(items[i].id))
  {
    items := ClaimPendingCleanups(store, CLAIM_BATCH, holder, now, grace, created);
    label Claimed:
    if items == [] {
      return items, 0;
    }
    var results := SettleItems(store, backends, items, writes, settled);
    progress := Succeeded(results);
    SucceededNone(results);
    forall i | 0 <= i < |items|
      ensures Parked(store.FateOf(items[i].id), now, settled)
      ensures !IsClaimable(store.FateOf(items[i].id), now, grace)
      ensures results[i] in {Success, SuccessAbsent} <==> WasRetired(store.FateOf(items[i].id))
    {
      ghost var before, claimed := old(store.FateOf(items[i].id)), old@Claimed(store.FateOf(items[i].id));
      ghost var d := DeletionOf(backends, items, items[i]);
      SettledIsParked(before, claimed, items[i], holder, now, grace, d, writes, settled);
      SuccessIsRetired(before, claimed, items[i], holder, now, grace, d, writes, settled);
    }
    if |items| < CLAIM_BATCH {
      forall id
        ensures !IsClaimable(store.FateOf(id), now, grace)
      {
        if !Apart(items, id) {
          var i :| 0 <= i < |items| && items[i].id == id;
        }
      }
    }
  }

  datatype Stop = Exhausted | Stopped | NoProgress | Cancelled | Errored

  /** What a walk meets as it turns to its next page. */
  datatype Page = Lists | Cancels | Fails

  /** When each batch of a tick is claimed and when it is settled. */
  datatype Clock = Clock(claims: nat -> int, settles: nat -> int) {
    ghost predicate Forward() {
      && (forall i, j :: i <= j ==> claims(i) <= claims(j))
      && (forall i :: claims(i) <= settles(i))
    }
  }

  /** The last of n batches was claimed within a minute and the grace period of the
      first. */
  predicate Brief(clock: Clock, n: nat, grace: nat) {
    n > 0 ==> clock.claims(n - 1) <= clock.claims(0) + grace && clock.claims(n - 1) < clock.claims(0) + MINUTE
  }

  predicate NoneTwice(ids: seq<nat>) {
    forall i, j :: 0 <= i < j < |ids| ==> ids[i] != ids[j]
  }

  lemma NoneTwiceAppend(taken: seq<nat>, ids: seq<nat>)
    requires NoneTwice(taken) && NoneTwice(ids)
    requires forall id :: id in ids ==> id !in taken
    ensures NoneTwice(taken + ids)
  {
    forall i, j | 0 <= i < j < |taken + ids|
      ensures (taken + ids)[i] != (taken + ids)[j]
    {
      if i < |taken| <= j {
        assert ids[j - |taken|] in ids;
      }
    }
  }

  /** Claims and settles batches until the tick ends. taken lists the rows claimed,
      in order: only rows that came to be claimable by the last claim, none twice
      in a tick that is brief, and no other row changes. A tick that ends for want
      of rows leaves none that the last claim could have taken. */
  method ProcessCleanupQueue(store: CleanupStore, backends: Backends, writes: nat -> Writes, holder: string,
                             clock: Clock, grace: nat, created: nat -> int, pages: nat -> Page)
    returns (taken: seq<nat>, batches: nat, stop: Stop)
    requires clock.Forward()
    modifies store
    ensures batches <= MAX_BATCHES_PER_TICK && |taken| <= batches * CLAIM_BATCH
    ensures Brief(clock, batches, grace) ==> NoneTwice(taken)
    ensures forall id :: id in taken ==> batches > 0 && IsClaimable(old(store.FateOf(id)), clock.claims(batches - 1), grace)
    ensures forall id :: id !in taken ==> store.FateOf(id) == old(store.FateOf(id))
    ensures stop == Exhausted ==> exists b: nat ::
              b <= batches <= b + 1 && forall id :: !IsClaimable(store.FateOf(id), clock.claims(b), grace)
    ensures stop == Stopped <==> batches == MAX_BATCHES_PER_TICK
    ensures stop == Cancelled ==> pages(batches) == Cancels
    ensures stop == Errored ==> pages(batches) == Fails
  {
    taken, batches := [], 0;
    while true
      invariant batches < MAX_BATCHES_PER_TICK && |taken| <= batches * CLAIM_BATCH
      invariant Brief(clock, batches, grace) ==> NoneTwice(taken)
      invariant forall id :: id in taken ==>
                  && batches > 0 && IsClaimable(old(store.FateOf(id)), clock.claims(batches - 1), grace)
                  && Parked(store.FateOf(id), clock.claims(0), clock.claims(0))
      invariant forall id :: id !in taken ==> store.FateOf(id) == old(store.FateOf(id))
      decreases MAX_BATCHES_PER_TICK - batches
    {
      if pages(batches) == Cancels {
        return taken, batches, Cancelled;
      }
      if pages(batches) == Fails {
        return taken, batches, Errored;
      }
      label Turned:
      var now, settled := clock.claims(batches), clock.settles(batches);
      var items, progress := RunBatch(store, backends, writes(batches), holder, now, settled, grace, created);
      if items == [] {
        return taken, batches, Exhausted;
      }
      IdsApart(items);
      if Brief(clock, batches + 1, grace) {
        forall id | id in taken
          ensures id !in Ids(items)
        {
          ParkedIsNotClaimable(old@Turned(store.FateOf(id)), clock.claims(0), clock.claims(0), now, grace);
        }
        NoneTwiceAppend(taken, Ids(items));
      }
      forall id | id in taken || id in Ids(items)
        ensures IsClaimable(old(store.FateOf(id)), now, grace)
        ensures Parked(store.FateOf(id), clock.claims(0), clock.claims(0))
      {
        if id in Ids(items) {
          assert Parked(store.FateOf(id), now, settled);
        }
      }
      taken := taken + Ids(items);
      batches := batches + 1;
      if batches == MAX_BATCHES_PER_TICK {
        return taken, batches, Stopped;
      }
      if progress == 0 {
        return taken, batches, NoProgress;
      }
      if |items| < CLAIM_BATCH {
        return taken, batches, Exhausted;
      }
    }
  }

  function Ids(items: seq<Item>): (ids: seq<nat>)
    ensures |ids| == |items| && forall i :: 0 <= i < |items| ==> ids[i] == items[i].id
  {
    seq(|items|, i requires 0 <= i < |items| => items[i].id)
  }

  lemma IdsApart(items: seq<Item>)
    ensures forall id :: id !in Ids(items) ==> Apart(items, id)
  {
  }
}
