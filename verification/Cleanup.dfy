/** The cleanup queue shared by every instance: rows naming bytes to delete, the
    claims instances settle them under, retries and the dead-letter queue. Models
    the store writes of internal/store/sqlite/cleanup.go and the protocol
    internal/cleanup/settler.go and internal/worker/cleanup.go follow over them,
    as a transition system in which any instance may stall at any point.

    Two things are taken from the rest of the system: instances read one clock
    that does not go back, and a path is never written again once it was queued
    for deletion, since no two writes share a path. */
module Cleanup {
  import opened Common
  import Prober

  const MAX_CLEANUP_ATTEMPTS: nat := 10

  const MINUTE: nat := 60_000_000_000

  const DAY: nat := 1440 * MINUTE

  /** How long a row waits after its delete failed once more. */
  function RetryBackoff(attempts: nat): nat {
    Prober.Backoff(MINUTE, DAY, attempts)
  }

  datatype Place = Place(backend: string, path: string)

  datatype Claim = Claim(at: int, holder: string)

  /** A cleanup_queue row. */
  datatype Row = Row(place: Place, attempts: nat, nextRetry: int, claim: Option<Claim>)

  /** A row as an instance read it, with the claim it read it under. */
  datatype Item = Item(id: nat, place: Place, attempts: nat, claim: Claim)

  /** The answers a delete may get. */
  datatype Deletion = UnknownBackend | Deleted | NotFound | Failed {
    /** Nothing more to ask for. */
    predicate Gone() {
      this != Failed
    }
  }

  datatype Outcome = Retired(place: Place) | DeadLettered(place: Place, attempts: nat) | Discarded(place: Place)

  type Queue = map<nat, Row>

  type Outcomes = map<nat, Outcome>

  // ---------------------------------------------------------------------
  // The settle writes
  // ---------------------------------------------------------------------

  /** A row that is still under the claim an item was read with. */
  predicate Holds(queue: Queue, item: Item) {
    item.id in queue && queue[item.id].claim == Some(item.claim)
  }

  /** Whether ClaimPendingCleanups may take a row. */
  predicate Claimable(row: Row, now: int, cutoff: int) {
    && row.nextRetry <= now
    && row.attempts < MAX_CLEANUP_ATTEMPTS
    && (row.claim.None? || row.claim.value.at < cutoff)
  }

  function Retry(row: Row, item: Item, now: int): Row {
    Row(row.place, row.attempts + 1, now + RetryBackoff(item.attempts), None)
  }

  predicate Exhausted(item: Item) {
    item.attempts + 1 >= MAX_CLEANUP_ATTEMPTS
  }

  // ---------------------------------------------------------------------
  // The system
  // ---------------------------------------------------------------------

  /** One row in an instance's hands, and what its delete came to once it ran. */
  datatype Task = Task(item: Item, deletion: Option<Deletion>)

  /** registered and bytes are the fleet's backends and what they store. Beside
      them the history: unasked are the rows a delete of which found their backend
      not registered, used the places ever written or queued, doomed those ever
      queued. outcomes is what became of each row that left the queue; dlq are the
      dead letters still standing. */
  datatype System = System(
    clock: int, registered: set<string>, unasked: set<nat>, discarded: set<nat>,
    bytes: set<Place>, used: set<Place>, doomed: set<Place>,
    queue: Queue, outcomes: Outcomes, dlq: set<nat>, nextId: nat, tasks: map<nat, Task>)

  datatype Step =
    | Advance(to: int)
    | Register(backend: string)
    | Unregister(backend: string)
    | Upload(place: Place)
    | Enqueue(place: Place, holder: string, task: nat)
    | Take(id: nat, holder: string, grace: nat, task: nat)
    | Delete(task: nat, result: Deletion, landed: bool)
    | Complete(task: nat)
    | Fail(task: nat)
    | Drop(task: nat)
    | Sweep(id: nat)
    | Requeue(id: nat)
    | Remove(backend: string)

  function Start(registered: set<string>): System {
    System(0, registered, {}, {}, {}, {}, {}, map[], map[], {}, 0, map[])
  }

  /** What a delete may report: an unregistered backend is not asked, a backend
      that says the path is absent is right, and a failed delete may have landed. */
  predicate Reports(s: System, place: Place, result: Deletion, landed: bool) {
    && (result == UnknownBackend <==> place.backend !in s.registered)
    && (result == NotFound ==> place !in s.bytes)
    && (result != Failed ==> (landed <==> result == Deleted))
  }

  predicate Enabled(s: System, step: Step) {
    match step
    case Advance(to) => s.clock <= to
    case Register(_) => true
    case Unregister(_) => true
    case Upload(place) => place !in s.used
    case Enqueue(_, _, t) => t !in s.tasks
    case Take(id, _, grace, t) =>
      t !in s.tasks && id in s.queue && Claimable(s.queue[id], s.clock, s.clock - grace)
    case Delete(t, result, landed) =>
      t in s.tasks && s.tasks[t].deletion.None? && Reports(s, s.tasks[t].item.place, result, landed)
    case Complete(t) => t in s.tasks && s.tasks[t].deletion.Some? && s.tasks[t].deletion.value.Gone()
    case Fail(t) => t in s.tasks && s.tasks[t].deletion == Some(Failed)
    case Drop(t) => t in s.tasks
    case Sweep(id) => id in s.queue && s.queue[id].place !in s.bytes
    case Requeue(id) => id in s.dlq && id in s.outcomes
    case Remove(_) => true
  }

  function RowsOn(queue: Queue, backend: string): set<nat> {
    set id | id in queue && queue[id].place.backend == backend
  }

  function LettersOn(outcomes: Outcomes, dlq: set<nat>, backend: string): set<nat> {
    set id | id in dlq && id in outcomes && outcomes[id].place.backend == backend
  }

  /** Registering, uploading and queueing; claiming; deleting; the settle writes,
      each of which does nothing unless the item's claim still holds its row; a
      task dropped by a crash, a failed store write or a declined admission;
      reconcile sweeping a row whose path it found missing; an operator sending
      a dead letter back to the queue, or removing a backend with its rows and dead
      letters. */
  function Next(s: System, step: Step): System
    requires Enabled(s, step)
  {
    match step
    case Advance(to) => s.(clock := to)
    case Register(b) => s.(registered := s.registered + {b})
    case Unregister(b) => s.(registered := s.registered - {b})
    case Upload(place) => s.(bytes := s.bytes + {place}, used := s.used + {place})
    case Enqueue(place, holder, t) =>
      var claim := Claim(s.clock, holder);
      s.(used := s.used + {place}, doomed := s.doomed + {place}, nextId := s.nextId + 1,
         queue := s.queue[s.nextId := Row(place, 0, s.clock, Some(claim))],
         tasks := s.tasks[t := Task(Item(s.nextId, place, 0, claim), None)])
    case Take(id, holder, _, t) =>
      var claim, row := Claim(s.clock, holder), s.queue[id];
      s.(queue := s.queue[id := row.(claim := Some(claim))],
         tasks := s.tasks[t := Task(Item(id, row.place, row.attempts, claim), None)])
    case Delete(t, result, landed) =>
      var task := s.tasks[t];
      s.(bytes := if landed then s.bytes - {task.item.place} else s.bytes,
         unasked := if result == UnknownBackend then s.unasked + {task.item.id} else s.unasked,
         tasks := s.tasks[t := task.(deletion := Some(result))])
    case Complete(t) =>
      var item, rest := s.tasks[t].item, s.tasks - {t};
      if !Holds(s.queue, item) then s.(tasks := rest)
      else s.(queue := s.queue - {item.id}, tasks := rest,
              outcomes := s.outcomes[item.id := Retired(s.queue[item.id].place)])
    case Fail(t) =>
      var item, rest := s.tasks[t].item, s.tasks - {t};
      if !Holds(s.queue, item) then s.(tasks := rest)
      else if Exhausted(item)
      then s.(queue := s.queue - {item.id}, tasks := rest, dlq := s.dlq + {item.id},
              outcomes := s.outcomes[item.id := DeadLettered(s.queue[item.id].place, s.queue[item.id].attempts)])
      else s.(queue := s.queue[item.id := Retry(s.queue[item.id], item, s.clock)], tasks := rest)
    case Drop(t) => s.(tasks := s.tasks - {t})
    case Sweep(id) =>
      s.(queue := s.queue - {id}, outcomes := s.outcomes[id := Retired(s.queue[id].place)])
    case Requeue(id) =>
      s.(dlq := s.dlq - {id}, nextId := s.nextId + 1,
         queue := s.queue[s.nextId := Row(s.outcomes[id].place, 0, s.clock, None)])
    case Remove(b) =>
      var rows, letters := RowsOn(s.queue, b), LettersOn(s.outcomes, s.dlq, b);
      s.(queue := s.queue - rows, dlq := s.dlq - letters, discarded := s.discarded + rows + letters,
         outcomes := map id | id in s.outcomes.Keys + rows ::
                       if id in s.outcomes then s.outcomes[id] else Discarded(s.queue[id].place))
  }

  // ---------------------------------------------------------------------
  // What every step keeps
  // ---------------------------------------------------------------------

  /** Each row ever queued is in the queue or has an outcome, never both, and the
      standing dead letters are among the dead-lettered. */
  ghost predicate Placed(queue: Queue, outcomes: Outcomes, dlq: set<nat>, nextId: nat) {
    && (forall id :: id in queue ==> id !in outcomes && id < nextId)
    && (forall id :: id in outcomes ==> id < nextId)
    && (forall id: nat :: id < nextId ==> id in queue || id in outcomes)
    && (forall id :: id in dlq ==> id in outcomes && outcomes[id].DeadLettered?)
  }

  /** Rows stay within their budget, and only a spent budget dead-letters one. */
  ghost predicate Budgeted(queue: Queue, outcomes: Outcomes) {
    && (forall id :: id in queue ==> queue[id].attempts < MAX_CLEANUP_ATTEMPTS)
    && (forall id :: id in outcomes && outcomes[id].DeadLettered? ==>
          outcomes[id].attempts + 1 == MAX_CLEANUP_ATTEMPTS)
  }

  /** What a row in the queue owes an item read from it: while the item's claim
      holds they agree; once it does not, no later claim can be equal to it,
      since it is older than the row's claim or than its next retry. */
  predicate Fences(row: Row, item: Item) {
    && row.place == item.place
    && (match row.claim
        case None => item.claim.at < row.nextRetry
        case Some(c) => if c == item.claim then row.attempts == item.attempts else item.claim.at < c.at)
  }

  /** No claim is from the future. */
  ghost predicate Stamped(s: System) {
    && (forall id :: id in s.queue && s.queue[id].claim.Some? ==> s.queue[id].claim.value.at <= s.clock)
    && (forall t :: t in s.tasks ==> s.tasks[t].item.id < s.nextId && s.tasks[t].item.claim.at <= s.clock)
  }

  ghost predicate Fenced(queue: Queue, tasks: map<nat, Task>) {
    forall t :: t in tasks && tasks[t].item.id in queue ==> Fences(queue[tasks[t].item.id], tasks[t].item)
  }

  /** A place whose bytes are gone for good. */
  predicate Gone(s: System, place: Place) {
    place in s.used && place !in s.bytes
  }

  /** A row with nothing left to delete: its bytes are gone for good, or a delete of
      its own found its backend not registered. */
  predicate Settled(s: System, id: nat, place: Place) {
    Gone(s, place) || id in s.unasked
  }

  /** Rows, tasks and outcomes are about places that were queued. */
  ghost predicate About(s: System) {
    && (forall id :: id in s.queue ==> s.queue[id].place in s.doomed)
    && (forall id :: id in s.outcomes ==> s.outcomes[id].place in s.doomed)
    && (forall t :: t in s.tasks ==> s.tasks[t].item.place in s.doomed)
    && s.doomed <= s.used
  }

  /** A row is retired, and a delete reported done, only where nothing is left. */
  ghost predicate Honest(s: System) {
    TasksHonest(s) && OutcomesHonest(s)
  }

  ghost predicate TasksHonest(s: System) {
    forall t :: t in s.tasks && s.tasks[t].deletion.Some? && s.tasks[t].deletion.value.Gone() ==>
      Settled(s, s.tasks[t].item.id, s.tasks[t].item.place)
  }

  ghost predicate OutcomesHonest(s: System) {
    forall id :: id in s.outcomes && s.outcomes[id].Retired? ==> Settled(s, id, s.outcomes[id].place)
  }

  /** A queued row or a standing dead letter that names a place. */
  predicate Names(s: System, id: nat, place: Place) {
    || (id in s.queue && s.queue[id].place == place)
    || (id in s.dlq && id in s.outcomes && s.outcomes[id].place == place)
  }

  ghost predicate Named(s: System, place: Place) {
    exists id :: Names(s, id, place)
  }

  /** A row of a place that was retired unasked, its backend not registered. */
  predicate Abandons(s: System, id: nat, place: Place) {
    id in s.outcomes && s.outcomes[id] == Retired(place) && id in s.unasked
  }

  /** A row of a place, or its dead letter, that was deleted with its backend. */
  predicate Discards(s: System, id: nat, place: Place) {
    id in s.outcomes && s.outcomes[id].place == place && id in s.discarded
  }

  /** What became of a place queued for deletion: its bytes are gone, a row or a
      dead letter still names it, or a row of it was retired unasked or deleted
      with its backend. */
  ghost predicate Known(s: System, place: Place) {
    || Gone(s, place) || Named(s, place)
    || exists id :: Abandons(s, id, place) || Discards(s, id, place)
  }

  /** No bytes are forgotten. */
  ghost predicate Remembered(s: System) {
    forall place :: place in s.doomed ==> Known(s, place)
  }

  ghost predicate Safe(s: System) {
    && Placed(s.queue, s.outcomes, s.dlq, s.nextId)
    && Budgeted(s.queue, s.outcomes)
    && Stamped(s)
    && Fenced(s.queue, s.tasks)
    && About(s)
    && Honest(s)
    && Remembered(s)
  }

  lemma KeepsPlaced(s: System, step: Step)
    requires Placed(s.queue, s.outcomes, s.dlq, s.nextId) && Enabled(s, step)
    ensures var n := Next(s, step); Placed(n.queue, n.outcomes, n.dlq, n.nextId)
  {
  }

  lemma KeepsBudget(s: System, step: Step)
    requires Fenced(s.queue, s.tasks) && Budgeted(s.queue, s.outcomes) && Enabled(s, step)
    ensures var n := Next(s, step); Budgeted(n.queue, n.outcomes)
  {
  }

  /** A retried row cannot be claimed again before the clock has moved. */
  lemma RetryWaits(attempts: nat)
    ensures MINUTE <= RetryBackoff(attempts) <= DAY
  {
    Prober.DoubledGrows(MINUTE, DAY, attempts);
  }

  lemma KeepsStamps(s: System, step: Step)
    requires Placed(s.queue, s.outcomes, s.dlq, s.nextId) && Stamped(s) && Enabled(s, step)
    ensures Stamped(Next(s, step))
  {
  }

  lemma KeepsFenced(s: System, step: Step)
    requires Placed(s.queue, s.outcomes, s.dlq, s.nextId) && Stamped(s) && Fenced(s.queue, s.tasks)
    requires Enabled(s, step)
    ensures var n := Next(s, step); Fenced(n.queue, n.tasks)
  {
    if step.Fail? {
      RetryWaits(s.tasks[step.task].item.attempts);
    }
  }

  lemma KeepsAbout(s: System, step: Step)
    requires About(s) && Enabled(s, step)
    ensures About(Next(s, step))
  {
  }

  lemma KeepsHonest(s: System, step: Step)
    requires Fenced(s.queue, s.tasks) && About(s) && Honest(s) && Enabled(s, step)
    ensures Honest(Next(s, step))
  {
    KeepsTasksHonest(s, step);
    KeepsOutcomesHonest(s, step);
  }

  lemma KeepsTasksHonest(s: System, step: Step)
    requires About(s) && TasksHonest(s) && Enabled(s, step)
    ensures TasksHonest(Next(s, step))
  {
  }

  lemma KeepsOutcomesHonest(s: System, step: Step)
    requires Fenced(s.queue, s.tasks) && About(s) && Honest(s) && Enabled(s, step)
    ensures OutcomesHonest(Next(s, step))
  {
  }

  lemma KeepsRemembered(s: System, step: Step)
    requires Safe(s) && Enabled(s, step)
    ensures Remembered(Next(s, step))
  {
    var n := Next(s, step);
    forall place | place in n.doomed
      ensures Known(n, place)
    {
      if step.Enqueue? && place == step.place {
        assert Names(n, s.nextId, place);
      } else if id :| Names(s, id, place) {
        StillNamed(s, step, id, place);
      } else if id :| Abandons(s, id, place) || Discards(s, id, place) {
        assert Abandons(n, id, place) || Discards(n, id, place);
      }
    }
  }

  lemma StillNamed(s: System, step: Step, id: nat, place: Place)
    requires Placed(s.queue, s.outcomes, s.dlq, s.nextId) && Fenced(s.queue, s.tasks) && About(s) && Honest(s)
    requires Enabled(s, step) && Names(s, id, place)
    ensures Known(Next(s, step), place)
  {
    if step.Remove? {
      NamedOrDiscarded(s, step, id, place);
    } else if step.Requeue? {
      var n := Next(s, step);
      assert Names(n, if id == step.id then s.nextId else id, place);
    } else {
      NamedOrSettled(s, step, id, place);
    }
  }

  lemma NamedOrDiscarded(s: System, step: Step, id: nat, place: Place)
    requires Placed(s.queue, s.outcomes, s.dlq, s.nextId) && step.Remove? && Names(s, id, place)
    ensures Names(Next(s, step), id, place) || Discards(Next(s, step), id, place)
  {
  }

  lemma NamedOrSettled(s: System, step: Step, id: nat, place: Place)
    requires Placed(s.queue, s.outcomes, s.dlq, s.nextId) && Fenced(s.queue, s.tasks) && About(s) && Honest(s)
    requires Enabled(s, step) && Names(s, id, place) && !step.Remove? && !step.Requeue?
    ensures var n := Next(s, step); Names(n, id, place) || Gone(n, place) || Abandons(n, id, place)
  {
  }

  lemma StepSafe(s: System, step: Step)
    requires Safe(s) && Enabled(s, step)
    ensures Safe(Next(s, step))
  {
    KeepsPlaced(s, step);
    KeepsBudget(s, step);
    KeepsStamps(s, step);
    KeepsFenced(s, step);
    KeepsAbout(s, step);
    KeepsHonest(s, step);
    KeepsRemembered(s, step);
  }

  // ---------------------------------------------------------------------
  // Runs
  // ---------------------------------------------------------------------

  ghost predicate Reaches(s: System, steps: seq<Step>, end: System)
    decreases |steps|
  {
    if steps == [] then s == end
    else Enabled(s, steps[0]) && Reaches(Next(s, steps[0]), steps[1..], end)
  }

  lemma {:induction false} RunSafe(s: System, steps: seq<Step>, end: System)
    requires Safe(s) && Reaches(s, steps, end)
    ensures Safe(end)
    decreases |steps|
  {
    if steps != [] {
      StepSafe(s, steps[0]);
      RunSafe(Next(s, steps[0]), steps[1..], end);
    }
  }

  /** Over every interleaving of instances, takeovers and failed deletes: each row
      ever queued is in exactly one of the queue, retired, dead-lettered or deleted
      with its backend; it is retired only if its bytes are gone or a delete of its
      own found its backend not registered; the queue stays below the attempt
      ceiling; and no place queued for deletion is forgotten. */
  lemma SettlementSafe(registered: set<string>, steps: seq<Step>, end: System)
    requires Reaches(Start(registered), steps, end)
    ensures forall id: nat :: id < end.nextId ==> (id in end.queue <==> id !in end.outcomes)
    ensures forall id :: id in end.outcomes && end.outcomes[id].Retired? ==> Settled(end, id, end.outcomes[id].place)
    ensures Budgeted(end.queue, end.outcomes)
    ensures Remembered(end)
  {
    RunSafe(Start(registered), steps, end);
  }

  lemma OutcomeStays(s: System, step: Step, id: nat)
    requires Placed(s.queue, s.outcomes, s.dlq, s.nextId) && Enabled(s, step) && id in s.outcomes
    ensures var n := Next(s, step); id in n.outcomes && n.outcomes[id] == s.outcomes[id]
  {
  }

  /** A row's outcome is final. */
  lemma {:induction false} OutcomeIsFinal(s: System, steps: seq<Step>, end: System, id: nat)
    requires Safe(s) && Reaches(s, steps, end) && id in s.outcomes
    ensures id in end.outcomes && end.outcomes[id] == s.outcomes[id] && id !in end.queue
    decreases |steps|
  {
    if steps != [] {
      StepSafe(s, steps[0]);
      OutcomeStays(s, steps[0], id);
      OutcomeIsFinal(Next(s, steps[0]), steps[1..], end, id);
    }
  }

  /** It is written by the holder of the row's current claim, on what its own
      delete came to, by the sweep of a path that is missing, or by the removal of
      its backend. */
  lemma OutcomeByHolder(s: System, step: Step, id: nat)
    requires Safe(s) && Enabled(s, step)
    requires id !in s.outcomes && id in Next(s, step).outcomes
    ensures
      || (step == Sweep(id) && s.queue[id].place !in s.bytes)
      || (step == Remove(s.queue[id].place.backend) && Next(s, step).outcomes[id] == Discarded(s.queue[id].place))
      || (&& (step.Complete? || step.Fail?)
          && var task := s.tasks[step.task];
          && task.item.id == id && Holds(s.queue, task.item)
          && task.item.attempts == s.queue[id].attempts
          && (Next(s, step).outcomes[id].Retired? <==> task.deletion.value.Gone()))
  {
  }

  /** An item whose claim was lost, and could not be stamped again. */
  predicate Spent(s: System, item: Item) {
    && item.id < s.nextId && item.claim.at <= s.clock
    && !Holds(s.queue, item)
    && (item.id in s.queue ==> Fences(s.queue[item.id], item))
  }

  lemma SpentStays(s: System, step: Step, item: Item)
    requires Placed(s.queue, s.outcomes, s.dlq, s.nextId) && Enabled(s, step) && Spent(s, item)
    ensures Spent(Next(s, step), item)
  {
    if step.Fail? {
      RetryWaits(s.tasks[step.task].item.attempts);
    }
  }

  lemma {:induction false} SpentForGood(s: System, steps: seq<Step>, end: System, item: Item)
    requires Safe(s) && Reaches(s, steps, end) && Spent(s, item)
    ensures !Holds(end.queue, item)
    decreases |steps|
  {
    if steps != [] {
      SpentStays(s, steps[0], item);
      StepSafe(s, steps[0]);
      SpentForGood(Next(s, steps[0]), steps[1..], end, item);
    }
  }

  /** A claim taken over or given up never holds its row again, so the instance
      that lost it writes nothing more about the row. */
  lemma LostClaimStaysLost(s: System, steps: seq<Step>, end: System, t: nat)
    requires Safe(s) && Reaches(s, steps, end) && t in s.tasks && !Holds(s.queue, s.tasks[t].item)
    ensures !Holds(end.queue, s.tasks[t].item)
  {
    SpentForGood(s, steps, end, s.tasks[t].item);
  }
}
