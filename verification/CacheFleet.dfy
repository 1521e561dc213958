/** Invalidations announced to all instances over a channel that forgets: who is
    not listening misses them. Models internal/cache/invalidation.go,
    internal/sharedstate/topic.go, the subscription loop of
    internal/counter/redis.go and the cache watcher of internal/di/services.go.
    Each instance runs the LRU of module Cache; an entry carries the time it was
    cached. */
module CacheFleet {
  import opened Cache

  type Instance = nat

  /** What reaches a watcher: word that it is subscribed, or an announcement, which
      may be garbled. */
  datatype Message = Established | Announced(at: nat, inv: Invalidation, readable: bool)

  /** One instance: its cache, whether its subscription stands, and the messages
      it has been sent and not yet handled. */
  datatype Node = Node(order: seq<Slot<nat>>, maxSize: nat, subscribed: bool, inbox: seq<Message>)

  datatype Published = Published(at: nat, inv: Invalidation)

  datatype Fleet = Fleet(clock: nat, nodes: map<Instance, Node>, published: seq<Published>)

  datatype Step =
    | Join(i: Instance, maxSize: nat)
    | Cached(i: Instance, key: string, size: nat, expiresAt: int)
    | Looked(i: Instance, key: string, now: int)
    | Applied(i: Instance, inv: Invalidation)
    | Publish(inv: Invalidation, unreadable: set<Instance>)
    | Handle(i: Instance)
    | Disconnect(i: Instance, kept: nat)
    | Subscribe(i: Instance)

  predicate Enabled(f: Fleet, step: Step) {
    match step
    case Join(_, _) => true
    case Publish(_, _) => true
    case Handle(i) => i in f.nodes && f.nodes[i].inbox != []
    case Disconnect(i, kept) => i in f.nodes && kept <= |f.nodes[i].inbox|
    case Subscribe(i) => i in f.nodes && !f.nodes[i].subscribed
    case _ => step.i in f.nodes
  }

  /** What handling a message drops. */
  function Handling(m: Message): Op<nat> {
    if m.Announced? && m.readable then Drop(m.inv) else Drop(Invalidation(true, "", ""))
  }

  /** What the watcher does with each message: apply what it can read, and empty
      the cache whenever it may have missed something. */
  method OnMessage(c: MemoryCache<nat>, m: Message)
    requires c.Valid()
    modifies c
    ensures c.Valid() && c.order == Act(old(c.order), Handling(m), c.maxSize)
  {
    if m.Established? || !m.readable {
      FilterNone(c.order, Unmatched(Invalidation(true, "", "")));
      var _ := c.Clear();
    } else {
      var _ := c.Apply(m.inv);
    }
  }

  function Sent(node: Node, m: Message): Node {
    if node.subscribed then node.(inbox := node.inbox + [m]) else node
  }

  /** The announcement as one instance receives it. */
  function Announcement(at: nat, inv: Invalidation, unreadable: set<Instance>, i: Instance): Message {
    Announced(at, inv, if i in unreadable then false else true)
  }

  function Acted(node: Node, op: Op<nat>): Node {
    node.(order := Act(node.order, op, node.maxSize))
  }

  /** An instance starts or restarts with an empty cache; stores, looks up and
      applies an operator's change to its own cache; an announcement reaches the
      instances then subscribed; one of them handles the next message; a
      connection breaks, keeping some of what was received; a subscription is
      established. */
  function Next(f: Fleet, step: Step): Fleet
    requires Enabled(f, step)
  {
    var later := f.(clock := f.clock + 1);
    match step
    case Join(i, maxSize) => later.(nodes := f.nodes[i := Node([], maxSize, false, [])])
    case Cached(i, key, size, expiresAt) =>
      later.(nodes := f.nodes[i := Acted(f.nodes[i], Store(Slot(key, f.clock, size, expiresAt)))])
    case Looked(i, key, now) => later.(nodes := f.nodes[i := Acted(f.nodes[i], Look(key, now))])
    case Applied(i, inv) => later.(nodes := f.nodes[i := Acted(f.nodes[i], Drop(inv))])
    case Publish(inv, unreadable) =>
      later.(published := f.published + [Published(f.clock, inv)],
             nodes := map i | i in f.nodes :: Sent(f.nodes[i], Announcement(f.clock, inv, unreadable, i)))
    case Handle(i) =>
      var node := f.nodes[i];
      later.(nodes := f.nodes[i := Acted(node, Handling(node.inbox[0])).(inbox := node.inbox[1..])])
    case Disconnect(i, kept) =>
      later.(nodes := f.nodes[i := f.nodes[i].(subscribed := false, inbox := f.nodes[i].inbox[..kept])])
    case Subscribe(i) =>
      later.(nodes := f.nodes[i := f.nodes[i].(subscribed := true, inbox := f.nodes[i].inbox + [Established])])
  }

  // ---------------------------------------------------------------------
  // Coherence
  // ---------------------------------------------------------------------

  /** A message that will drop what an announcement dropped: the announcement
      itself, or one that empties the cache. */
  predicate Covers(m: Message, p: Published) {
    m.Established? || !m.readable || (m.at == p.at && m.inv == p.inv)
  }

  ghost predicate Pending(inbox: seq<Message>, p: Published) {
    exists k :: 0 <= k < |inbox| && Covers(inbox[k], p)
  }

  /** Cached before the announcement, and named by it. */
  predicate Stale(slot: Slot<nat>, p: Published) {
    slot.entry <= p.at && Matches(p.inv, slot.key)
  }

  ghost predicate NodeCoherent(node: Node, p: Published) {
    (exists i :: 0 <= i < |node.order| && Stale(node.order[i], p)) ==>
      !node.subscribed || Pending(node.inbox, p)
  }

  ghost predicate Coherent(f: Fleet) {
    && (forall k :: 0 <= k < |f.published| ==> f.published[k].at < f.clock)
    && (forall i, k :: i in f.nodes && 0 <= k < |f.published| ==> NodeCoherent(f.nodes[i], f.published[k]))
  }

  /** An operation leaves only entries that were there, the one it stored, and
      none that it dropped. */
  lemma ActMembers(order: seq<Slot<nat>>, op: Op<nat>, maxSize: nat)
    ensures
      var next := Act(order, op, maxSize);
      forall i :: 0 <= i < |next| ==>
        && (next[i] in order || op == Store(next[i]))
        && (op.Drop? ==> !Matches(op.inv, next[i].key))
  {
    match op
    case Look(key, now) => FilterMembers(order, NotIn({key}));
    case Store(slot) =>
      FilterMembers(order, NotIn({slot.key}));
      var others := Filter(order, NotIn({slot.key}));
      var kept := Fitting(others, maxSize - slot.size);
      assert forall i :: 0 <= i < |kept| ==> kept[i] == others[i];
    case Drop(inv) => FilterMembers(order, Unmatched(inv));
  }

  /** Whatever an operation does to a node's cache, it makes nothing stale that
      was not, unless it caches an entry. */
  lemma ActCoherent(node: Node, op: Op<nat>, p: Published)
    requires NodeCoherent(node, p)
    requires op.Store? ==> op.slot.entry > p.at
    ensures NodeCoherent(Acted(node, op), p)
  {
    ActMembers(node.order, op, node.maxSize);
    var next := Acted(node, op).order;
    if i :| 0 <= i < |next| && Stale(next[i], p) {
      var j :| 0 <= j < |node.order| && node.order[j] == next[i];
    }
  }

  lemma HandleCoherent(node: Node, p: Published)
    requires node.inbox != [] && NodeCoherent(node, p)
    ensures NodeCoherent(Acted(node, Handling(node.inbox[0])).(inbox := node.inbox[1..]), p)
  {
    var op := Handling(node.inbox[0]);
    ActCoherent(node, op, p);
    ActMembers(node.order, op, node.maxSize);
    if Pending(node.inbox, p) && !Covers(node.inbox[0], p) {
      var k :| 0 <= k < |node.inbox| && Covers(node.inbox[k], p);
      assert node.inbox[1..][k - 1] == node.inbox[k];
    }
  }

  lemma SentCoherent(node: Node, m: Message, p: Published)
    requires NodeCoherent(node, p) || (m.Announced? && m.at == p.at && m.inv == p.inv)
    ensures NodeCoherent(Sent(node, m), p)
  {
    var inbox := node.inbox + [m];
    if Pending(node.inbox, p) {
      var k :| 0 <= k < |node.inbox| && Covers(node.inbox[k], p);
      assert inbox[k] == node.inbox[k];
    } else if m.Announced? && m.at == p.at && m.inv == p.inv {
      assert Covers(inbox[|node.inbox|], p);
    }
  }

  lemma NodeStep(f: Fleet, step: Step, i: Instance, k: nat)
    requires Coherent(f) && Enabled(f, step)
    requires i in Next(f, step).nodes && k < |f.published|
    ensures NodeCoherent(Next(f, step).nodes[i], f.published[k])
  {
    var p := f.published[k];
    if i in f.nodes {
      var node := f.nodes[i];
      assert NodeCoherent(node, p);
      match step
      case Cached(j, key, size, expiresAt) =>
        ActCoherent(node, Store(Slot(key, f.clock, size, expiresAt)), p);
      case Looked(j, key, now) => ActCoherent(node, Look(key, now), p);
      case Applied(j, inv) => ActCoherent(node, Drop(inv), p);
      case Publish(inv, unreadable) => SentCoherent(node, Announcement(f.clock, inv, unreadable, i), p);
      case Handle(j) => if i == j { HandleCoherent(node, p); }
      case Subscribe(j) => assert Covers((node.inbox + [Established])[|node.inbox|], p);
      case _ =>
    }
  }

  lemma StepCoherent(f: Fleet, step: Step)
    requires Coherent(f) && Enabled(f, step)
    ensures Coherent(Next(f, step))
  {
    var n := Next(f, step);
    forall i, k | i in n.nodes && 0 <= k < |n.published|
      ensures NodeCoherent(n.nodes[i], n.published[k])
    {
      if k < |f.published| {
        NodeStep(f, step, i, k);
      } else {
        SentCoherent(f.nodes[i], Announcement(f.clock, step.inv, step.unreadable, i), n.published[k]);
      }
    }
  }

  ghost predicate Reaches(f: Fleet, steps: seq<Step>, end: Fleet)
    decreases |steps|
  {
    if steps == [] then f == end
    else Enabled(f, steps[0]) && Reaches(Next(f, steps[0]), steps[1..], end)
  }

  lemma {:induction false} RunCoherent(f: Fleet, steps: seq<Step>, end: Fleet)
    requires Coherent(f) && Reaches(f, steps, end)
    ensures Coherent(end)
    decreases |steps|
  {
    if steps != [] {
      StepCoherent(f, steps[0]);
      RunCoherent(Next(f, steps[0]), steps[1..], end);
    }
  }

  /** At every point of every run with lost connections and unreadable messages, an
      entry cached before an announcement that names it survives on an instance
      only while that instance is unsubscribed, or still has to handle that
      announcement or a message that empties its cache. */
  lemma FleetCoherent(steps: seq<Step>, end: Fleet, i: Instance, j: nat, k: nat)
    requires Reaches(Fleet(0, map[], []), steps, end)
    requires i in end.nodes && j < |end.nodes[i].order| && k < |end.published|
    requires Stale(end.nodes[i].order[j], end.published[k])
    ensures !end.nodes[i].subscribed || Pending(end.nodes[i].inbox, end.published[k])
  {
    RunCoherent(Fleet(0, map[], []), steps, end);
    assert NodeCoherent(end.nodes[i], end.published[k]);
  }

  /** So an instance that stays subscribed and has handled everything sent to it
      serves nothing an announcement dropped. */
  lemma CaughtUpServesNothingStale(steps: seq<Step>, end: Fleet, i: Instance, key: string, now: int, k: nat)
    requires Reaches(Fleet(0, map[], []), steps, end)
    requires i in end.nodes && end.nodes[i].subscribed && end.nodes[i].inbox == []
    requires k < |end.published| && Matches(end.published[k].inv, key)
    ensures var hit := Lookup(end.nodes[i].order, key, now); hit.Some? ==> hit.value > end.published[k].at
  {
    var order := end.nodes[i].order;
    var found := SlotOf<nat>(order, key);
    if found.Some? && found.value.entry <= end.published[k].at {
      var j :| 0 <= j < |order| && order[j] == found.value;
      FleetCoherent(steps, end, i, j, k);
    }
  }
}
