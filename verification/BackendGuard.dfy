/** The two layers of breakers in front of a backend: one for the backend as a
    whole and one per call, with the set of served calls and the backend-level
    events derived from them. Models internal/backend/circuitbreaker.go as a
    transition system in which any number of requests are in flight at once, each
    step being one critical section. */
module BackendGuard {
  import opened Common
  import opened Breaker

  datatype Call = PutObject | GetObject | HeadObject | DeleteObject | DeleteObjects | CopyObject | ListObjects

  /** An error: caller-side ones, a response with an HTTP status (0 when there was
      none), or a refusal by one of the breakers around what caused it. */
  datatype Err = NoErr | Canceled | DeadlineExceeded | Unsupported | Status(code: nat) | Unavailable(cause: Err)

  datatype Scope = ScopeNone | ScopeBackend | ScopeCall

  /** Whose fault an error is. */
  function Classify(err: Err): Scope {
    match err
    case Status(code) =>
      if code == 0 || code == 401 then ScopeBackend
      else if code >= 500 || code == 429 || code == 403 then ScopeCall
      else ScopeNone
    case _ => ScopeNone
  }

  // ---------------------------------------------------------------------
  // The guard
  // ---------------------------------------------------------------------

  /** The breaker of the backend and of each guarded call, the two fields the
      served set is read from, and the backend-level transitions reported so far. */
  datatype Guard = Guard(
    backend: Breaker, calls: map<Call, Breaker>,
    backendOpen: bool, callsClosed: set<Call>, events: seq<State>)

  function NewGuard(threshold: int, all: set<Call>): Guard {
    Guard(NewBreaker(threshold), map c | c in all :: NewBreaker(threshold), false, all, [])
  }

  function Served(backendOpen: bool, callsClosed: set<Call>): set<Call> {
    if backendOpen then {} else callsClosed
  }

  predicate Healthy(g: Guard) {
    Served(g.backendOpen, g.callsClosed) == g.calls.Keys
  }

  /** Reports a backend-level transition when the served set stops or starts being
      every call. */
  function Report(was: Guard, now: Guard): Guard {
    if Healthy(was) == Healthy(now) then now
    else now.(events := now.events + [if Healthy(now) then Closed else Open])
  }

  /** The hook of the backend breaker, run when it changed state. */
  function SetBackend(g: Guard, b: Breaker): Guard {
    var next := g.(backend := b);
    if b.state == g.backend.state then next
    else Report(g, next.(backendOpen := b.state != Closed))
  }

  /** The hook of one call's breaker. */
  function SetCall(g: Guard, c: Call, b: Breaker): Guard
    requires c in g.calls
  {
    var next := g.(calls := g.calls[c := b]);
    if b.state == g.calls[c].state then next
    else Report(g, next.(callsClosed := if b.state == Closed then g.callsClosed + {c} else g.callsClosed - {c}))
  }

  // ---------------------------------------------------------------------
  // Requests in flight
  // ---------------------------------------------------------------------

  /** Where a request is: past the backend breaker, past both and at the backend,
      answered, or on its way out through the backend breaker. */
  datatype Flight =
    | AtCall(call: Call)
    | AtBackend(call: Call)
    | Answered(call: Call, err: Err)
    | Leaving(call: Call, err: Err)

  /** One call that reached the backend and how it ended. */
  datatype Reach = Reach(call: Call, err: Err)

  /** The guard with its flights. log is every call that reached the backend;
      backendCounted and callCounted say how often each breaker counted one. */
  datatype System = System(
    guard: Guard, flights: map<nat, Flight>, log: seq<Reach>,
    backendCounted: nat, callCounted: map<Call, nat>)

  datatype Step =
    | Begin(i: nat, call: Call)
    | PreCall(i: nat)
    | Answer(i: nat, err: Err)
    | PostCall(i: nat, now: int, sawOpen: bool)
    | PostBackend(i: nat, now: int)
    | RecoverBackend
    | RecoverCall(call: Call)

  predicate Enabled(s: System, step: Step) {
    match step
    case Begin(i, call) => call in s.guard.calls && i !in s.flights && s.guard.backend.state == Closed
    case PreCall(i) => i in s.flights && s.flights[i].AtCall?
    // What the wrapped backend returns never is one of this wrapper's refusals.
    case Answer(i, err) => i in s.flights && s.flights[i].AtBackend? && !err.Unavailable?
    case PostCall(i, _, _) => i in s.flights && s.flights[i].Answered?
    case PostBackend(i, _) => i in s.flights && s.flights[i].Leaving?
    case RecoverBackend => true
    case RecoverCall(c) => c in s.guard.calls
  }

  /** Every flight is of a guarded call. */
  predicate Wellformed(s: System) {
    && s.callCounted.Keys == s.guard.calls.Keys
    && forall i | i in s.flights :: s.flights[i].call in s.guard.calls
  }

  /** The error a call's breaker passes on: a counted failure is wrapped when the
      breaker is found open afterwards. */
  function PassedOn(err: Err, sawOpen: bool): Err {
    if Classify(err) == ScopeCall && sawOpen then Unavailable(err) else err
  }

  /** A call's breaker once it has seen the call's answer. */
  function AnswerBreaker(b: Breaker, answer: Err, now: int): Breaker {
    if Classify(answer) == ScopeCall then OnFailure(b, now) else OnSuccess(b)
  }

  /** The backend breaker once it has seen what a call's breaker passed on. */
  function OuterBreaker(b: Breaker, err: Err, now: int): Breaker {
    if Classify(err) == ScopeBackend then OnFailure(b, now) else OnSuccess(b)
  }

  function Next(s: System, step: Step): System
    requires Wellformed(s) && Enabled(s, step)
  {
    match step
    case Begin(i, call) => s.(flights := s.flights[i := AtCall(call)])
    case PreCall(i) =>
      var c := s.flights[i].call;
      if s.guard.calls[c].state == Closed then s.(flights := s.flights[i := AtBackend(c)])
      else s.(flights := s.flights[i := Leaving(c, Unavailable(NoErr))])
    case Answer(i, err) =>
      var c := s.flights[i].call;
      s.(flights := s.flights[i := Answered(c, err)], log := s.log + [Reach(c, err)])
    case PostCall(i, now, sawOpen) =>
      var f := s.flights[i];
      var counts := Classify(f.err) == ScopeCall;
      s.(guard := SetCall(s.guard, f.call, AnswerBreaker(s.guard.calls[f.call], f.err, now)),
         flights := s.flights[i := Leaving(f.call, PassedOn(f.err, sawOpen))],
         callCounted := if counts then s.callCounted[f.call := s.callCounted[f.call] + 1] else s.callCounted)
    case PostBackend(i, now) =>
      var counts := Classify(s.flights[i].err) == ScopeBackend;
      s.(guard := SetBackend(s.guard, OuterBreaker(s.guard.backend, s.flights[i].err, now)),
         flights := s.flights - {i},
         backendCounted := if counts then s.backendCounted + 1 else s.backendCounted)
    case RecoverBackend => s.(guard := SetBackend(s.guard, Recover(s.guard.backend)))
    case RecoverCall(c) => s.(guard := SetCall(s.guard, c, Recover(s.guard.calls[c])))
  }

  function Init(threshold: int, all: set<Call>): System {
    System(NewGuard(threshold, all), map[], [], 0, map c | c in all :: 0)
  }

  // ---------------------------------------------------------------------
  // The guard's invariant
  // ---------------------------------------------------------------------

  predicate Alternates(events: seq<State>) {
    && (events != [] ==> events[0] == Open)
    && forall i :: 0 <= i < |events| - 1 ==> events[i] != events[i + 1]
  }

  /** The served set agrees with the breakers, and no breaker is closed at its
      threshold. */
  predicate Agreed(g: Guard) {
    && Sane(g.backend) && (forall c | c in g.calls :: Sane(g.calls[c]))
    && (g.backendOpen <==> g.backend.state == Open)
    && g.callsClosed <= g.calls.Keys
    && (forall c | c in g.calls :: c in g.callsClosed <==> g.calls[c].state == Closed)
  }

  /** The backend-level events alternate, and the last one is Open exactly when
      some call is not served. */
  predicate EventsTell(g: Guard) {
    && Alternates(g.events)
    && (!Healthy(g) <==> g.events != [] && g.events[|g.events| - 1] == Open)
  }

  predicate Consistent(g: Guard) {
    Agreed(g) && EventsTell(g)
  }

  lemma ReportTells(was: Guard, now: Guard)
    requires EventsTell(was) && now.events == was.events
    ensures EventsTell(Report(was, now))
  {
  }

  lemma SetBackendKeeps(g: Guard, b: Breaker)
    requires Consistent(g) && Sane(b)
    ensures Consistent(SetBackend(g, b))
  {
    ReportTells(g, g.(backend := b, backendOpen := b.state != Closed));
  }

  /** Which parts a call's hook touches. */
  lemma SetCallParts(g: Guard, c: Call, b: Breaker)
    requires c in g.calls
    ensures
      var g' := SetCall(g, c, b);
      && g'.backend == g.backend && g'.backendOpen == g.backendOpen && g'.calls == g.calls[c := b]
      && g'.calls.Keys == g.calls.Keys
      && g'.callsClosed == if b.state == g.calls[c].state then g.callsClosed
                           else if b.state == Closed then g.callsClosed + {c} else g.callsClosed - {c}
  {
  }

  lemma SetCallTells(g: Guard, c: Call, b: Breaker)
    requires c in g.calls && EventsTell(g)
    ensures EventsTell(SetCall(g, c, b))
  {
    assert g.calls[c := b].Keys == g.calls.Keys;
    var closed := if b.state == Closed then g.callsClosed + {c} else g.callsClosed - {c};
    ReportTells(g, g.(calls := g.calls[c := b], callsClosed := closed));
  }

  lemma SetCallKeeps(g: Guard, c: Call, b: Breaker)
    requires Consistent(g) && Sane(b) && c in g.calls
    ensures Consistent(SetCall(g, c, b))
  {
    SetCallParts(g, c, b);
    SetCallTells(g, c, b);
  }

  lemma OpsKeepSane(b: Breaker, now: int)
    requires Sane(b)
    ensures Sane(OnSuccess(b)) && Sane(OnFailure(b, now)) && Sane(Recover(b))
  {
  }

  lemma PostCallConsistent(s: System, step: Step)
    requires Wellformed(s) && Consistent(s.guard) && Enabled(s, step) && step.PostCall?
    ensures Wellformed(Next(s, step)) && Consistent(Next(s, step).guard)
    ensures Next(s, step).guard.calls.Keys == s.guard.calls.Keys
  {
    var f := s.flights[step.i];
    var b := s.guard.calls[f.call];
    OpsKeepSane(b, step.now);
    var b' := AnswerBreaker(b, f.err, step.now);
    SetCallParts(s.guard, f.call, b');
    SetCallKeeps(s.guard, f.call, b');
  }

  lemma StepConsistent(s: System, step: Step)
    requires Wellformed(s) && Consistent(s.guard) && Enabled(s, step)
    ensures Wellformed(Next(s, step)) && Consistent(Next(s, step).guard)
    ensures Next(s, step).guard.calls.Keys == s.guard.calls.Keys
  {
    match step
    case PostCall(_, _, _) =>
      PostCallConsistent(s, step);
    case PostBackend(i, now) =>
      var b := s.guard.backend;
      OpsKeepSane(b, now);
      SetBackendKeeps(s.guard, OuterBreaker(b, s.flights[i].err, now));
    case RecoverBackend =>
      SetBackendKeeps(s.guard, Recover(s.guard.backend));
    case RecoverCall(c) =>
      SetCallParts(s.guard, c, Recover(s.guard.calls[c]));
      SetCallKeeps(s.guard, c, Recover(s.guard.calls[c]));
    case _ =>
  }

  // ---------------------------------------------------------------------
  // Each failure counts once, against the breaker of its scope
  // ---------------------------------------------------------------------

  function One(p: bool): int {
    if p then 1 else 0
  }

  /** A failure that reached the backend and the backend breaker has yet to count. */
  function PendsBackend(f: Flight): int {
    One((f.Answered? || f.Leaving?) && Classify(f.err) == ScopeBackend)
  }

  /** A failure of call c that its breaker has yet to count. */
  function PendsCall(f: Flight, c: Call): int {
    One(f.Answered? && f.call == c && Classify(f.err) == ScopeCall)
  }

  ghost function BackendPending(flights: map<nat, Flight>): map<nat, int> {
    map i | i in flights :: PendsBackend(flights[i])
  }

  ghost function CallPending(flights: map<nat, Flight>, c: Call): map<nat, int> {
    map i | i in flights :: PendsCall(flights[i], c)
  }

  function BackendReached(log: seq<Reach>): int {
    if log == [] then 0
    else BackendReached(log[..|log| - 1]) + One(Classify(log[|log| - 1].err) == ScopeBackend)
  }

  function CallReached(log: seq<Reach>, c: Call): int {
    if log == [] then 0
    else CallReached(log[..|log| - 1], c)
         + One(log[|log| - 1].call == c && Classify(log[|log| - 1].err) == ScopeCall)
  }

  /** Every failure that reached the backend is counted by exactly the breaker of
      its scope, once, or is on its way there. */
  ghost predicate CountedOnce(s: System, c: Call)
    requires c in s.callCounted
  {
    && s.backendCounted + Sum(BackendPending(s.flights)) == BackendReached(s.log)
    && s.callCounted[c] + Sum(CallPending(s.flights, c)) == CallReached(s.log, c)
  }

  /** One flight moves: its pending failures change, nobody else's. */
  lemma PendingSet(flights: map<nat, Flight>, i: nat, f: Flight, c: Call)
    ensures Sum(BackendPending(flights[i := f]))
         == Sum(BackendPending(flights)) - Get(BackendPending(flights), i) + PendsBackend(f)
    ensures Sum(CallPending(flights[i := f], c))
         == Sum(CallPending(flights, c)) - Get(CallPending(flights, c), i) + PendsCall(f, c)
  {
    assert BackendPending(flights[i := f]) == BackendPending(flights)[i := PendsBackend(f)];
    SumUpdate(BackendPending(flights), i, PendsBackend(f));
    assert CallPending(flights[i := f], c) == CallPending(flights, c)[i := PendsCall(f, c)];
    SumUpdate(CallPending(flights, c), i, PendsCall(f, c));
  }

  lemma PendingDrop(flights: map<nat, Flight>, i: nat, c: Call)
    ensures Sum(BackendPending(flights - {i})) == Sum(BackendPending(flights)) - Get(BackendPending(flights), i)
    ensures Sum(CallPending(flights - {i}, c)) == Sum(CallPending(flights, c)) - Get(CallPending(flights, c), i)
  {
    assert BackendPending(flights - {i}) == BackendPending(flights) - {i};
    assert CallPending(flights - {i}, c) == CallPending(flights, c) - {i};
    SumRemove(BackendPending(flights), i);
    SumRemove(CallPending(flights, c), i);
  }

  lemma ReachedMore(log: seq<Reach>, r: Reach, c: Call)
    ensures BackendReached(log + [r]) == BackendReached(log) + One(Classify(r.err) == ScopeBackend)
    ensures CallReached(log + [r], c) == CallReached(log, c) + One(r.call == c && Classify(r.err) == ScopeCall)
  {
    assert (log + [r])[..|log|] == log;
  }

  lemma PassedOnScope(err: Err, sawOpen: bool)
    ensures Classify(PassedOn(err, sawOpen)) == ScopeBackend <==> Classify(err) == ScopeBackend
  {
  }

  /** One flight moves from f to f'; the counts move with it. */
  lemma MoveCounts(s: System, s': System, i: nat, c: Call)
    requires c in s.callCounted && c in s'.callCounted && CountedOnce(s, c)
    requires i in s'.flights && s'.flights == s.flights[i := s'.flights[i]]
    requires s'.backendCounted + BackendReached(s.log) + PendsBackend(s'.flights[i])
      == s.backendCounted + BackendReached(s'.log) + (if i in s.flights then PendsBackend(s.flights[i]) else 0)
    requires s'.callCounted[c] + CallReached(s.log, c) + PendsCall(s'.flights[i], c)
      == s.callCounted[c] + CallReached(s'.log, c) + (if i in s.flights then PendsCall(s.flights[i], c) else 0)
    ensures CountedOnce(s', c)
  {
    PendingSet(s.flights, i, s'.flights[i], c);
  }

  lemma StepCounts(s: System, step: Step, c: Call)
    requires Wellformed(s) && Enabled(s, step) && c in s.callCounted && CountedOnce(s, c)
    requires c in Next(s, step).callCounted
    ensures CountedOnce(Next(s, step), c)
  {
    var s' := Next(s, step);
    match step
    case PostBackend(i, _) => PendingDrop(s.flights, i, c);
    case RecoverBackend =>
    case RecoverCall(_) =>
    case Begin(i, _) => MoveCounts(s, s', i, c);
    case PreCall(i) => MoveCounts(s, s', i, c);
    case Answer(i, err) => AnswerCounts(s, i, err, c);
    case PostCall(i, now, sawOpen) => PostCallCounts(s, i, now, sawOpen, c);
  }

  lemma AnswerCounts(s: System, i: nat, err: Err, c: Call)
    requires Wellformed(s) && Enabled(s, Answer(i, err)) && c in s.callCounted && CountedOnce(s, c)
    ensures c in Next(s, Answer(i, err)).callCounted && CountedOnce(Next(s, Answer(i, err)), c)
  {
    ReachedMore(s.log, Reach(s.flights[i].call, err), c);
    MoveCounts(s, Next(s, Answer(i, err)), i, c);
  }

  lemma PostCallCounts(s: System, i: nat, now: int, sawOpen: bool, c: Call)
    requires Wellformed(s) && Enabled(s, PostCall(i, now, sawOpen)) && c in s.callCounted && CountedOnce(s, c)
    ensures
      var s' := Next(s, PostCall(i, now, sawOpen));
      c in s'.callCounted && CountedOnce(s', c)
  {
    PassedOnScope(s.flights[i].err, sawOpen);
    MoveCounts(s, Next(s, PostCall(i, now, sawOpen)), i, c);
  }

  // ---------------------------------------------------------------------
  // Every run
  // ---------------------------------------------------------------------

  /** One step the protocol allows, and where it leads. */
  predicate Goes(s: System, step: Step, next: System) {
    Wellformed(s) && Enabled(s, step) && next == Next(s, step)
  }

  /** A run: its steps, and the states before, between and after them. */
  ghost predicate IsRun(threshold: int, all: set<Call>, steps: seq<Step>, trace: seq<System>) {
    && |trace| == |steps| + 1 && trace[0] == Init(threshold, all)
    && forall k {:trigger steps[k]} :: 0 <= k < |steps| ==> Goes(trace[k], steps[k], trace[k + 1])
  }

  /** At every point of any run of requests and recoveries, in any interleaving: the
      served set agrees with the breakers, no closed breaker is at its threshold,
      the backend-level events alternate, and every failure that reached the backend
      was or will be counted once, by the breaker of its scope. */
  lemma {:induction false} GuardInvariant(threshold: int, all: set<Call>, steps: seq<Step>, trace: seq<System>, n: nat, c: Call)
    requires threshold >= 1 && c in all && IsRun(threshold, all, steps, trace) && n < |trace|
    ensures Wellformed(trace[n]) && trace[n].guard.calls.Keys == all && Consistent(trace[n].guard) && CountedOnce(trace[n], c)
  {
    if n == 0 {
      assert BackendPending(map[]) == map[] && CallPending(map[], c) == map[];
    } else {
      GuardInvariant(threshold, all, steps, trace, n - 1, c);
      assert Goes(trace[n - 1], steps[n - 1], trace[n]);
      StepConsistent(trace[n - 1], steps[n - 1]);
      StepCounts(trace[n - 1], steps[n - 1], c);
    }
  }

  /** Where no request is in flight, each breaker has counted exactly the failures
      of its scope that reached the backend. */
  lemma QuietCountsExactly(threshold: int, all: set<Call>, steps: seq<Step>, trace: seq<System>, n: nat, c: Call)
    requires threshold >= 1 && c in all && IsRun(threshold, all, steps, trace) && n < |trace| && trace[n].flights == map[]
    ensures
      var s := trace[n];
      c in s.callCounted && s.backendCounted == BackendReached(s.log) && s.callCounted[c] == CallReached(s.log, c)
  {
    GuardInvariant(threshold, all, steps, trace, n, c);
    assert BackendPending(map[]) == map[] && CallPending(map[], c) == map[];
  }

  /** Only a recovery closes a breaker. */
  lemma OnlyRecoveryCloses(s: System, step: Step, c: Call)
    requires Wellformed(s) && Enabled(s, step) && c in s.guard.calls
    ensures c in Next(s, step).guard.calls
    ensures s.guard.backend.state == Open && Next(s, step).guard.backend.state == Closed ==> step == RecoverBackend
    ensures s.guard.calls[c].state == Open && Next(s, step).guard.calls[c].state == Closed ==> step == RecoverCall(c)
  {
    match step
    case PostCall(i, now, _) =>
      var f := s.flights[i];
      var b := s.guard.calls[f.call];
      SetCallParts(s.guard, f.call, AnswerBreaker(b, f.err, now));
    case RecoverCall(d) =>
      SetCallParts(s.guard, d, Recover(s.guard.calls[d]));
    case _ =>
  }

  /** Step a of a run let request i in, with the backend breaker closed. */
  predicate LetIn(steps: seq<Step>, trace: seq<System>, a: nat, i: nat, c: Call) {
    a < |steps| && a < |trace| && steps[a] == Begin(i, c) && trace[a].guard.backend.state == Closed
  }

  /** Step b of a run let request i through, with its call's breaker closed. */
  predicate LetThrough(steps: seq<Step>, trace: seq<System>, b: nat, i: nat, c: Call) {
    && b < |steps| && b < |trace| && steps[b] == PreCall(i)
    && c in trace[b].guard.calls && trace[b].guard.calls[c].state == Closed
  }

  /** The request numbered i at step n is the one let in at step a. */
  predicate SameRequest(steps: seq<Step>, i: nat, a: nat, n: nat) {
    a < n <= |steps| && forall x :: a < x < n ==> !(steps[x].Begin? && steps[x].i == i)
  }

  ghost predicate CameIn(steps: seq<Step>, trace: seq<System>, n: nat, i: nat, c: Call) {
    exists a: nat :: LetIn(steps, trace, a, i, c) && SameRequest(steps, i, a, n)
  }

  ghost predicate CameThrough(steps: seq<Step>, trace: seq<System>, n: nat, i: nat, c: Call) {
    exists a: nat, b: nat :: LetIn(steps, trace, a, i, c) && SameRequest(steps, i, a, n)
                             && a < b < n && LetThrough(steps, trace, b, i, c)
  }

  /** How a flight got where it is. */
  ghost predicate Explained(steps: seq<Step>, trace: seq<System>, n: nat, i: nat, f: Flight) {
    && (f.AtCall? ==> CameIn(steps, trace, n, i, f.call))
    && (f.AtBackend? ==> CameThrough(steps, trace, n, i, f.call))
  }

  lemma StaysExplained(steps: seq<Step>, trace: seq<System>, n: nat, m: nat, i: nat, f: Flight)
    requires n < |steps| && m == n + 1 && !(steps[n].Begin? && steps[n].i == i) && Explained(steps, trace, n, i, f)
    ensures Explained(steps, trace, m, i, f)
  {
    if f.AtCall? {
      var a: nat :| LetIn(steps, trace, a, i, f.call) && SameRequest(steps, i, a, n);
      assert SameRequest(steps, i, a, m);
    } else if f.AtBackend? {
      var a: nat, b: nat :| LetIn(steps, trace, a, i, f.call) && SameRequest(steps, i, a, n)
                            && a < b < n && LetThrough(steps, trace, b, i, f.call);
      assert SameRequest(steps, i, a, m);
    }
  }

  lemma NewlyExplained(steps: seq<Step>, trace: seq<System>, n: nat, m: nat, i: nat, f: Flight)
    requires n < |steps| && m == n + 1 && m < |trace| && Goes(trace[n], steps[n], trace[m])
    requires i in trace[n].flights && i in trace[m].flights && f == trace[n].flights[i]
    requires Explained(steps, trace, n, i, f)
    ensures Explained(steps, trace, m, i, trace[m].flights[i])
  {
    StaysExplained(steps, trace, n, m, i, f);
    var g := trace[m].flights[i];
    if steps[n] == PreCall(i) && g.AtBackend? {
      var a: nat :| LetIn(steps, trace, a, i, f.call) && SameRequest(steps, i, a, n);
      assert SameRequest(steps, i, a, m) && LetThrough(steps, trace, n, i, f.call);
    }
  }

  lemma {:induction false} FlightsExplained(threshold: int, all: set<Call>, steps: seq<Step>, trace: seq<System>, n: nat, i: nat)
    requires IsRun(threshold, all, steps, trace) && n < |trace| && i in trace[n].flights
    ensures Explained(steps, trace, n, i, trace[n].flights[i])
  {
    if n > 0 {
      assert Goes(trace[n - 1], steps[n - 1], trace[n]);
      if i in trace[n - 1].flights {
        FlightsExplained(threshold, all, steps, trace, n - 1, i);
        NewlyExplained(steps, trace, n - 1, n, i, trace[n - 1].flights[i]);
      } else {
        var c := trace[n].flights[i].call;
        assert LetIn(steps, trace, n - 1, i, c) && SameRequest(steps, i, n - 1, n);
      }
    }
  }

  /** An answer the backend gave, at a step before n, to a request let through both
      breakers. */
  ghost predicate AnsweredThrough(steps: seq<Step>, trace: seq<System>, n: nat, r: Reach) {
    exists d: nat, i: nat :: d < n && d < |steps| && steps[d] == Answer(i, r.err) && CameThrough(steps, trace, d, i, r.call)
  }

  /** Over every run, each call that reached the backend was a request let in while
      the backend breaker was closed and then let through while its call's was. */
  lemma {:induction false} ReachesThroughBoth(threshold: int, all: set<Call>, steps: seq<Step>, trace: seq<System>, n: nat, k: nat)
    requires IsRun(threshold, all, steps, trace) && n < |trace| && k < |trace[n].log|
    ensures AnsweredThrough(steps, trace, n, trace[n].log[k])
  {
    assert n > 0;
    var step := steps[n - 1];
    assert Goes(trace[n - 1], step, trace[n]);
    if k < |trace[n - 1].log| {
      ReachesThroughBoth(threshold, all, steps, trace, n - 1, k);
    } else {
      FlightsExplained(threshold, all, steps, trace, n - 1, step.i);
    }
  }

  /** A request refused by its call's breaker, which reaches nothing, still resets
      the backend breaker's count of failures in a row. */
  lemma RefusalResetsBackendCount(s: System, i: nat, c: Call, now: int)
    requires Wellformed(s) && Consistent(s.guard) && i !in s.flights && c in s.guard.calls
    requires s.guard.backend.state == Closed && s.guard.calls[c].state == Open
    ensures
      var s1 := Next(s, Begin(i, c));
      && Wellformed(s1) && Enabled(s1, PreCall(i))
      && var s2 := Next(s1, PreCall(i));
         && Wellformed(s2) && Enabled(s2, PostBackend(i, now))
         && var s3 := Next(s2, PostBackend(i, now));
            s3.log == s.log && s3.guard == s.guard.(backend := s.guard.backend.(failures := 0))
  {
  }

  // ---------------------------------------------------------------------
  // One request run alone
  // ---------------------------------------------------------------------

  datatype Outcome = Outcome(guard: Guard, reached: bool, err: Err)

  /** A whole guarded call: both checks, the backend's answer if it is reached,
      and both records of it. */
  function GuardedCall(g: Guard, c: Call, answer: Err, now: int): Outcome
    requires c in g.calls
  {
    if g.backend.state == Open then Outcome(g, false, Unavailable(NoErr))
    else if g.calls[c].state == Open then
      Outcome(SetBackend(g, OnSuccess(g.backend)), false, Unavailable(NoErr))
    else
      var b := AnswerBreaker(g.calls[c], answer, now);
      var g1 := SetCall(g, c, b);
      var passed := PassedOn(answer, b.state == Open);
      var outer := OuterBreaker(g1.backend, passed, now);
      Outcome(SetBackend(g1, outer), true,
              if Classify(passed) == ScopeBackend && outer.state == Open then Unavailable(passed) else passed)
  }

  function WithFlight(s: System, i: nat, f: Flight): System {
    s.(flights := s.flights[i := f])
  }

  function Logged(s: System, c: Call, answer: Err): System {
    s.(log := s.log + [Reach(c, answer)])
  }

  /** What a call's own breaker makes of its answer. */
  function Recorded(s: System, c: Call, answer: Err, now: int): System
    requires c in s.guard.calls && c in s.callCounted
  {
    s.(guard := SetCall(s.guard, c, AnswerBreaker(s.guard.calls[c], answer, now)),
       callCounted := s.callCounted[c := s.callCounted[c] + One(Classify(answer) == ScopeCall)])
  }

  /** What the backend breaker makes of what a call's breaker passed on. */
  function Left(s: System, err: Err, now: int): System {
    s.(guard := SetBackend(s.guard, OuterBreaker(s.guard.backend, err, now)),
       backendCounted := s.backendCounted + One(Classify(err) == ScopeBackend))
  }

  lemma Begins(s: System, i: nat, c: Call)
    requires Wellformed(s) && c in s.guard.calls && i !in s.flights && s.guard.backend.state == Closed
    ensures Goes(s, Begin(i, c), WithFlight(s, i, AtCall(c)))
  {
  }

  lemma PassesCall(s: System, i: nat, c: Call)
    requires Wellformed(s) && c in s.guard.calls && i !in s.flights
    ensures Goes(WithFlight(s, i, AtCall(c)), PreCall(i),
                 WithFlight(s, i, if s.guard.calls[c].state == Closed then AtBackend(c) else Leaving(c, Unavailable(NoErr))))
  {
    var f := if s.guard.calls[c].state == Closed then AtBackend(c) else Leaving(c, Unavailable(NoErr));
    assert s.flights[i := AtCall(c)][i := f] == s.flights[i := f];
  }

  lemma Answers(s: System, i: nat, c: Call, answer: Err)
    requires Wellformed(s) && c in s.guard.calls && i !in s.flights && !answer.Unavailable?
    ensures Goes(WithFlight(s, i, AtBackend(c)), Answer(i, answer), WithFlight(Logged(s, c, answer), i, Answered(c, answer)))
  {
    assert s.flights[i := AtBackend(c)][i := Answered(c, answer)] == s.flights[i := Answered(c, answer)];
  }

  lemma Records(s: System, i: nat, c: Call, answer: Err, now: int, sawOpen: bool)
    requires Wellformed(s) && c in s.guard.calls && i !in s.flights
    ensures Goes(WithFlight(s, i, Answered(c, answer)), PostCall(i, now, sawOpen),
                 WithFlight(Recorded(s, c, answer, now), i, Leaving(c, PassedOn(answer, sawOpen))))
  {
    var f := Leaving(c, PassedOn(answer, sawOpen));
    assert s.flights[i := Answered(c, answer)][i := f] == s.flights[i := f];
    assert s.callCounted[c := s.callCounted[c]] == s.callCounted;
  }

  lemma Leaves(s: System, i: nat, c: Call, err: Err, now: int)
    requires Wellformed(s) && c in s.guard.calls && i !in s.flights
    ensures Goes(WithFlight(s, i, Leaving(c, err)), PostBackend(i, now), Left(s, err, now))
  {
    assert s.flights[i := Leaving(c, err)] - {i} == s.flights;
  }

  /** The system once a request has run alone: the guard is as a guarded call leaves
      it, and what reached the backend is logged and counted. */
  function AfterRequest(s: System, c: Call, answer: Err, now: int): System
    requires c in s.guard.calls && c in s.callCounted
  {
    var o := GuardedCall(s.guard, c, answer, now);
    if !o.reached then s.(guard := o.guard)
    else s.(guard := o.guard, log := s.log + [Reach(c, answer)],
            backendCounted := s.backendCounted + One(Classify(answer) == ScopeBackend),
            callCounted := s.callCounted[c := s.callCounted[c] + One(Classify(answer) == ScopeCall)])
  }

  /** Where a request that reaches the backend is before it leaves. */
  function BeforeLeaving(s: System, c: Call, answer: Err, now: int): System
    requires c in s.guard.calls && c in s.callCounted
  {
    Recorded(Logged(s, c, answer), c, answer, now)
  }

  lemma LeavesAfterRequest(s: System, c: Call, answer: Err, now: int)
    requires Wellformed(s) && c in s.guard.calls
    requires s.guard.backend.state == Closed && s.guard.calls[c].state == Closed
    ensures Wellformed(BeforeLeaving(s, c, answer, now)) && c in BeforeLeaving(s, c, answer, now).guard.calls
    ensures
      var sawOpen := AnswerBreaker(s.guard.calls[c], answer, now).state == Open;
      Left(BeforeLeaving(s, c, answer, now), PassedOn(answer, sawOpen), now) == AfterRequest(s, c, answer, now)
  {
    var b := AnswerBreaker(s.guard.calls[c], answer, now);
    SetCallParts(s.guard, c, b);
    PassedOnScope(answer, b.state == Open);
  }

  /** Let in past the backend breaker, refused by the call's own, and out again. */
  ghost predicate IsRefusal(s: System, i: nat, c: Call, now: int, end: System) {
    var s1 := WithFlight(s, i, AtCall(c));
    var s2 := WithFlight(s, i, Leaving(c, Unavailable(NoErr)));
    Goes(s, Begin(i, c), s1) && Goes(s1, PreCall(i), s2) && Goes(s2, PostBackend(i, now), end)
  }

  /** Let in past both, answered, and the answer recorded by both on the way out. */
  ghost predicate IsAnswer(s: System, i: nat, c: Call, answer: Err, now: int, end: System)
    requires c in s.guard.calls && c in s.callCounted
  {
    var sawOpen := AnswerBreaker(s.guard.calls[c], answer, now).state == Open;
    var s1, s2 := WithFlight(s, i, AtCall(c)), WithFlight(s, i, AtBackend(c));
    var s3 := WithFlight(Logged(s, c, answer), i, Answered(c, answer));
    var s4 := WithFlight(BeforeLeaving(s, c, answer, now), i, Leaving(c, PassedOn(answer, sawOpen)));
    && Goes(s, Begin(i, c), s1) && Goes(s1, PreCall(i), s2) && Goes(s2, Answer(i, answer), s3)
    && Goes(s3, PostCall(i, now, sawOpen), s4) && Goes(s4, PostBackend(i, now), end)
  }

  lemma RefusedInside(s: System, i: nat, c: Call, answer: Err, now: int)
    requires Wellformed(s) && c in s.guard.calls && i !in s.flights
    requires s.guard.backend.state == Closed && s.guard.calls[c].state == Open
    ensures IsRefusal(s, i, c, now, AfterRequest(s, c, answer, now))
  {
    Begins(s, i, c);
    PassesCall(s, i, c);
    Leaves(s, i, c, Unavailable(NoErr), now);
  }

  lemma AnsweredInside(s: System, i: nat, c: Call, answer: Err, now: int)
    requires Wellformed(s) && c in s.guard.calls && i !in s.flights && !answer.Unavailable?
    requires s.guard.backend.state == Closed && s.guard.calls[c].state == Closed
    ensures IsAnswer(s, i, c, answer, now, AfterRequest(s, c, answer, now))
  {
    var sawOpen := AnswerBreaker(s.guard.calls[c], answer, now).state == Open;
    Begins(s, i, c);
    PassesCall(s, i, c);
    Answers(s, i, c, answer);
    Records(Logged(s, c, answer), i, c, answer, now, sawOpen);
    LeavesAfterRequest(s, c, answer, now);
    Leaves(BeforeLeaving(s, c, answer, now), i, c, PassedOn(answer, sawOpen), now);
  }

  /** A guarded call is the steps of the protocol, from any state: refused without
      a step while the backend breaker is open; let in and out again while only its
      call's is; and otherwise through both, the answer recorded by both. */
  lemma RequestIsSteps(s: System, i: nat, c: Call, answer: Err, now: int)
    requires Wellformed(s) && c in s.guard.calls && i !in s.flights && !answer.Unavailable?
    ensures
      var end := AfterRequest(s, c, answer, now);
      if s.guard.backend.state == Open then !Enabled(s, Begin(i, c)) && end == s
      else if s.guard.calls[c].state == Open then IsRefusal(s, i, c, now, end)
      else IsAnswer(s, i, c, answer, now, end)
  {
    if s.guard.backend.state == Closed {
      if s.guard.calls[c].state == Open {
        RefusedInside(s, i, c, answer, now);
      } else {
        AnsweredInside(s, i, c, answer, now);
      }
    }
  }

  /** A call reaches the backend exactly when it is in the published served set,
      and is refused as unavailable otherwise. */
  lemma ReachedIsServed(g: Guard, c: Call, answer: Err, now: int)
    requires Consistent(g) && c in g.calls
    ensures
      var o := GuardedCall(g, c, answer, now);
      && (o.reached <==> c in Served(g.backendOpen, g.callsClosed))
      && (!o.reached ==> o.err == Unavailable(NoErr))
      && Consistent(o.guard)
  {
    OpsKeepSane(g.backend, now);
    OpsKeepSane(g.calls[c], now);
    if g.backend.state == Closed {
      if g.calls[c].state == Open {
        SetBackendKeeps(g, OnSuccess(g.backend));
      } else {
        var b := AnswerBreaker(g.calls[c], answer, now);
        SetCallParts(g, c, b);
        SetCallKeeps(g, c, b);
        var g1 := SetCall(g, c, b);
        SetBackendKeeps(g1, OnFailure(g1.backend, now));
        SetBackendKeeps(g1, OnSuccess(g1.backend));
      }
    }
  }

  /** The wrapper as an object. Each breaker belongs to it alone and is held as
      the state its class is proved to keep. */
  class CircuitBreakerBackend {
    var backend: Breaker
    var calls: map<Call, Breaker>
    var backendOpen: bool
    var callsClosed: set<Call>
    var events: seq<State>

    function View(): Guard
      reads this
    {
      Guard(backend, calls, backendOpen, callsClosed, events)
    }

    constructor (threshold: int, all: set<Call>)
      ensures View() == NewGuard(threshold, all)
    {
      backend := NewBreaker(threshold);
      calls := map c | c in all :: NewBreaker(threshold);
      backendOpen, callsClosed, events := false, all, [];
    }

    /** What Served says of this object. */
    method ServedCalls() returns (served: set<Call>)
      ensures served == Served(backendOpen, callsClosed)
    {
      served := if backendOpen then {} else callsClosed;
    }

    /** Reports a backend-level transition if serving every call just changed. */
    method Reported(wasHealthy: bool)
      modifies this`events
      ensures events == if wasHealthy == Healthy(View()) then old(events)
                        else old(events) + [if Healthy(View()) then Closed else Open]
    {
      var served := ServedCalls();
      if wasHealthy != (served == calls.Keys) {
        events := events + [if served == calls.Keys then Closed else Open];
      }
    }

    /** Replaces a call's breaker and runs its hook if it changed state. */
    method ChangeCall(c: Call, b: Breaker)
      requires c in calls
      modifies this
      ensures View() == SetCall(old(View()), c, b)
    {
      var served := ServedCalls();
      var wasHealthy := served == calls.Keys;
      var changed := b.state != calls[c].state;
      calls := calls[c := b];
      assert calls.Keys == old(calls).Keys;
      if changed {
        callsClosed := if b.state == Closed then callsClosed + {c} else callsClosed - {c};
        Reported(wasHealthy);
      }
    }

    /** Records an answer on a call's breaker and runs its hook. */
    method PostCallCheck(c: Call, err: Err, now: int) returns (passed: Err)
      requires c in calls
      modifies this
      ensures
        var b := old(calls)[c];
        var b' := AnswerBreaker(b, err, now);
        View() == SetCall(old(View()), c, b') && passed == PassedOn(err, b'.state == Open)
    {
      var b := AnswerBreaker(calls[c], err, now);
      ChangeCall(c, b);
      passed := if Classify(err) == ScopeCall && b.state == Open then Unavailable(err) else err;
    }

    /** Records an answer on the backend breaker and runs its hook. */
    method PostBackendCheck(err: Err, now: int) returns (passed: Err)
      modifies this
      ensures
        var b' := OuterBreaker(old(backend), err, now);
        && View() == SetBackend(old(View()), b')
        && passed == if Classify(err) == ScopeBackend && b'.state == Open then Unavailable(err) else err
    {
      var served := ServedCalls();
      var wasHealthy := served == calls.Keys;
      var b' := OuterBreaker(backend, err, now);
      var changed := b'.state != backend.state;
      backend := b';
      if changed {
        backendOpen := b'.state != Closed;
        Reported(wasHealthy);
      }
      passed := if Classify(err) == ScopeBackend && b'.state == Open then Unavailable(err) else err;
    }

    /** guard: one request through both breakers. answer is what the backend
        returns if it is reached. */
    method Request(c: Call, answer: Err, now: int) returns (reached: bool, err: Err)
      requires c in calls
      modifies this
      ensures Outcome(View(), reached, err) == GuardedCall(old(View()), c, answer, now)
    {
      if backend.state == Open {
        return false, Unavailable(NoErr);
      }
      if calls[c].state == Open {
        err := PostBackendCheck(Unavailable(NoErr), now);
        return false, err;
      }
      var passed := PostCallCheck(c, answer, now);
      err := PostBackendCheck(passed, now);
      reached := true;
    }
  }
}
