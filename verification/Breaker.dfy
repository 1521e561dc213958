/** The two-state circuit breaker of internal/breaker/breaker.go: which failures
    count, when it opens, and that only a recovery closes it. */
module Breaker {
  datatype State = Closed | Open

  /** A breaker's state; failures counts since the last success or recovery. */
  datatype Breaker = Breaker(state: State, failures: nat, openedAt: int, threshold: int)

  function NewBreaker(threshold: int): Breaker {
    Breaker(Closed, 0, 0, threshold)
  }

  function OnSuccess(b: Breaker): Breaker {
    b.(failures := 0)
  }

  function OnFailure(b: Breaker, now: int): Breaker {
    var counted := b.(failures := b.failures + 1);
    if b.state == Closed && counted.failures >= b.threshold
    then counted.(state := Open, openedAt := now) else counted
  }

  function Trip(b: Breaker, now: int): Breaker {
    if b.state != Open then b.(state := Open, openedAt := now) else b
  }

  function Recover(b: Breaker): Breaker {
    b.(state := Closed, failures := 0)
  }

  /** What a closed breaker promises: it has not seen its threshold of failures. */
  predicate Sane(b: Breaker) {
    b.threshold >= 1 && (b.state == Closed ==> b.failures < b.threshold)
  }

  /** What can happen to a breaker. */
  datatype Op = Succeeded | Failed(now: int) | Tripped(now: int) | Recovered

  function Do(b: Breaker, op: Op): Breaker {
    match op
    case Succeeded => OnSuccess(b)
    case Failed(now) => OnFailure(b, now)
    case Tripped(now) => Trip(b, now)
    case Recovered => Recover(b)
  }

  function DoFirst(b: Breaker, ops: seq<Op>, n: nat): Breaker
    requires n <= |ops|
  {
    if n == 0 then b else Do(DoFirst(b, ops, n - 1), ops[n - 1])
  }

  // ---------------------------------------------------------------------
  // What a history says
  // ---------------------------------------------------------------------

  /** How many of the operations from i up to j failed. */
  function Failures(ops: seq<Op>, i: nat, j: nat): nat
    requires i <= j <= |ops|
    decreases j - i
  {
    if i == j then 0 else Failures(ops, i, j - 1) + if ops[j - 1].Failed? then 1 else 0
  }

  /** No operation from i up to j succeeded or recovered the breaker. */
  predicate Unbroken(ops: seq<Op>, i: nat, j: nat)
    requires i <= j <= |ops|
  {
    forall x :: i <= x < j ==> !ops[x].Succeeded? && !ops[x].Recovered?
  }

  /** threshold failures in a row, among the operations up to j. */
  ghost predicate InARow(threshold: int, ops: seq<Op>, j: nat)
    requires j <= |ops|
  {
    exists i: nat :: i < j && Unbroken(ops, i, j) && Failures(ops, i, j) >= threshold
  }

  /** The operation at k is why a breaker is open after the first n: it tripped it
      or completed a row of failures, and no recovery came after. */
  ghost predicate OpenSince(threshold: int, ops: seq<Op>, n: nat, k: nat)
    requires n <= |ops|
  {
    && k < n
    && (forall x :: k < x < n ==> !ops[x].Recovered?)
    && (ops[k].Tripped? || InARow(threshold, ops, k + 1))
  }

  ghost predicate ShouldBeOpen(threshold: int, ops: seq<Op>, n: nat)
    requires n <= |ops|
  {
    exists k :: OpenSince(threshold, ops, n, k)
  }

  /** Where the unbroken run that ends at n begins. */
  function RunStart(ops: seq<Op>, n: nat): (i: nat)
    requires n <= |ops|
    ensures i <= n && Unbroken(ops, i, n)
  {
    if n == 0 then 0
    else if ops[n - 1].Succeeded? || ops[n - 1].Recovered? then n
    else RunStart(ops, n - 1)
  }

  /** No unbroken run that ends at n has more failures than the longest. */
  lemma {:induction false} LongestRun(ops: seq<Op>, i: nat, n: nat)
    requires i <= n <= |ops| && Unbroken(ops, i, n)
    ensures RunStart(ops, n) <= i && Failures(ops, i, n) <= Failures(ops, RunStart(ops, n), n)
  {
    if i < n {
      LongestRun(ops, i, n - 1);
    }
  }

  /** One operation more: what keeps a breaker open, or opens it. */
  lemma OpenNext(threshold: int, ops: seq<Op>, n: nat)
    requires threshold >= 1 && n < |ops|
    ensures
      var before, after := ShouldBeOpen(threshold, ops, n), ShouldBeOpen(threshold, ops, n + 1);
      after <==> match ops[n]
                 case Succeeded => before
                 case Failed(_) => before || Failures(ops, RunStart(ops, n + 1), n + 1) >= threshold
                 case Tripped(_) => true
                 case Recovered => false
  {
    var m := n + 1;
    if k: nat :| OpenSince(threshold, ops, n, k) && !ops[n].Recovered? {
      assert OpenSince(threshold, ops, m, k);
    }
    if k: nat :| OpenSince(threshold, ops, m, k) {
      if k < n {
        assert OpenSince(threshold, ops, n, k);
      } else if !ops[k].Tripped? {
        var i: nat :| i < m && Unbroken(ops, i, m) && Failures(ops, i, m) >= threshold;
        LongestRun(ops, i, m);
      }
    }
    if ops[n].Tripped? {
      assert OpenSince(threshold, ops, m, n);
    }
    if ops[n].Failed? && Failures(ops, RunStart(ops, m), m) >= threshold {
      assert InARow(threshold, ops, m);
      assert OpenSince(threshold, ops, m, n);
    }
  }

  lemma {:induction false} FollowsHistory(threshold: int, ops: seq<Op>, n: nat)
    requires threshold >= 1 && n <= |ops|
    ensures
      var b := DoFirst(NewBreaker(threshold), ops, n);
      && b.threshold == threshold && Sane(b)
      && b.failures == Failures(ops, RunStart(ops, n), n)
      && (b.state == Open <==> ShouldBeOpen(threshold, ops, n))
  {
    if n > 0 {
      FollowsHistory(threshold, ops, n - 1);
      OpenNext(threshold, ops, n - 1);
    }
  }

  /** After any history a breaker is open exactly when some operation tripped it, or
      completed threshold failures with no success or recovery among them, and no
      recovery came after; its count is the most failures of any unbroken run up to
      now; and it is never closed at its threshold. */
  lemma BreakerFollowsHistory(threshold: int, ops: seq<Op>)
    requires threshold >= 1
    ensures
      var b := DoFirst(NewBreaker(threshold), ops, |ops|);
      && Sane(b)
      && (b.state == Open <==> ShouldBeOpen(threshold, ops, |ops|))
      && (exists i: nat :: i <= |ops| && Unbroken(ops, i, |ops|) && Failures(ops, i, |ops|) == b.failures)
      && (forall i: nat :: i <= |ops| && Unbroken(ops, i, |ops|) ==> Failures(ops, i, |ops|) <= b.failures)
  {
    FollowsHistory(threshold, ops, |ops|);
    assert Unbroken(ops, RunStart(ops, |ops|), |ops|);
    forall i: nat | i <= |ops| && Unbroken(ops, i, |ops|)
      ensures Failures(ops, i, |ops|) <= Failures(ops, RunStart(ops, |ops|), |ops|)
    {
      LongestRun(ops, i, |ops|);
    }
  }

  class CircuitBreaker<E(==)> {
    var state: State
    var failures: nat
    var openedAt: int
    const threshold: int
    const isError: E -> bool

    function View(): Breaker
      reads this
    {
      Breaker(state, failures, openedAt, threshold)
    }

    constructor (threshold: int, isError: E -> bool)
      ensures View() == NewBreaker(threshold) && this.isError == isError
    {
      this.threshold, this.isError := threshold, isError;
      state, failures, openedAt := Closed, 0, 0;
    }

    /** Records the result of a call; open reports whether its error is to be
        wrapped, changed whether the circuit just opened. */
    method PostCheck(err: E, now: int) returns (open: bool, changed: bool)
      modifies this
      ensures View() == if isError(err) then OnFailure(old(View()), now) else OnSuccess(old(View()))
      ensures open <==> isError(err) && state == Open
      ensures changed <==> old(state) == Closed && state == Open
    {
      if !isError(err) {
        failures := 0;
        return false, false;
      }
      failures := failures + 1;
      changed := state == Closed && failures >= threshold;
      if changed {
        state, openedAt := Open, now;
      }
      open := state == Open;
    }

    method TripOn(now: int) returns (changed: bool)
      modifies this
      ensures View() == Trip(old(View()), now) && (changed <==> old(state) == Closed)
    {
      changed := state != Open;
      if changed {
        state, openedAt := Open, now;
      }
    }

    method RecoverNow() returns (changed: bool)
      modifies this
      ensures View() == Recover(old(View())) && (changed <==> old(state) == Open)
    {
      failures := 0;
      changed := state != Closed;
      if changed {
        state := Closed;
      }
    }
  }
}
