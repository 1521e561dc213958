/** The two workers that remove copies, over the locked removal of module Copies:
    which copies the over-replication cleaner takes and keeps
    (internal/worker/overreplication.go), and how a drain takes one object off a
    backend (internal/worker/drainer.go). */
module CopyWorkers {
  import opened Common
  import opened Copies

  // ---------------------------------------------------------------------
  // Scores
  // ---------------------------------------------------------------------

  /** What scoring reads of a copy's backend. */
  datatype Health = Health(acceptsWrites: bool, registered: bool, servesReads: bool, quota: Option<(nat, nat)>)

  function ScoreCopy(h: Health): real {
    if !h.acceptsWrites || !h.registered then 0.0
    else if !h.servesReads then 1.0
    else if h.quota.Some? && h.quota.value.1 > 0 then
      2.0 + (1.0 - h.quota.value.0 as real / h.quota.value.1 as real)
    else 2.5
  }

  predicate Healthy(h: Health) {
    h.acceptsWrites && h.registered && h.servesReads
  }

  function Used(h: Health): nat {
    if h.quota.Some? then h.quota.value.0 else 0
  }

  function Limit(h: Health): nat {
    if h.quota.Some? then h.quota.value.1 else 0
  }

  lemma Cancel(x: real, y: real, k: real)
    requires k > 0.0
    ensures x > y <==> x * k > y * k
  {
  }

  lemma Over(used: real, limit: real, k: real)
    requires limit > 0.0
    ensures used / limit < k <==> used < k * limit
    ensures used / limit > k <==> used > k * limit
  {
    var x := used / limit;
    assert used == x * limit;
    Cancel(x, k, limit);
    Cancel(k, x, limit);
  }

  lemma Share(used: real, limit: real)
    requires used >= 0.0 && limit > 0.0
    ensures used / limit >= 0.0
    ensures used / limit <= 1.0 <==> used <= limit
    ensures used / limit < 2.0 <==> used < 2.0 * limit
  {
    Over(used, limit, 0.0);
    Over(used, limit, 1.0);
    Over(used, limit, 2.0);
  }

  /** A healthy backend within its quota scores in [2, 3], and one over it does
      not; it outranks a backend refusing reads exactly while it holds less than
      twice its quota. */
  lemma ScoreBands(h: Health)
    requires Healthy(h)
    ensures 2.0 <= ScoreCopy(h) <= 3.0 <==> Limit(h) == 0 || Used(h) <= Limit(h)
    ensures ScoreCopy(h) > 1.0 <==> Limit(h) == 0 || Used(h) < 2 * Limit(h)
  {
    if Limit(h) > 0 {
      Share(Used(h) as real, Limit(h) as real);
    }
  }

  /** Of two healthy backends with a quota, the more utilised scores lower. */
  lemma FullerScoresLower(a: Health, b: Health)
    requires Healthy(a) && Healthy(b) && Limit(a) > 0 && Limit(b) > 0
    ensures ScoreCopy(a) < ScoreCopy(b) <==> Used(a) * Limit(b) > Used(b) * Limit(a)
  {
    var x, y := Used(a) as real / Limit(a) as real, Used(b) as real / Limit(b) as real;
    Ratio(Used(a) as real, Limit(a) as real, Used(b) as real, Limit(b) as real);
  }

  lemma Ratio(p: real, q: real, r: real, s: real)
    requires q > 0.0 && s > 0.0
    ensures p / q > r / s <==> p * s > r * q
  {
    var x, y := p / q, r / s;
    assert p == x * q && r == y * s;
    assert p * s == x * (q * s) && r * q == y * (q * s);
    Cancel(x, y, q * s);
  }

  // ---------------------------------------------------------------------
  // What a cleaning pass over one object leaves
  // ---------------------------------------------------------------------

  /** The copies after each of the first n in order is dropped, if it may be. */
  function DropFirst(copies: Copies, order: seq<Location>, n: nat, factor: int): Copies
    requires n <= |order|
  {
    if n == 0 then copies else AfterDrop(DropFirst(copies, order, n - 1, factor), order[n - 1], factor)
  }

  function First(order: seq<Location>, n: nat): set<string>
    requires n <= |order|
  {
    if n == 0 then {} else First(order, n - 1) + {order[n - 1].backend}
  }

  predicate Distinct(locs: seq<Location>) {
    forall i, j :: 0 <= i < j < |locs| ==> locs[i].backend != locs[j].backend
  }

  /** Locations that are all of an object's copies, as they are now. */
  predicate Lists(locs: seq<Location>, copies: Copies) {
    Distinct(locs) && |locs| == |copies| && forall i :: 0 <= i < |locs| ==> Current(copies, locs[i])
  }

  lemma {:induction false} FirstAt(order: seq<Location>, n: nat, j: nat)
    requires n <= |order| && j < |order| && Distinct(order)
    ensures order[j].backend in First(order, n) <==> j < n
  {
    if n > 0 {
      FirstAt(order, n - 1, j);
    }
  }

  lemma {:induction false} FirstCount(order: seq<Location>, n: nat)
    requires n <= |order| && Distinct(order)
    ensures |First(order, n)| == n
  {
    if n > 0 {
      FirstCount(order, n - 1);
      FirstAt(order, n - 1, n - 1);
    }
  }

  /** What is left once the first locations are taken out. */
  lemma RestAfter(copies: Copies, order: seq<Location>, n: nat)
    requires Lists(order, copies) && n <= |order|
    ensures First(order, n) <= copies.Keys && |copies - First(order, n)| == |copies| - n
  {
    FirstCount(order, n);
    FirstCurrent(copies, order, n);
    assert (copies - First(order, n)).Keys == copies.Keys - First(order, n);
  }

  lemma {:induction false} FirstCurrent(copies: Copies, order: seq<Location>, n: nat)
    requires Lists(order, copies) && n <= |order|
    ensures First(order, n) <= copies.Keys
  {
    if n > 0 {
      FirstCurrent(copies, order, n - 1);
    }
  }

  /** Whether some location from one index on is a copy that can be opened. */
  predicate ReadableFrom(copies: Copies, order: seq<Location>, n: nat) {
    exists j :: n <= j < |order| && order[j].backend in Readable(copies)
  }

  /** A victim that goes once others have: there are copies to spare and it is
      not the only one that can be opened. */
  predicate MayGo(copies: Copies, gone: set<string>, victim: Location, factor: int) {
    && Current(copies, victim) && victim.backend !in gone
    && |copies - gone| > factor >= 1
    && (Readable(copies) == {} || exists b :: b in Readable(copies) && b !in gone && b != victim.backend)
  }

  lemma VictimGoes(copies: Copies, gone: set<string>, victim: Location, factor: int)
    requires MayGo(copies, gone, victim, factor)
    ensures AfterDrop(copies - gone, victim, factor) == copies - (gone + {victim.backend})
  {
    var rest := copies - gone;
    if b :| b in Readable(copies) && b !in gone && b != victim.backend {
      assert b in Readable(rest);
    }
    assert victim.backend !in Readable(copies) || Readable(rest) != {victim.backend};
    assert rest - {victim.backend} == copies - (gone + {victim.backend});
  }

  lemma NextMayGo(copies: Copies, order: seq<Location>, factor: int, n: nat)
    requires Lists(order, copies) && factor >= 1 && n < |copies| - factor
    requires Readable(copies) == {} || ReadableFrom(copies, order, n + 1)
    ensures MayGo(copies, First(order, n), order[n], factor)
  {
    RestAfter(copies, order, n);
    FirstAt(order, n, n);
    if Readable(copies) != {} {
      var j :| n + 1 <= j < |order| && order[j].backend in Readable(copies);
      FirstAt(order, n, j);
    }
  }

  /** While a readable copy is still to come, or there is none, every victim goes. */
  lemma {:induction false} AllVictimsGo(copies: Copies, order: seq<Location>, factor: int, n: nat)
    requires Lists(order, copies) && factor >= 1 && n <= |copies| - factor
    requires Readable(copies) == {} || ReadableFrom(copies, order, n)
    ensures DropFirst(copies, order, n, factor) == copies - First(order, n)
  {
    if n > 0 {
      AllVictimsGo(copies, order, factor, n - 1);
      NextMayGo(copies, order, factor, n - 1);
      VictimGoes(copies, First(order, n - 1), order[n - 1], factor);
    }
  }

  lemma LastStays(copies: Copies, order: seq<Location>, factor: int, last: nat)
    requires Lists(order, copies) && factor >= 1 && last < |copies| - factor
    requires order[last].backend in Readable(copies) && !ReadableFrom(copies, order, last + 1)
    ensures DropFirst(copies, order, last + 1, factor) == copies - (First(order, last + 1) - {order[last].backend})
  {
    assert ReadableFrom(copies, order, last);
    AllVictimsGo(copies, order, factor, last);
    OnlyReadable(copies, order, last);
    RestAfter(copies, order, last);
    assert LastDecryptable(copies - First(order, last), order[last].backend);
    FirstAt(order, last, last);
    assert First(order, last + 1) - {order[last].backend} == First(order, last);
  }

  lemma KeepOne(first: set<string>, kept: string, other: string)
    requires kept != other
    ensures first + {other} - {kept} == first - {kept} + {other}
  {
  }

  /** The last copy that can be opened stays, and the victims after it go. */
  lemma {:induction false} OneVictimStays(copies: Copies, order: seq<Location>, factor: int, last: nat, n: nat)
    requires Lists(order, copies) && factor >= 1 && last < n <= |copies| - factor
    requires order[last].backend in Readable(copies) && !ReadableFrom(copies, order, last + 1)
    ensures DropFirst(copies, order, n, factor) == copies - (First(order, n) - {order[last].backend})
    decreases n
  {
    if n - 1 == last {
      LastStays(copies, order, factor, last);
    } else {
      OneVictimStays(copies, order, factor, last, n - 1);
      LaterMayGo(copies, order, factor, last, n - 1);
      LaterGoes(copies, First(order, n - 1), order[last].backend, order[n - 1], factor);
    }
  }

  lemma LaterGoes(copies: Copies, first: set<string>, kept: string, victim: Location, factor: int)
    requires MayGo(copies, first - {kept}, victim, factor) && kept != victim.backend
    ensures AfterDrop(copies - (first - {kept}), victim, factor) == copies - (first + {victim.backend} - {kept})
  {
    VictimGoes(copies, first - {kept}, victim, factor);
    KeepOne(first, kept, victim.backend);
  }

  lemma LaterMayGo(copies: Copies, order: seq<Location>, factor: int, last: nat, n: nat)
    requires Lists(order, copies) && factor >= 1 && last < n < |copies| - factor
    requires order[last].backend in Readable(copies)
    ensures MayGo(copies, First(order, n) - {order[last].backend}, order[n], factor)
  {
    var first, kept := First(order, n), order[last].backend;
    FirstAt(order, n, n);
    FirstAt(order, n, last);
    FirstCount(order, n);
    FirstCurrent(copies, order, n);
    assert (copies - (first - {kept})).Keys == copies.Keys - (first - {kept});
  }

  lemma OnlyReadable(copies: Copies, order: seq<Location>, last: nat)
    requires Lists(order, copies) && last < |order|
    requires order[last].backend in Readable(copies) && !ReadableFrom(copies, order, last + 1)
    ensures Readable(copies - First(order, last)) == {order[last].backend}
  {
    var rest := copies - First(order, last);
    forall b | b in Readable(rest)
      ensures b == order[last].backend
    {
      var j := ListedAt(copies, order, b);
      FirstAt(order, last, j);
    }
    FirstAt(order, last, last);
    assert order[last].backend in Readable(rest);
  }

  lemma ListedAt(copies: Copies, order: seq<Location>, b: string) returns (j: nat)
    requires Lists(order, copies) && b in copies
    ensures j < |order| && order[j].backend == b
  {
    AllListed(copies, order);
    j :| 0 <= j < |order| && order[j].backend == b;
  }

  lemma AllListed(copies: Copies, order: seq<Location>)
    requires Lists(order, copies)
    ensures forall b :: b in copies ==> exists j :: 0 <= j < |order| && order[j].backend == b
  {
    RestAfter(copies, order, |order|);
    assert |copies - First(order, |order|)| == 0;
    assert copies - First(order, |order|) == map[];
    FirstFromOrder(order, |order|);
  }

  lemma {:induction false} FirstFromOrder(order: seq<Location>, n: nat)
    requires n <= |order|
    ensures forall b :: b in First(order, n) ==> exists j :: 0 <= j < n && order[j].backend == b
  {
    if n > 0 {
      FirstFromOrder(order, n - 1);
    }
  }

  /** Whether every copy that can be opened is among the victims. */
  predicate Sheltered(copies: Copies, order: seq<Location>, excess: nat) {
    Readable(copies) != {} && !ReadableFrom(copies, order, excess)
  }

  /** The last of the first n locations that can be opened, if one can. */
  function Spared(copies: Copies, order: seq<Location>, n: nat): (last: nat)
    requires n <= |order|
    ensures n > 0 ==> last < n
  {
    if n == 0 then 0
    else if order[n - 1].backend in Readable(copies) then n - 1
    else Spared(copies, order, n - 1)
  }

  /** What an undisturbed pass leaves: all but the excess, and with it the victim
      spared as the last copy that can be opened. */
  function Left(copies: Copies, order: seq<Location>, excess: nat): Copies
    requires excess <= |order|
  {
    if excess > 0 && Sheltered(copies, order, excess)
    then copies - (First(order, excess) - {order[Spared(copies, order, excess)].backend})
    else copies - First(order, excess)
  }

  lemma {:induction false} SparedIsLast(copies: Copies, order: seq<Location>, n: nat)
    requires n <= |order| && (exists j :: 0 <= j < n && order[j].backend in Readable(copies))
    ensures var last := Spared(copies, order, n);
            last < n && order[last].backend in Readable(copies)
            && forall j :: last < j < n ==> order[j].backend !in Readable(copies)
  {
    if order[n - 1].backend !in Readable(copies) {
      SparedIsLast(copies, order, n - 1);
    }
  }

  lemma ShelteredSpares(copies: Copies, order: seq<Location>, excess: nat)
    requires Lists(order, copies) && excess <= |order| && Sheltered(copies, order, excess)
    ensures var last := Spared(copies, order, excess);
            last < excess && order[last].backend in Readable(copies) && !ReadableFrom(copies, order, last + 1)
  {
    AllListed(copies, order);
    var b :| b in Readable(copies);
    var j :| 0 <= j < |order| && order[j].backend == b;
    assert j < excess;
    SparedIsLast(copies, order, excess);
  }

  /** A pass nobody interferes with takes exactly the excess, leaving what comes
      after it in order, unless it would take every copy that can be opened: then
      it leaves the last of the victims that can be, and no other. */
  lemma CleanExact(copies: Copies, order: seq<Location>, excess: nat, factor: int)
    requires Lists(order, copies) && factor >= 1 && excess == |copies| - factor
    ensures DropFirst(copies, order, excess, factor) == Left(copies, order, excess)
    ensures |Left(copies, order, excess)| == factor + if Sheltered(copies, order, excess) then 1 else 0
    ensures Sheltered(copies, order, excess) ==>
              excess > 0 && Readable(Left(copies, order, excess)) == {order[Spared(copies, order, excess)].backend}
  {
    RestAfter(copies, order, excess);
    if Sheltered(copies, order, excess) {
      ShelteredSpares(copies, order, excess);
      var last := Spared(copies, order, excess);
      OneVictimStays(copies, order, factor, last, excess);
      FirstAt(order, excess, last);
      FirstCount(order, excess);
      var kept := order[last].backend;
      assert (copies - (First(order, excess) - {kept})).Keys == copies.Keys - (First(order, excess) - {kept});
      OneReadableLeft(copies, order, excess);
    } else {
      AllVictimsGo(copies, order, factor, excess);
    }
  }

  lemma OneReadableLeft(copies: Copies, order: seq<Location>, excess: nat)
    requires Lists(order, copies) && 0 < excess <= |order| && Sheltered(copies, order, excess)
    ensures Readable(Left(copies, order, excess)) == {order[Spared(copies, order, excess)].backend}
  {
    ShelteredSpares(copies, order, excess);
    AllListed(copies, order);
    var left, kept := Left(copies, order, excess), order[Spared(copies, order, excess)].backend;
    forall b | b in Readable(left)
      ensures b == kept
    {
      var j :| 0 <= j < |order| && order[j].backend == b;
      FirstAt(order, excess, j);
    }
    assert kept in Readable(left);
  }

  /** Whether every copy kept scores at least as high as every copy taken. */
  ghost predicate KeepsBest(order: seq<Location>, left: Copies, score: Location -> real) {
    forall i, j :: 0 <= i < |order| && 0 <= j < |order| && order[i].backend !in left && order[j].backend in left ==>
      score(order[i]) <= score(order[j])
  }

  /** Whether the victim spared, if one is, scores as high as the last victim. */
  predicate SparedScores(copies: Copies, order: seq<Location>, excess: nat, score: Location -> real)
    requires excess <= |order|
  {
    excess > 0 && Sheltered(copies, order, excess) ==>
      score(order[Spared(copies, order, excess)]) == score(order[excess - 1])
  }

  /** Which locations an undisturbed pass leaves. */
  lemma LeftAt(copies: Copies, order: seq<Location>, excess: nat, j: nat)
    requires Lists(order, copies) && excess <= |order| && j < |order|
    ensures order[j].backend in Left(copies, order, excess)
            <==> j >= excess || (Sheltered(copies, order, excess) && j == Spared(copies, order, excess))
  {
    FirstAt(order, excess, j);
    if Sheltered(copies, order, excess) {
      ShelteredSpares(copies, order, excess);
    }
  }

  /** An undisturbed pass keeps the best copies exactly when it takes the whole
      excess, or the copy it spares scores as high as the last victim. */
  lemma CleanKeepsBest(copies: Copies, order: seq<Location>, excess: nat, factor: int, score: Location -> real)
    requires Lists(order, copies) && factor >= 1 && excess == |copies| - factor && Ascending(order, score)
    ensures KeepsBest(order, DropFirst(copies, order, excess, factor), score)
            <==> SparedScores(copies, order, excess, score)
  {
    CleanExact(copies, order, excess, factor);
    var left := Left(copies, order, excess);
    forall j: nat | j < |order|
      ensures order[j].backend in left
              <==> j >= excess || (Sheltered(copies, order, excess) && j == Spared(copies, order, excess))
    {
      LeftAt(copies, order, excess, j);
    }
    if excess > 0 && Sheltered(copies, order, excess) {
      var last := Spared(copies, order, excess);
      assert order[last].backend in left;
      assert last < excess - 1 ==> order[excess - 1].backend !in left;
    }
  }

  /** Four copies of which only the one on a, a backend that refuses writes, still
      has its key; b refuses reads. */
  const MIXED: Copies :=
    map["a" := Copy("1", true), "b" := Copy("2", false), "c" := Copy("3", false), "d" := Copy("4", false)]

  const MIXED_ORDER := [Location("a", "1"), Location("b", "2"), Location("c", "3"), Location("d", "4")]

  function MixedScore(): Location -> real {
    (loc: Location) => if loc.backend == "a" then 0.0 else if loc.backend == "b" then 1.0 else 2.5
  }

  lemma MixedLists()
    ensures Lists(MIXED_ORDER, MIXED)
  {
    assert MIXED.Keys == {"a", "b", "c", "d"};
  }

  lemma MixedAscends()
    ensures Ascending(MIXED_ORDER, MixedScore())
  {
  }

  lemma MixedSpares()
    ensures Sheltered(MIXED, MIXED_ORDER, 2) && Spared(MIXED, MIXED_ORDER, 2) == 0
  {
    assert Readable(MIXED) == {"a"};
  }

  /** Where it does not: a pass down to two of these copies spares the one on a and
      takes the one on b, which scores higher. */
  lemma LowScorerKept()
    ensures Lists(MIXED_ORDER, MIXED) && Ascending(MIXED_ORDER, MixedScore()) && |MIXED| == 4
    ensures !KeepsBest(MIXED_ORDER, DropFirst(MIXED, MIXED_ORDER, 2, 2), MixedScore())
  {
    MixedLists();
    MixedAscends();
    MixedSpares();
    CleanKeepsBest(MIXED, MIXED_ORDER, 2, 2, MixedScore());
  }

  // ---------------------------------------------------------------------
  // The cleaner
  // ---------------------------------------------------------------------

  predicate Ascending(order: seq<Location>, score: Location -> real) {
    forall i, j :: 0 <= i < j < |order| ==> score(order[i]) <= score(order[j])
  }

  /** The place of a location among ascending ones. */
  method PlaceOf(order: seq<Location>, score: Location -> real, loc: Location) returns (p: nat)
    requires Ascending(order, score)
    ensures p <= |order|
    ensures forall i :: 0 <= i < p ==> score(order[i]) <= score(loc)
    ensures forall i :: p <= i < |order| ==> score(loc) <= score(order[i])
  {
    p := 0;
    while p < |order| && score(order[p]) <= score(loc)
      invariant p <= |order|
      invariant forall i :: 0 <= i < p ==> score(order[i]) <= score(loc)
    {
      p := p + 1;
    }
  }

  /** Sorts locations by score, lowest first. */
  method SortByScore(locs: seq<Location>, score: Location -> real) returns (order: seq<Location>)
    ensures Ascending(order, score) && multiset(order) == multiset(locs)
  {
    order := [];
    for i := 0 to |locs|
      invariant Ascending(order, score) && multiset(order) == multiset(locs[..i])
    {
      var p := PlaceOf(order, score, locs[i]);
      assert order == order[..p] + order[p..];
      assert locs[..i + 1] == locs[..i] + [locs[i]];
      order := order[..p] + [locs[i]] + order[p..];
    }
    assert locs[..|locs|] == locs;
  }

  lemma {:induction false} OncePerBackend(locs: seq<Location>, loc: Location)
    requires Distinct(locs)
    ensures multiset(locs)[loc] <= 1
  {
    if locs != [] {
      var front, last := locs[..|locs| - 1], locs[|locs| - 1];
      OncePerBackend(front, loc);
      assert locs == front + [last];
      assert loc == last ==> loc !in front;
    }
  }

  lemma TwiceCounts(order: seq<Location>, i: nat, j: nat)
    requires i < j < |order| && order[i] == order[j]
    ensures multiset(order)[order[i]] >= 2
  {
    assert order == order[..j] + order[j..];
    assert order[i] in order[..j] && order[j] in order[j..];
  }

  lemma SortedFromThem(locs: seq<Location>, order: seq<Location>)
    requires multiset(order) == multiset(locs)
    ensures forall i :: 0 <= i < |order| ==> order[i] in locs
  {
    forall i | 0 <= i < |order|
      ensures order[i] in locs
    {
      assert order[i] in multiset(order);
    }
  }

  lemma SortedStillLists(locs: seq<Location>, order: seq<Location>, copies: Copies)
    requires Lists(locs, copies) && multiset(order) == multiset(locs)
    ensures Lists(order, copies)
  {
    assert |order| == |multiset(order)|;
    SortedFromThem(locs, order);
    forall i, j | 0 <= i < j < |order|
      ensures order[i].backend != order[j].backend
    {
      if order[i].backend == order[j].backend {
        TwiceCounts(order, i, j);
        OncePerBackend(locs, order[i]);
      }
    }
  }

  class ObjectStore {
    var copies: Copies

    method DropCopy(loc: Location, keepAtLeast: int) returns (refused: Option<Refusal>)
      modifies this
      ensures refused == RemovalRefused(old(copies), loc, keepAtLeast)
      ensures copies == AfterDrop(old(copies), loc, keepAtLeast)
    {
      refused := RemovalRefused(copies, loc, keepAtLeast);
      if refused.None? {
        copies := copies - {loc.backend};
      }
    }

    method MoveObject(source: Location, target: string, path: string) returns (refused: Option<Refusal>)
      modifies this
      ensures refused == PlacementRefused(old(copies), source, target, true)
      ensures copies == AfterPlace(old(copies), source, target, path, true)
    {
      refused := PlacementRefused(copies, source, target, true);
      if refused.None? {
        var moved := Copy(path, copies[source.backend].readable);
        copies := (copies - {source.backend})[target := moved];
      }
    }
  }

  /** The locations passed are the object's copies, the excess is theirs, and the
      store carries out every removal. */
  ghost predicate Undisturbed(copies: Copies, locs: seq<Location>, excess: nat, factor: int, fails: Location -> bool) {
    && Lists(locs, copies) && excess == |copies| - factor
    && forall loc :: loc in locs ==> !fails(loc)
  }

  lemma UndisturbedLeaves(copies: Copies, locs: seq<Location>, order: seq<Location>, excess: nat, factor: int,
                          score: Location -> real)
    requires Lists(locs, copies) && multiset(order) == multiset(locs) && Ascending(order, score)
    requires factor >= 1 && excess == |copies| - factor
    ensures
      && |order| == |copies| && DropFirst(copies, order, excess, factor) == Left(copies, order, excess)
      && |Left(copies, order, excess)| == factor + (if Sheltered(copies, order, excess) then 1 else 0)
      && (KeepsBest(order, Left(copies, order, excess), score) <==> SparedScores(copies, order, excess, score))
  {
    SortedStillLists(locs, order, copies);
    CleanExact(copies, order, excess, factor);
    CleanKeepsBest(copies, order, excess, factor, score);
  }

  /** Drops the first excess victims that may go, one at a time. */
  method DropVictims(store: ObjectStore, order: seq<Location>, excess: nat, factor: int, fails: Location -> bool)
    returns (removed: nat, failures: nat)
    requires factor >= 1
    modifies store
    ensures removed == |old(store.copies)| - |store.copies| && removed + failures <= excess
    ensures |store.copies| >= Min(|old(store.copies)|, factor)
    ensures (forall i :: 0 <= i < |order| ==> !fails(order[i])) ==>
              failures == 0 && store.copies == DropFirst(old(store.copies), order, Min(excess, |order|), factor)
  {
    removed, failures := 0, 0;
    var i := 0;
    while i < excess && i < |order|
      invariant i <= excess && i <= |order|
      invariant removed == |old(store.copies)| - |store.copies| && removed + failures <= i
      invariant |store.copies| >= Min(|old(store.copies)|, factor)
      invariant (forall i :: 0 <= i < |order| ==> !fails(order[i])) ==>
                  failures == 0 && store.copies == DropFirst(old(store.copies), order, i, factor)
    {
      var victim := order[i];
      if fails(victim) {
        failures := failures + 1;
      } else {
        DropCounts(store.copies, victim, factor);
        var refused := store.DropCopy(victim, factor);
        if refused.None? {
          removed := removed + 1;
        }
      }
      i := i + 1;
    }
  }

  /** Brings one object down to factor, worst scorers first; fails says which
      removals the store cannot carry out. Undisturbed, it takes exactly the
      excess and keeps the best, but for the last copy that can be opened. */
  method CleanObject(store: ObjectStore, locs: seq<Location>, excess: nat, factor: int, score: Location -> real,
                     fails: Location -> bool)
    returns (order: seq<Location>, removed: nat, failures: nat)
    requires factor >= 1
    modifies store
    ensures Ascending(order, score) && multiset(order) == multiset(locs)
    ensures removed == |old(store.copies)| - |store.copies| && removed + failures <= excess
    ensures |store.copies| >= Min(|old(store.copies)|, factor)
    ensures (forall loc :: loc in locs ==> !fails(loc)) ==>
              failures == 0 && store.copies == DropFirst(old(store.copies), order, Min(excess, |order|), factor)
    ensures Undisturbed(old(store.copies), locs, excess, factor, fails) ==>
              && excess <= |order| && store.copies == Left(old(store.copies), order, excess)
              && removed == excess - (if Sheltered(old(store.copies), order, excess) then 1 else 0)
              && (KeepsBest(order, store.copies, score) <==> SparedScores(old(store.copies), order, excess, score))
  {
    order := SortByScore(locs, score);
    SortedFromThem(locs, order);
    removed, failures := DropVictims(store, order, excess, factor, fails);
    if Undisturbed(old(store.copies), locs, excess, factor, fails) {
      UndisturbedLeaves(old(store.copies), locs, order, excess, factor, score);
    }
  }

  // ---------------------------------------------------------------------
  // The drain
  // ---------------------------------------------------------------------

  datatype DrainResult = Succeeded | Skipped | Failed

  /** A backend other than the draining one in a lookup, if it names one. */
  method OtherCopyBackend(backends: seq<string>, src: string) returns (other: Option<string>)
    ensures other.None? <==> forall i :: 0 <= i < |backends| ==> backends[i] == src
    ensures other.Some? ==> other.value in backends && other.value != src
  {
    for i := 0 to |backends|
      invariant forall k :: 0 <= k < i ==> backends[k] == src
    {
      if backends[i] != src {
        return Some(backends[i]);
      }
    }
    return None;
  }

  /** What taking a copy off its backend promises: the object is off it, and
      still has a copy, one that can be opened if it had one. */
  predicate TakenOff(before: Copies, after: Copies, obj: Location) {
    && Current(before, obj) && obj.backend !in after && after != map[]
    && (Readable(before) != {} ==> Readable(after) != {})
  }

  lemma MoveTakesOff(copies: Copies, obj: Location, dest: string, path: string)
    requires dest != obj.backend && PlacementRefused(copies, obj, dest, true).None?
    ensures TakenOff(copies, AfterPlace(copies, obj, dest, path, true), obj)
  {
    assert dest in AfterPlace(copies, obj, dest, path, true);
    if Readable(copies) != {} {
      PlaceKeepsReadable(copies, obj, dest, path, true);
    }
  }

  lemma DropTakesOff(copies: Copies, obj: Location)
    requires RemovalRefused(copies, obj, 1).None?
    ensures TakenOff(copies, AfterDrop(copies, obj, 1), obj)
  {
    DropCounts(copies, obj, 1);
    if Readable(copies) != {} {
      DropKeepsReadable(copies, obj, 1);
    }
  }

  /** What moving an object comes to. */
  function MoveResult(copies: Copies, obj: Location, dest: Option<string>, fails: bool): DrainResult {
    if dest.None? || fails then Failed
    else if PlacementRefused(copies, obj, dest.value, true).Some? then Skipped
    else Succeeded
  }

  /** Copies an object to another backend and moves its row there; fails says that
      the transfer or the store broke down. */
  method MoveOff(store: ObjectStore, obj: Location, dest: Option<string>, path: string, fails: bool)
    returns (result: DrainResult)
    requires dest != Some(obj.backend)
    modifies store
    ensures if result == Succeeded then TakenOff(old(store.copies), store.copies, obj) && |store.copies| == |old(store.copies)|
            else store.copies == old(store.copies)
    ensures result == MoveResult(old(store.copies), obj, dest, fails)
  {
    if dest.None? || fails {
      return Failed;
    }
    ghost var before := store.copies;
    var refused := store.MoveObject(obj, dest.value, path);
    if refused.None? {
      MoveTakesOff(before, obj, dest.value, path);
      return Succeeded;
    }
    return Skipped;
  }

  /** Takes one object off the draining backend, from a lookup of its backends that
      may be stale. It is dropped where it is surplus, moved where it is not; a
      copy with the only key, a store that breaks down and a missing destination
      are failures, and a copy that changed meanwhile is skipped. */
  method DrainOne(store: ObjectStore, obj: Location, backends: seq<string>, dest: Option<string>, path: string,
                  dropFails: bool, moveFails: bool)
    returns (result: DrainResult)
    requires dest != Some(obj.backend)
    modifies store
    ensures if result == Succeeded then TakenOff(old(store.copies), store.copies, obj)
            else store.copies == old(store.copies)
    ensures |old(store.copies)| == 1 ==> |store.copies| == 1
    ensures (exists i :: 0 <= i < |backends| && backends[i] != obj.backend) ==>
              var refused := RemovalRefused(old(store.copies), obj, 1);
              && (dropFails || refused == Some(CopyHoldsOnlyDEK) ==> result == Failed)
              && (!dropFails && refused == Some(CopyChanged) ==> result == Skipped)
              && (!dropFails && refused.None? ==>
                    result == Succeeded && store.copies == old(store.copies) - {obj.backend})
              && (!dropFails && refused == Some(CopyNotExcess) ==>
                    result == MoveResult(old(store.copies), obj, dest, moveFails))
    ensures (forall i :: 0 <= i < |backends| ==> backends[i] == obj.backend) ==>
              result == MoveResult(old(store.copies), obj, dest, moveFails)
  {
    var other := OtherCopyBackend(backends, obj.backend);
    if other.Some? {
      if dropFails {
        return Failed;
      }
      ghost var before := store.copies;
      var refused := store.DropCopy(obj, 1);
      if refused.None? {
        DropTakesOff(before, obj);
        return Succeeded;
      }
      if refused == Some(CopyHoldsOnlyDEK) {
        return Failed;
      }
      if refused != Some(CopyNotExcess) {
        return Skipped;
      }
    }
    result := MoveOff(store, obj, dest, path, moveFails);
  }
}
