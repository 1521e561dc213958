/** Folding stored buckets and grants in beside what config declares:
    internal/provisioning/view.go. A permission set is a set of permission bits. */
module Provisioning {
  import opened Common

  datatype Kind = BucketKind | BackendKind | OrchestratorKind

  datatype Resource = Resource(kind: Kind, name: string)

  type Permissions = set<nat>

  datatype Grant = Grant(user: string, resource: Resource, permissions: Permissions)

  const RESOURCE_WILDCARD := "*"

  type Reach = map<string, map<string, Permissions>>

  // ---------------------------------------------------------------------
  // What a user holds
  // ---------------------------------------------------------------------

  predicate Wildcard(g: Grant) {
    g.resource.kind == BucketKind && g.resource.name == RESOURCE_WILDCARD
  }

  predicate Named(g: Grant) {
    g.resource.kind == BucketKind && g.resource.name != RESOURCE_WILDCARD
  }

  function WildcardOf(user: string): Grant -> bool {
    (g: Grant) => Wildcard(g) && g.user == user
  }

  function NamedOf(user: string, bucket: string): Grant -> bool {
    (g: Grant) => Named(g) && g.user == user && g.resource.name == bucket
  }

  function AdminOf(user: string, resource: Resource): Grant -> bool {
    (g: Grant) => g.resource.kind != BucketKind && g.user == user && g.resource == resource
  }

  function Or(held: Option<Permissions>): Permissions {
    if held.Some? then held.value else {}
  }

  /** The union of the selected grants' permissions, none if no grant is selected. */
  function Union(grants: seq<Grant>, select: Grant -> bool): Option<Permissions> {
    if grants == [] then None
    else
      var front, last := Union(grants[..|grants| - 1], select), grants[|grants| - 1];
      if !select(last) then front
      else Some(Or(front) + last.permissions)
  }

  /** What the merged grants say a user may do with a bucket: nothing on a bucket
      nobody declares; otherwise what the grants naming it say, if there are any,
      else what the wildcards say. */
  function Granted(grants: seq<Grant>, declared: set<string>, user: string, bucket: string): Option<Permissions> {
    if bucket !in declared then None
    else
      var named := Union(grants, NamedOf(user, bucket));
      if named.Some? then named else Union(grants, WildcardOf(user))
  }

  /** The buckets of the grants that name one nobody declares, in order. */
  function Dangling(grants: seq<Grant>, declared: set<string>): seq<string> {
    if grants == [] then []
    else
      var front, last := Dangling(grants[..|grants| - 1], declared), grants[|grants| - 1];
      if Named(last) && last.resource.name !in declared then front + [last.resource.name] else front
  }

  lemma {:induction false} UnionMembers(grants: seq<Grant>, select: Grant -> bool)
    ensures Union(grants, select).Some? <==> exists g :: g in grants && select(g)
    ensures forall p ::
              Union(grants, select).Some? && p in Union(grants, select).value
              <==> exists g :: g in grants && select(g) && p in g.permissions
  {
    if grants != [] {
      var front, last := grants[..|grants| - 1], grants[|grants| - 1];
      UnionMembers(front, select);
      assert grants == front + [last];
      assert last in grants;
    }
  }

  lemma UnionByMembers(a: seq<Grant>, b: seq<Grant>, select: Grant -> bool)
    requires forall g :: g in a <==> g in b
    ensures Union(a, select) == Union(b, select)
  {
    UnionMembers(a, select);
    UnionMembers(b, select);
    if Union(a, select).Some? {
      assert Union(a, select).value == Union(b, select).value;
    }
  }

  // ---------------------------------------------------------------------
  // The loops
  // ---------------------------------------------------------------------

  function At(reach: Reach, user: string, bucket: string): Option<Permissions> {
    if user in reach then Find(reach[user], bucket) else None
  }

  function Held(m: map<string, Permissions>, k: string): Permissions {
    Or(Find(m, k))
  }

  lemma UnionNext(grants: seq<Grant>, i: nat, select: Grant -> bool)
    requires i < |grants|
    ensures Union(grants[..i + 1], select)
         == var front := Union(grants[..i], select);
            if select(grants[i]) then Some(Or(front) + grants[i].permissions) else front
  {
    assert grants[..i + 1][..i] == grants[..i];
  }

  /** What the wildcards alone give. */
  function Wild(grants: seq<Grant>, declared: set<string>, user: string, bucket: string): Option<Permissions> {
    if bucket in declared then Union(grants, WildcardOf(user)) else None
  }

  /** Adds one grant's permissions to every declared bucket of a user. */
  method Spread(buckets: map<string, Permissions>, declared: set<string>, permissions: Permissions)
    returns (spread: map<string, Permissions>)
    ensures forall b :: Find(spread, b) == if b in declared then Some(Held(buckets, b) + permissions) else Find(buckets, b)
  {
    spread := buckets;
    var rest := declared;
    while rest != {}
      invariant rest <= declared
      invariant forall b :: Find(spread, b)
                         == if b in declared - rest then Some(Held(buckets, b) + permissions) else Find(buckets, b)
      decreases rest
    {
      var bucket :| bucket in rest;
      spread := spread[bucket := Held(spread, bucket) + permissions];
      rest := rest - {bucket};
    }
  }

  /** A user's wildcards, united and copied to all the buckets there are. */
  method ExpandWildcardGrants(grants: seq<Grant>, declared: set<string>)
    returns (reach: Reach, wildcard: map<string, Permissions>)
    ensures forall u, b :: At(reach, u, b) == Wild(grants, declared, u, b)
    ensures forall u :: Find(wildcard, u) == Union(grants, WildcardOf(u))
  {
    reach, wildcard := map[], map[];
    for i := 0 to |grants|
      invariant forall u, b :: At(reach, u, b) == Wild(grants[..i], declared, u, b)
      invariant forall u :: Find(wildcard, u) == Union(grants[..i], WildcardOf(u))
    {
      var g := grants[i];
      forall u
        ensures Union(grants[..i + 1], WildcardOf(u))
             == var front := Union(grants[..i], WildcardOf(u));
                if Wildcard(g) && g.user == u then Some(Or(front) + g.permissions) else front
      {
        UnionNext(grants, i, WildcardOf(u));
      }
      if Wildcard(g) {
        wildcard := wildcard[g.user := Held(wildcard, g.user) + g.permissions];
        var spread := Spread(if g.user in reach then reach[g.user] else map[], declared, g.permissions);
        var next := reach[g.user := spread];
        forall u, b
          ensures At(next, u, b) == Wild(grants[..i + 1], declared, u, b)
        {
          assert At(reach, u, b) == Wild(grants[..i], declared, u, b);
        }
        reach := next;
      }
    }
    assert grants[..|grants|] == grants;
  }

  /** What the named grants so far leave of what was there before. */
  function Narrowed(grants: seq<Grant>, declared: set<string>, before: Reach, user: string, bucket: string)
    : Option<Permissions>
  {
    var named := Union(grants, NamedOf(user, bucket));
    if bucket in declared && named.Some? then named else At(before, user, bucket)
  }

  /** A user's named grants displace what a wildcard gave that bucket; a name with
      no bucket behind it only draws a notice. */
  method ApplyNamedGrants(grants: seq<Grant>, declared: set<string>, before: Reach)
    returns (reach: Reach, notices: seq<string>)
    ensures forall u, b :: At(reach, u, b) == Narrowed(grants, declared, before, u, b)
    ensures notices == Dangling(grants, declared)
  {
    reach, notices := before, [];
    var named: set<(string, string)> := {};
    for i := 0 to |grants|
      invariant forall u, b :: At(reach, u, b) == Narrowed(grants[..i], declared, before, u, b)
      invariant forall u, b :: (u, b) in named <==> b in declared && Union(grants[..i], NamedOf(u, b)).Some?
      invariant notices == Dangling(grants[..i], declared)
    {
      var g := grants[i];
      var bucket := g.resource.name;
      assert grants[..i + 1][..i] == grants[..i];
      forall u, b
        ensures Union(grants[..i + 1], NamedOf(u, b))
             == var front := Union(grants[..i], NamedOf(u, b));
                if Named(g) && g.user == u && bucket == b then Some(Or(front) + g.permissions) else front
      {
        UnionNext(grants, i, NamedOf(u, b));
      }
      if !Named(g) {
      } else if bucket !in declared {
        notices := notices + [bucket];
      } else {
        var buckets := if g.user in reach then reach[g.user] else map[];
        var held := if (g.user, bucket) in named then Held(buckets, bucket) else {};
        var next := reach[g.user := buckets[bucket := held + g.permissions]];
        forall u, b
          ensures At(next, u, b) == Narrowed(grants[..i + 1], declared, before, u, b)
        {
          assert At(reach, u, b) == Narrowed(grants[..i], declared, before, u, b);
        }
        named := named + {(g.user, bucket)};
        reach := next;
      }
    }
    assert grants[..|grants|] == grants;
  }

  /** Indexes each user's bucket grants: the merged grants are exactly what the
      rows say, and each grant naming an undeclared bucket gives one notice. */
  method GrantsByUser(grants: seq<Grant>, declared: set<string>)
    returns (reach: Reach, wildcard: map<string, Permissions>, notices: seq<string>)
    ensures forall u, b :: At(reach, u, b) == Granted(grants, declared, u, b)
    ensures forall u :: Find(wildcard, u) == Union(grants, WildcardOf(u))
    ensures notices == Dangling(grants, declared)
  {
    var expanded;
    expanded, wildcard := ExpandWildcardGrants(grants, declared);
    reach, notices := ApplyNamedGrants(grants, declared, expanded);
    forall u, b
      ensures At(reach, u, b) == Granted(grants, declared, u, b)
    {
      assert At(expanded, u, b) == Wild(grants, declared, u, b);
    }
  }

  function AdminAt(admin: map<string, map<Resource, Permissions>>, user: string, resource: Resource): Option<Permissions> {
    if user in admin then Find(admin[user], resource) else None
  }

  /** Per user and resource, the permissions of all their admin grants together. */
  method AdminGrantsByUser(grants: seq<Grant>) returns (admin: map<string, map<Resource, Permissions>>)
    ensures forall u, r :: AdminAt(admin, u, r) == Union(grants, AdminOf(u, r))
  {
    admin := map[];
    for i := 0 to |grants|
      invariant forall u, r :: AdminAt(admin, u, r) == Union(grants[..i], AdminOf(u, r))
    {
      var g := grants[i];
      forall u, r
        ensures Union(grants[..i + 1], AdminOf(u, r))
             == var front := Union(grants[..i], AdminOf(u, r));
                if g.resource.kind != BucketKind && g.user == u && g.resource == r
                then Some(Or(front) + g.permissions) else front
      {
        UnionNext(grants, i, AdminOf(u, r));
      }
      if g.resource.kind != BucketKind {
        var held := if g.user in admin then admin[g.user] else map[];
        var next := admin[g.user := held[g.resource := Or(Find(held, g.resource)) + g.permissions]];
        forall u, r
          ensures AdminAt(next, u, r) == Union(grants[..i + 1], AdminOf(u, r))
        {
          assert AdminAt(admin, u, r) == Union(grants[..i], AdminOf(u, r));
        }
        admin := next;
      }
    }
    assert grants[..|grants|] == grants;
  }

  // ---------------------------------------------------------------------
  // Row order
  // ---------------------------------------------------------------------

  lemma {:induction false} DanglingAppend(a: seq<Grant>, b: seq<Grant>, declared: set<string>)
    ensures Dangling(a + b, declared) == Dangling(a, declared) + Dangling(b, declared)
  {
    if b == [] {
      assert a + b == a;
    } else {
      var front := b[..|b| - 1];
      DanglingAppend(a, front, declared);
      assert (a + b)[..|a + b| - 1] == a + front;
    }
  }

  lemma DanglingMoves(before: seq<Grant>, g: Grant, after: seq<Grant>, declared: set<string>)
    ensures multiset(Dangling(before + ([g] + after), declared))
         == multiset(Dangling(before + after, declared)) + multiset(Dangling([g], declared))
  {
    DanglingAppend(before, [g] + after, declared);
    DanglingAppend([g], after, declared);
    DanglingAppend(before, after, declared);
  }

  lemma TakeOut(b: seq<Grant>, j: nat)
    requires j < |b|
    ensures b == b[..j] + ([b[j]] + b[j + 1..])
    ensures multiset(b) == multiset(b[..j] + b[j + 1..]) + multiset{b[j]}
  {
    assert b == b[..j] + ([b[j]] + b[j + 1..]);
  }

  lemma SameRest(a: seq<Grant>, b: seq<Grant>, j: nat)
    requires multiset(a) == multiset(b) && a != [] && j < |b| && b[j] == a[0]
    ensures multiset(a[1..]) == multiset(b[..j] + b[j + 1..])
  {
    TakeOut(b, j);
    assert a == [a[0]] + a[1..];
    assert multiset(a[1..]) == multiset(a) - multiset{a[0]};
  }

  lemma {:induction false} DanglingReorders(a: seq<Grant>, b: seq<Grant>, declared: set<string>)
    requires multiset(a) == multiset(b)
    ensures multiset(Dangling(a, declared)) == multiset(Dangling(b, declared))
    decreases |a|
  {
    if a == [] {
      assert |multiset(b)| == 0;
      assert b == [];
    } else {
      assert a[0] in multiset(b);
      var j :| 0 <= j < |b| && b[j] == a[0];
      SameRest(a, b, j);
      DanglingReorders(a[1..], b[..j] + b[j + 1..], declared);
      TakeOut(b, j);
      DanglingMoves(b[..j], b[j], b[j + 1..], declared);
      DanglingAppend([a[0]], a[1..], declared);
      assert a == [a[0]] + a[1..];
    }
  }

  /** The merge does not depend on the order of the grant rows. */
  lemma OrderDoesNotMatter(a: seq<Grant>, b: seq<Grant>, declared: set<string>, user: string, bucket: string, r: Resource)
    requires multiset(a) == multiset(b)
    ensures Granted(a, declared, user, bucket) == Granted(b, declared, user, bucket)
    ensures Union(a, WildcardOf(user)) == Union(b, WildcardOf(user))
    ensures Union(a, AdminOf(user, r)) == Union(b, AdminOf(user, r))
    ensures multiset(Dangling(a, declared)) == multiset(Dangling(b, declared))
  {
    assert forall g :: g in a <==> g in multiset(a);
    assert forall g :: g in b <==> g in multiset(b);
    UnionByMembers(a, b, NamedOf(user, bucket));
    UnionByMembers(a, b, WildcardOf(user));
    UnionByMembers(a, b, AdminOf(user, r));
    DanglingReorders(a, b, declared);
  }

  /** A permission is granted on a declared bucket exactly when a grant naming it
      carries it, or no grant names it and a wildcard does. */
  lemma GrantedMeans(grants: seq<Grant>, declared: set<string>, user: string, bucket: string, p: nat)
    ensures
      var granted := Granted(grants, declared, user, bucket);
      granted.Some? && p in granted.value
      <==>
      && bucket in declared
      && if exists g :: g in grants && NamedOf(user, bucket)(g)
         then exists g :: g in grants && NamedOf(user, bucket)(g) && p in g.permissions
         else exists g :: g in grants && WildcardOf(user)(g) && p in g.permissions
  {
    UnionMembers(grants, NamedOf(user, bucket));
    UnionMembers(grants, WildcardOf(user));
  }

  // ---------------------------------------------------------------------
  // Buckets
  // ---------------------------------------------------------------------

  datatype Source = FromConfig | FromStore

  datatype Bucket = Bucket(name: string, maxUploads: int)

  function Names(buckets: seq<Bucket>): set<string> {
    set i | 0 <= i < |buckets| :: buckets[i].name
  }

  /** Whether a stored bucket is served: neither config nor an earlier row has
      its name. */
  predicate Serves(config: seq<Bucket>, stored: seq<Bucket>, i: nat) {
    i < |stored| && stored[i].name !in Names(config) + Names(stored[..i])
  }

  /** The first n rows that are chosen, in order. */
  function Chosen(rows: seq<Bucket>, n: nat, choose: nat -> bool): seq<Bucket>
    requires n <= |rows|
  {
    if n == 0 then []
    else if choose(n - 1) then Chosen(rows, n - 1, choose) + [rows[n - 1]]
    else Chosen(rows, n - 1, choose)
  }

  function Serving(config: seq<Bucket>, stored: seq<Bucket>): nat -> bool {
    (i: nat) => Serves(config, stored, i)
  }

  function Shadowing(config: seq<Bucket>, stored: seq<Bucket>): nat -> bool {
    (i: nat) => !Serves(config, stored, i)
  }

  function Served(config: seq<Bucket>, stored: seq<Bucket>): seq<Bucket> {
    Chosen(stored, |stored|, Serving(config, stored))
  }

  function Shadowed(config: seq<Bucket>, stored: seq<Bucket>): seq<Bucket> {
    Chosen(stored, |stored|, Shadowing(config, stored))
  }

  lemma NamesSnoc(buckets: seq<Bucket>, i: nat)
    requires i < |buckets|
    ensures Names(buckets[..i + 1]) == Names(buckets[..i]) + {buckets[i].name}
  {
    var more := buckets[..i + 1];
    forall b | b in Names(more)
      ensures b in Names(buckets[..i]) + {buckets[i].name}
    {
      var k :| 0 <= k < |more| && more[k].name == b;
      assert k < i ==> buckets[..i][k].name == b;
    }
    forall b | b in Names(buckets[..i]) + {buckets[i].name}
      ensures b in Names(more)
    {
      if b == buckets[i].name {
        assert more[i].name == b;
      } else {
        var k :| 0 <= k < i && buckets[..i][k].name == b;
        assert more[k].name == b;
      }
    }
  }

  function Tagged(buckets: seq<Bucket>, source: Source): seq<(Bucket, Source)> {
    seq(|buckets|, i requires 0 <= i < |buckets| => (buckets[i], source))
  }

  lemma TaggedSnoc(buckets: seq<Bucket>, b: Bucket, source: Source)
    ensures Tagged(buckets + [b], source) == Tagged(buckets, source) + [(b, source)]
  {
  }

  /** Appends config's buckets and the names they declare. */
  method ConfigBuckets(config: seq<Bucket>) returns (buckets: seq<(Bucket, Source)>, declared: set<string>)
    ensures buckets == Tagged(config, FromConfig) && declared == Names(config)
  {
    buckets, declared := [], {};
    for i := 0 to |config|
      invariant buckets == Tagged(config[..i], FromConfig) && declared == Names(config[..i])
    {
      NamesSnoc(config, i);
      assert config[..i + 1] == config[..i] + [config[i]];
      TaggedSnoc(config[..i], config[i], FromConfig);
      declared := declared + {config[i].name};
      buckets := buckets + [(config[i], FromConfig)];
    }
    assert config[..|config|] == config;
  }

  function NamesInOrder(buckets: seq<Bucket>): seq<string> {
    seq(|buckets|, i requires 0 <= i < |buckets| => buckets[i].name)
  }

  /** Config's buckets and then the stored ones; a stored bucket under a name already
      used is left out, with a notice. */
  method MergeBuckets(config: seq<Bucket>, stored: seq<Bucket>)
    returns (buckets: seq<(Bucket, Source)>, shadowed: seq<Bucket>, declared: set<string>, notices: seq<string>)
    ensures declared == Names(config) + Names(stored)
    ensures buckets == Tagged(config, FromConfig) + Tagged(Served(config, stored), FromStore)
    ensures shadowed == Shadowed(config, stored) && notices == NamesInOrder(shadowed)
  {
    buckets, declared := ConfigBuckets(config);
    shadowed, notices := [], [];
    for i := 0 to |stored|
      invariant declared == Names(config) + Names(stored[..i])
      invariant buckets == Tagged(config, FromConfig) + Tagged(Chosen(stored, i, Serving(config, stored)), FromStore)
      invariant shadowed == Chosen(stored, i, Shadowing(config, stored)) && notices == NamesInOrder(shadowed)
    {
      NamesSnoc(stored, i);
      if stored[i].name in declared {
        notices := notices + [stored[i].name];
        shadowed := shadowed + [stored[i]];
      } else {
        TaggedSnoc(Chosen(stored, i, Serving(config, stored)), stored[i], FromStore);
        declared := declared + {stored[i].name};
        buckets := buckets + [(stored[i], FromStore)];
      }
    }
    assert stored[..|stored|] == stored;
  }

  /** How many of the first n rows are chosen and equal to one. */
  function Count(rows: seq<Bucket>, n: nat, choose: nat -> bool, x: Bucket): nat
    requires n <= |rows|
  {
    if n == 0 then 0 else Count(rows, n - 1, choose, x) + if choose(n - 1) && rows[n - 1] == x then 1 else 0
  }

  lemma OneMore(rows: seq<Bucket>, b: Bucket, x: Bucket)
    ensures multiset(rows + [b])[x] == multiset(rows)[x] + if b == x then 1 else 0
  {
  }

  lemma {:induction false} CountIs(rows: seq<Bucket>, n: nat, choose: nat -> bool, x: Bucket)
    requires n <= |rows|
    ensures Count(rows, n, choose, x) == multiset(Chosen(rows, n, choose))[x]
  {
    if n > 0 {
      CountIs(rows, n - 1, choose, x);
      OneMore(Chosen(rows, n - 1, choose), rows[n - 1], x);
    }
  }

  lemma {:induction false} CountsAddUp(rows: seq<Bucket>, n: nat, choose: nat -> bool, other: nat -> bool, all: nat -> bool,
                                       x: Bucket)
    requires n <= |rows| && forall i: nat :: i < n ==> all(i) && other(i) == !choose(i)
    ensures Count(rows, n, choose, x) + Count(rows, n, other, x) == Count(rows, n, all, x)
  {
    if n > 0 {
      CountsAddUp(rows, n - 1, choose, other, all, x);
    }
  }

  lemma {:induction false} ChosenAll(rows: seq<Bucket>, n: nat, all: nat -> bool)
    requires n <= |rows| && forall i: nat :: i < n ==> all(i)
    ensures Chosen(rows, n, all) == rows[..n]
  {
    if n > 0 {
      ChosenAll(rows, n - 1, all);
    }
  }

  /** The stored buckets split exactly into served and shadowed ones. */
  lemma SplitIsExact(config: seq<Bucket>, stored: seq<Bucket>)
    ensures multiset(Served(config, stored)) + multiset(Shadowed(config, stored)) == multiset(stored)
  {
    var n, all := |stored|, (_: nat) => true;
    ChosenAll(stored, n, all);
    assert stored[..n] == stored;
    var both := multiset(Served(config, stored)) + multiset(Shadowed(config, stored));
    forall x: Bucket
      ensures both[x] == multiset(stored)[x]
    {
      CountsAddUp(stored, n, Serving(config, stored), Shadowing(config, stored), all, x);
      CountIs(stored, n, Serving(config, stored), x);
      CountIs(stored, n, Shadowing(config, stored), x);
      CountIs(stored, n, all, x);
    }
  }

  /** With the store's names distinct, as its key makes them, the served are those
      whose name config does not have. */
  lemma ServedByConfig(config: seq<Bucket>, stored: seq<Bucket>, i: nat)
    requires i < |stored|
    requires forall j, k :: 0 <= j < k < |stored| ==> stored[j].name != stored[k].name
    ensures Serves(config, stored, i) <==> stored[i].name !in Names(config)
  {
  }

  // ---------------------------------------------------------------------
  // Stored users
  // ---------------------------------------------------------------------

  datatype User = User(id: string, grants: map<string, Permissions>, allBuckets: Permissions,
                       admin: map<Resource, Permissions>)

  datatype Credential = Credential(accessKey: string, user: string, disabled: bool)

  /** A user of the merged view holds exactly what the grant rows give it. */
  ghost predicate HoldsGrants(u: User, grants: seq<Grant>, declared: set<string>) {
    && (forall b :: Find(u.grants, b) == Granted(grants, declared, u.id, b))
    && u.allBuckets == Or(Union(grants, WildcardOf(u.id)))
    && (forall r :: Find(u.admin, r) == Union(grants, AdminOf(u.id, r)))
  }

  /** The enabled credentials of known users, in order. */
  function Proving(credentials: seq<Credential>, users: seq<string>): seq<Credential> {
    if credentials == [] then []
    else
      var front, last := Proving(credentials[..|credentials| - 1], users), credentials[|credentials| - 1];
      if !last.disabled && last.user in users then front + [last] else front
  }

  /** Appends the store's users with what they reach, and the credentials that
      prove them. */
  method MergeStoredUsers(ids: seq<string>, credentials: seq<Credential>, grants: seq<Grant>, declared: set<string>)
    returns (users: seq<User>, proofs: seq<Credential>, notices: seq<string>)
    ensures |users| == |ids|
    ensures forall i :: 0 <= i < |ids| ==> users[i].id == ids[i] && HoldsGrants(users[i], grants, declared)
    ensures proofs == Proving(credentials, ids) && notices == Dangling(grants, declared)
  {
    var reach, wildcard;
    reach, wildcard, notices := GrantsByUser(grants, declared);
    var admin := AdminGrantsByUser(grants);
    users, proofs := [], [];
    for i := 0 to |ids|
      invariant |users| == i
      invariant forall k :: 0 <= k < i ==> users[k].id == ids[k] && HoldsGrants(users[k], grants, declared)
    {
      var id := ids[i];
      var user := User(id, if id in reach then reach[id] else map[], Held(wildcard, id),
                       if id in admin then admin[id] else map[]);
      forall b
        ensures Find(user.grants, b) == Granted(grants, declared, id, b)
      {
        assert At(reach, id, b) == Granted(grants, declared, id, b);
      }
      forall r
        ensures Find(user.admin, r) == Union(grants, AdminOf(id, r))
      {
        assert AdminAt(admin, id, r) == Union(grants, AdminOf(id, r));
      }
      users := users + [user];
    }
    for i := 0 to |credentials|
      invariant proofs == Proving(credentials[..i], ids)
    {
      assert credentials[..i + 1][..i] == credentials[..i];
      if !credentials[i].disabled && credentials[i].user in ids {
        proofs := proofs + [credentials[i]];
      }
    }
    assert credentials[..|credentials|] == credentials;
  }
}
