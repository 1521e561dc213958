/** The size-bounded LRU object cache of internal/cache/memory.go, with the keys an
    invalidation matches from internal/internalkey/internalkey.go. The list of
    entries, most recently used first, is the cache's value; what it promises is
    stated against the history of operations alone. */
module Cache {
  import opened Common

  // ---------------------------------------------------------------------
  // Keys
  // ---------------------------------------------------------------------

  const WRITE_SEPARATOR := "!"

  const WRITE_ID_LENGTH := 32

  predicate LowerHex(c: char) {
    '0' <= c <= '9' || 'a' <= c <= 'f'
  }

  predicate WriteId(id: string) {
    |id| == WRITE_ID_LENGTH && forall i :: 0 <= i < |id| ==> LowerHex(id[i])
  }

  /** Where one write of an object stores its bytes. */
  function StorageKey(objectKey: string, id: string): string {
    objectKey + WRITE_SEPARATOR + id
  }

  /** A path that holds bytes of an object: its key, or the path of one write. */
  ghost predicate CopyOf(objectKey: string, path: string) {
    path == objectKey || exists id :: WriteId(id) && path == StorageKey(objectKey, id)
  }

  predicate IsCopyOf(objectKey: string, path: string) {
    var prefix := objectKey + WRITE_SEPARATOR;
    path == objectKey || (prefix <= path && WriteId(path[|prefix|..]))
  }

  lemma IsCopyOfExact(objectKey: string, path: string)
    ensures IsCopyOf(objectKey, path) <==> CopyOf(objectKey, path)
  {
    var n := |objectKey| + 1;
    if path != objectKey && IsCopyOf(objectKey, path) {
      assert path == StorageKey(objectKey, path[n..]);
    }
    if path != objectKey && CopyOf(objectKey, path) {
      var id :| WriteId(id) && path == StorageKey(objectKey, id);
      assert path[n..] == id;
    }
  }

  /** The scan that decides whether a path is a copy. */
  method ScanCopyOf(objectKey: string, path: string) returns (yes: bool)
    ensures yes <==> CopyOf(objectKey, path)
  {
    IsCopyOfExact(objectKey, path);
    if path == objectKey {
      return true;
    }
    var prefix := objectKey + WRITE_SEPARATOR;
    if !(prefix <= path) || |path| - |prefix| != WRITE_ID_LENGTH {
      return false;
    }
    var id := path[|prefix|..];
    for i := 0 to |id|
      invariant forall k :: 0 <= k < i ==> LowerHex(id[k])
    {
      if !LowerHex(id[i]) {
        return false;
      }
    }
    return true;
  }

  /** A write's path belongs to the object that wrote it and to no other, except
      an object whose own key is that very path. */
  lemma CopiesApart(objectKey: string, id: string, other: string)
    requires WriteId(id)
    ensures CopyOf(other, StorageKey(objectKey, id))
            <==> other == objectKey || other == StorageKey(objectKey, id)
  {
    var path := StorageKey(objectKey, id);
    if CopyOf(other, path) && path != other {
      var own :| WriteId(own) && path == StorageKey(other, own);
      assert path[..|path| - 33] == objectKey && path[..|path| - 33] == other;
    }
  }

  /** What to drop: everything, one key's entries, or those under a prefix. */
  datatype Invalidation = Invalidation(all: bool, key: string, prefix: string)

  predicate Matches(inv: Invalidation, k: string) {
    if inv.all then true
    else if inv.key != "" then IsCopyOf(inv.key, k)
    else inv.prefix != "" && inv.prefix <= k
  }

  function Unmatched(inv: Invalidation): string -> bool {
    k => !Matches(inv, k)
  }

  // ---------------------------------------------------------------------
  // The list of entries
  // ---------------------------------------------------------------------

  datatype Slot<E> = Slot(key: string, entry: E, size: nat, expiresAt: int)

  function Total<E>(order: seq<Slot<E>>): nat {
    if order == [] then 0 else order[0].size + Total(order[1..])
  }

  function Filter<E>(order: seq<Slot<E>>, keep: string -> bool): seq<Slot<E>> {
    if order == [] then []
    else
      var rest := Filter(order[1..], keep);
      if keep(order[0].key) then [order[0]] + rest else rest
  }

  function NotIn(keys: set<string>): string -> bool {
    k => k !in keys
  }

  function Except(matching: string -> bool): string -> bool {
    k => !matching(k)
  }

  /** The most recent entries that fit in room, dropping from the back. */
  function Fitting<E>(order: seq<Slot<E>>, room: int): (kept: seq<Slot<E>>)
    ensures kept <= order && |kept| <= |order|
  {
    if order == [] || Total(order) <= room then order else Fitting(order[..|order| - 1], room)
  }

  predicate Unique<E>(order: seq<Slot<E>>) {
    forall i, j :: 0 <= i < j < |order| ==> order[i].key != order[j].key
  }

  lemma {:induction false} TotalAppend<E>(a: seq<Slot<E>>, b: seq<Slot<E>>)
    ensures Total(a + b) == Total(a) + Total(b)
  {
    if a == [] {
      assert a + b == b;
    } else {
      TotalAppend(a[1..], b);
      assert (a + b)[1..] == a[1..] + b;
    }
  }

  lemma {:induction false} FilterMembers<E>(order: seq<Slot<E>>, keep: string -> bool)
    ensures var kept := Filter(order, keep); forall i :: 0 <= i < |kept| ==> kept[i] in order && keep(kept[i].key)
    ensures Total(Filter(order, keep)) <= Total(order)
  {
    if order != [] {
      FilterMembers(order[1..], keep);
    }
  }

  predicate Free<E>(order: seq<Slot<E>>, key: string) {
    forall i :: 0 <= i < |order| ==> order[i].key != key
  }

  lemma UniqueCons<E>(slot: Slot<E>, rest: seq<Slot<E>>)
    requires Unique(rest) && Free(rest, slot.key)
    ensures Unique([slot] + rest)
  {
  }

  lemma {:induction false} FilterUnique<E>(order: seq<Slot<E>>, keep: string -> bool)
    requires Unique(order)
    ensures Unique(Filter(order, keep))
  {
    if order != [] {
      var rest := Filter(order[1..], keep);
      FilterUnique(order[1..], keep);
      FilterMembers(order[1..], keep);
      forall i | 0 <= i < |rest|
        ensures rest[i].key != order[0].key
      {
        var j :| 0 <= j < |order[1..]| && order[1..][j] == rest[i];
      }
      UniqueCons(order[0], rest);
    }
  }

  lemma FilterFree<E>(order: seq<Slot<E>>, key: string)
    ensures Free(Filter(order, NotIn({key})), key)
  {
    FilterMembers(order, NotIn({key}));
  }

  lemma {:induction false} FilterTwice<E>(order: seq<Slot<E>>, a: set<string>, b: set<string>)
    ensures Filter(Filter(order, NotIn(a)), NotIn(b)) == Filter(order, NotIn(a + b))
  {
    if order != [] {
      FilterTwice(order[1..], a, b);
      var rest := Filter(order[1..], NotIn(a));
      assert ([order[0]] + rest)[1..] == rest;
    }
  }

  lemma {:induction false} FilterAgrees<E>(order: seq<Slot<E>>, f: string -> bool, g: string -> bool)
    requires forall i :: 0 <= i < |order| ==> f(order[i].key) == g(order[i].key)
    ensures Filter(order, f) == Filter(order, g)
  {
    if order != [] {
      FilterAgrees(order[1..], f, g);
    }
  }

  lemma {:induction false} FilterAll<E>(order: seq<Slot<E>>, keep: string -> bool)
    requires forall i :: 0 <= i < |order| ==> keep(order[i].key)
    ensures Filter(order, keep) == order
  {
    if order != [] {
      FilterAll(order[1..], keep);
    }
  }

  lemma {:induction false} FilterNone<E>(order: seq<Slot<E>>, keep: string -> bool)
    requires forall i :: 0 <= i < |order| ==> !keep(order[i].key)
    ensures Filter(order, keep) == []
  {
    if order != [] {
      FilterNone(order[1..], keep);
    }
  }

  lemma {:induction false} FilterOut<E>(order: seq<Slot<E>>, i: nat)
    requires i < |order| && Unique(order)
    ensures Filter(order, NotIn({order[i].key})) == order[..i] + order[i + 1..]
  {
    if i == 0 {
      FilterAll(order[1..], NotIn({order[0].key}));
    } else {
      var tail := order[1..];
      FilterOut(tail, i - 1);
      assert [order[0]] + (tail[..i - 1] + tail[i..]) == order[..i] + order[i + 1..];
    }
  }

  lemma {:induction false} TotalGap<E>(order: seq<Slot<E>>, i: nat)
    requires i < |order|
    ensures Total(order[..i] + order[i + 1..]) == Total(order) - order[i].size
  {
    if i == 0 {
      assert order[..0] + order[1..] == order[1..];
    } else {
      TotalGap(order[1..], i - 1);
      assert (order[..i] + order[i + 1..])[1..] == order[1..][..i - 1] + order[1..][i..];
    }
  }

  /** Taking one entry out frees exactly its size. */
  lemma TotalWithout<E>(order: seq<Slot<E>>, i: nat)
    requires i < |order| && Unique(order)
    ensures Filter(order, NotIn({order[i].key})) == order[..i] + order[i + 1..]
    ensures Total(Filter(order, NotIn({order[i].key}))) == Total(order) - order[i].size
  {
    FilterOut(order, i);
    TotalGap(order, i);
  }

  /** Eviction keeps the longest most recent run that fits, or nothing. */
  lemma {:induction false} FittingIsLongest<E>(order: seq<Slot<E>>, room: int)
    ensures Total(Fitting(order, room)) <= room || Fitting(order, room) == []
    ensures forall n :: 0 <= n <= |order| && Total(order[..n]) <= room ==> n <= |Fitting(order, room)|
  {
    assert order[..|order|] == order;
    if order != [] && Total(order) > room {
      var front := order[..|order| - 1];
      FittingIsLongest(front, room);
      assert forall n :: 0 <= n <= |front| ==> order[..n] == front[..n];
    }
  }

  // ---------------------------------------------------------------------
  // Operations on the list
  // ---------------------------------------------------------------------

  predicate Expired<E>(slot: Slot<E>, now: int) {
    now > slot.expiresAt
  }

  function SlotOf<E>(order: seq<Slot<E>>, key: string): (found: Option<Slot<E>>)
    ensures found.None? <==> Free(order, key)
    ensures found.Some? ==> found.value.key == key && found.value in order
  {
    if order == [] then None
    else if order[0].key == key then Some(order[0])
    else SlotOf(order[1..], key)
  }

  lemma {:induction false} SlotOfFilter<E>(order: seq<Slot<E>>, keep: string -> bool, key: string)
    ensures SlotOf(Filter(order, keep), key) == if keep(key) then SlotOf(order, key) else None
  {
    if order != [] {
      SlotOfFilter(order[1..], keep, key);
      var rest := Filter(order[1..], keep);
      assert ([order[0]] + rest)[1..] == rest;
    }
  }

  lemma {:induction false} SlotOfEach<E>(order: seq<Slot<E>>, i: nat)
    requires i < |order| && Unique(order)
    ensures SlotOf(order, order[i].key) == Some(order[i])
  {
    if i > 0 {
      SlotOfEach(order[1..], i - 1);
    }
  }

  /** A map that indexes the list. */
  ghost predicate Indexes<E>(items: map<string, Slot<E>>, order: seq<Slot<E>>) {
    forall key :: Find(items, key) == SlotOf(order, key)
  }

  lemma IndexesRest<E>(items: map<string, Slot<E>>, order: seq<Slot<E>>, key: string)
    requires Indexes(items, order)
    ensures Indexes(items - {key}, Filter(order, NotIn({key})))
  {
    forall k
      ensures Find(items - {key}, k) == SlotOf(Filter(order, NotIn({key})), k)
    {
      SlotOfFilter(order, NotIn({key}), k);
    }
  }

  lemma KeysIndexed<E>(items: map<string, Slot<E>>, order: seq<Slot<E>>, matching: string -> bool, keys: set<string>)
    requires Unique(order) && Indexes(items, order)
    requires keys == set k | k in items && matching(k)
    ensures forall i :: 0 <= i < |order| ==> (order[i].key in keys <==> matching(order[i].key))
  {
    forall i | 0 <= i < |order|
      ensures order[i].key in items
    {
      SlotOfEach(order, i);
      assert Find(items, order[i].key) == SlotOf(order, order[i].key);
    }
  }

  lemma IndexesFront<E>(items: map<string, Slot<E>>, order: seq<Slot<E>>, slot: Slot<E>)
    requires Indexes(items - {slot.key}, order)
    ensures Indexes(items[slot.key := slot], [slot] + order)
  {
    forall k
      ensures Find(items[slot.key := slot], k) == SlotOf([slot] + order, k)
    {
      assert ([slot] + order)[1..] == order;
      assert Find(items - {slot.key}, k) == SlotOf(order, k);
    }
  }

  /** PutBytes: the key's old entry goes, then entries from the back until the
      new one fits, then the new one goes in front if it does. */
  function Put<E>(order: seq<Slot<E>>, slot: Slot<E>, maxSize: nat): seq<Slot<E>> {
    var kept := Fitting(Filter(order, NotIn({slot.key})), maxSize - slot.size);
    if Total(kept) + slot.size <= maxSize then [slot] + kept else kept
  }

  /** Get: an expired entry goes, a live one moves to the front. */
  function Touch<E>(order: seq<Slot<E>>, key: string, now: int): seq<Slot<E>> {
    var found := SlotOf(order, key);
    if found.None? then order
    else
      var rest := Filter(order, NotIn({key}));
      if Expired(found.value, now) then rest else [found.value] + rest
  }

  function Lookup<E>(order: seq<Slot<E>>, key: string, now: int): Option<E> {
    var found := SlotOf(order, key);
    if found.None? || Expired(found.value, now) then None else Some(found.value.entry)
  }

  lemma PutFits<E>(order: seq<Slot<E>>, slot: Slot<E>, maxSize: nat)
    requires Unique(order) && Total(order) <= maxSize
    ensures var next := Put(order, slot, maxSize); Unique(next) && Total(next) <= maxSize
    ensures Put(order, slot, maxSize)
            == if slot.size > maxSize then []
               else [slot] + Fitting(Filter(order, NotIn({slot.key})), maxSize - slot.size)
  {
    var others, room := Filter(order, NotIn({slot.key})), maxSize - slot.size;
    FilterUnique(order, NotIn({slot.key}));
    FilterFree(order, slot.key);
    FittingIsLongest(others, room);
    var kept := Fitting(others, room);
    assert kept == others[..|kept|];
    UniqueCons(slot, kept);
    assert Total(kept) <= room || kept == [];
    TotalAppend([slot], kept);
  }

  // ---------------------------------------------------------------------
  // The cache object
  // ---------------------------------------------------------------------

  class MemoryCache<E(==)> {
    var items: map<string, Slot<E>>
    var order: seq<Slot<E>>
    var sizeBytes: int
    var hits: nat
    var misses: nat
    const maxSize: nat
    const ttl: int

    ghost predicate Valid()
      reads this
    {
      && Unique(order)
      && Indexes(items, order)
      && sizeBytes == Total(order) <= maxSize
    }

    constructor (maxSize: nat, ttl: int)
      ensures Valid() && order == [] && this.maxSize == maxSize && this.ttl == ttl
      ensures hits == 0 && misses == 0
    {
      this.maxSize, this.ttl := maxSize, ttl;
      items, order, sizeBytes, hits, misses := map[], [], 0, 0, 0;
    }

    method RemoveLocked(slot: Slot<E>)
      requires Valid() && Find(items, slot.key) == Some(slot)
      modifies this`items, this`order, this`sizeBytes
      ensures Valid() && order == Filter(old(order), NotIn({slot.key}))
      ensures items == old(items) - {slot.key}
      ensures |order| == |old(order)| - 1
    {
      assert slot in order;
      var i :| 0 <= i < |order| && order[i] == slot;
      TotalWithout(order, i);
      FilterUnique(order, NotIn({slot.key}));
      IndexesRest(items, order, slot.key);
      order := order[..i] + order[i + 1..];
      items := items - {slot.key};
      sizeBytes := sizeBytes - slot.size;
    }

    /** The cached entry, if there is one that has not expired. */
    method Get(key: string, now: int) returns (entry: Option<E>)
      requires Valid()
      modifies this
      ensures Valid() && order == Touch(old(order), key, now) && entry == Lookup(old(order), key, now)
      ensures hits == old(hits) + (if entry.Some? then 1 else 0)
      ensures misses == old(misses) + (if entry.Some? then 0 else 1)
    {
      assert Find(items, key) == SlotOf(order, key);
      if key !in items {
        misses := misses + 1;
        return None;
      }
      var slot := items[key];
      if Expired(slot, now) {
        RemoveLocked(slot);
        misses := misses + 1;
        return None;
      }
      ToFront(slot);
      hits := hits + 1;
      return Some(slot.entry);
    }

    /** Moves an entry to the front of the list. */
    method ToFront(slot: Slot<E>)
      requires Valid() && Find(items, slot.key) == Some(slot)
      modifies this`order
      ensures Valid() && order == [slot] + Filter(old(order), NotIn({slot.key}))
    {
      assert slot in order;
      var i :| 0 <= i < |order| && order[i] == slot;
      TotalWithout(order, i);
      FilterUnique(order, NotIn({slot.key}));
      FilterFree(order, slot.key);
      UniqueCons(slot, Filter(order, NotIn({slot.key})));
      IndexesRest(items, order, slot.key);
      IndexesFront(items, Filter(order, NotIn({slot.key})), slot);
      TotalAppend([slot], Filter(order, NotIn({slot.key})));
      assert items[slot.key := slot] == items;
      order := [slot] + (order[..i] + order[i + 1..]);
    }

    /** Stores an entry, evicting from the back until it fits. */
    method PutBytes(key: string, entry: E, size: nat, now: int)
      requires Valid()
      modifies this
      ensures Valid() && order == Put(old(order), Slot(key, entry, size, now + ttl), maxSize)
      ensures hits == old(hits) && misses == old(misses)
    {
      var slot := Slot(key, entry, size, now + ttl);
      PutFits(order, slot, maxSize);
      RemoveKey(key);
      ghost var others := order;
      while sizeBytes + size > maxSize && |order| > 0
        invariant Valid() && Fitting(order, maxSize - size) == Fitting(others, maxSize - size)
        invariant Free(order, key) && hits == old(hits) && misses == old(misses)
        decreases |order|
      {
        EvictLocked();
      }
      if sizeBytes + size > maxSize {
        return;
      }
      PushFront(slot);
    }

    method RemoveKey(key: string)
      requires Valid()
      modifies this`items, this`order, this`sizeBytes
      ensures Valid() && order == Filter(old(order), NotIn({key})) && Free(order, key)
      ensures items == old(items) - {key}
      ensures key in old(items) ==> |order| == |old(order)| - 1
    {
      FilterFree(order, key);
      assert Find(items, key) == SlotOf(order, key);
      if key in items {
        RemoveLocked(items[key]);
      } else {
        FilterAll(order, NotIn({key}));
      }
    }

    method PushFront(slot: Slot<E>)
      requires Valid() && Free(order, slot.key) && sizeBytes + slot.size <= maxSize
      modifies this`items, this`order, this`sizeBytes
      ensures Valid() && order == [slot] + old(order)
    {
      UniqueCons(slot, order);
      IndexesRest(items, order, slot.key);
      FilterAll(order, NotIn({slot.key}));
      IndexesFront(items, order, slot);
      TotalAppend([slot], order);
      order := [slot] + order;
      items := items[slot.key := slot];
      sizeBytes := sizeBytes + slot.size;
    }

    /** Makes room by one entry, taken from the back. */
    method EvictLocked()
      requires Valid() && |order| > 0
      modifies this`items, this`order, this`sizeBytes
      ensures Valid() && order == old(order)[..|old(order)| - 1]
    {
      var last := |order| - 1;
      SlotOfEach(order, last);
      TotalWithout(order, last);
      assert order[..last] + order[last + 1..] == order[..last];
      RemoveLocked(order[last]);
    }

    method Clear() returns (dropped: nat)
      requires Valid()
      modifies this
      ensures Valid() && order == [] && dropped == |old(items)|
      ensures hits == old(hits) && misses == old(misses)
    {
      dropped := |items|;
      items, order, sizeBytes := map[], [], 0;
    }
  
    /** Removes the entries of keys that are cached. */
    method RemoveKeys(keys: set<string>)
      requires Valid() && keys <= items.Keys
      modifies this`items, this`order, this`sizeBytes
      ensures Valid() && order == Filter(old(order), NotIn(keys)) && |order| == |old(order)| - |keys|
    {
      ghost var before := order;
      FilterAll(order, NotIn({}));
      var rest: set<string>, gone: set<string> := keys, {};
      while rest != {}
        invariant Valid() && rest <= items.Keys && keys == gone + rest
        invariant order == Filter(before, NotIn(gone)) && |order| == |before| - |keys| + |rest|
        decreases |rest|
      {
        var key :| key in rest;
        FilterTwice(before, gone, {key});
        assert gone + {key} + (rest - {key}) == gone + rest;
        RemoveKey(key);
        rest, gone := rest - {key}, gone + {key};
      }
      assert gone == keys;
    }

    /** Removes every entry whose key matches and counts them. */
    method RemoveMatching(matching: string -> bool) returns (dropped: nat)
      requires Valid()
      modifies this
      ensures Valid() && order == Filter(old(order), Except(matching))
      ensures dropped == |old(order)| - |order|
      ensures hits == old(hits) && misses == old(misses)
    {
      var matches := set k | k in items && matching(k);
      KeysIndexed(items, order, matching, matches);
      FilterAgrees(order, NotIn(matches), Except(matching));
      RemoveKeys(matches);
      dropped := |matches|;
    }
  
    /** Drops what an invalidation names and reports how many entries went; one
        object's key reports none. */
    method Apply(inv: Invalidation) returns (dropped: nat)
      requires Valid()
      modifies this
      ensures Valid() && order == Filter(old(order), Unmatched(inv))
      ensures hits == old(hits) && misses == old(misses)
      ensures dropped == if inv.all then |old(items)| else if inv.key != "" then 0 else |old(order)| - |order|
    {
      if inv.all {
        FilterNone(order, Unmatched(inv));
        dropped := Clear();
      } else if inv.key != "" {
        var matching := (k: string) => IsCopyOf(inv.key, k);
        FilterAgrees(order, Except(matching), Unmatched(inv));
        var _ := RemoveMatching(matching);
        dropped := 0;
      } else if inv.prefix != "" {
        var matching := (k: string) => inv.prefix <= k;
        FilterAgrees(order, Except(matching), Unmatched(inv));
        dropped := RemoveMatching(matching);
      } else {
        FilterAll(order, Unmatched(inv));
        dropped := 0;
      }
    }
  }

  // ---------------------------------------------------------------------
  // Histories
  // ---------------------------------------------------------------------

  datatype Op<E> = Look(key: string, now: int) | Store(slot: Slot<E>) | Drop(inv: Invalidation)

  function Act<E>(order: seq<Slot<E>>, op: Op<E>, maxSize: nat): seq<Slot<E>> {
    match op
    case Look(key, now) => Touch(order, key, now)
    case Store(slot) => Put(order, slot, maxSize)
    case Drop(inv) => Filter(order, Unmatched(inv))
  }

  function ActAll<E>(ops: seq<Op<E>>, maxSize: nat): seq<Slot<E>> {
    if ops == [] then [] else Act(ActAll(ops[..|ops| - 1], maxSize), ops[|ops| - 1], maxSize)
  }

  /** The last entry stored for a key and not since dropped. */
  function LastPut<E>(ops: seq<Op<E>>, key: string): Option<Slot<E>> {
    if ops == [] then None
    else
      var front, last := ops[..|ops| - 1], ops[|ops| - 1];
      if last.Store? && last.slot.key == key then Some(last.slot)
      else if last.Drop? && Matches(last.inv, key) then None
      else LastPut(front, key)
  }

  /** When a key was last stored or looked up, counting operations from one. */
  function LastUse<E>(ops: seq<Op<E>>, key: string): nat {
    if ops == [] then 0
    else
      var last := ops[|ops| - 1];
      if (last.Store? && last.slot.key == key) || (last.Look? && last.key == key) then |ops|
      else LastUse(ops[..|ops| - 1], key)
  }

  ghost predicate Recent<E>(order: seq<Slot<E>>, ops: seq<Op<E>>) {
    forall i, j :: 0 <= i < j < |order| ==> LastUse(ops, order[i].key) > LastUse(ops, order[j].key)
  }

  ghost predicate Current<E>(order: seq<Slot<E>>, ops: seq<Op<E>>) {
    forall i :: 0 <= i < |order| ==> LastPut(ops, order[i].key) == Some(order[i])
  }

  lemma {:induction false} FilterRecent<E>(order: seq<Slot<E>>, keep: string -> bool, ops: seq<Op<E>>)
    requires Recent(order, ops)
    ensures Recent(Filter(order, keep), ops)
  {
    if order != [] {
      var rest := Filter(order[1..], keep);
      FilterRecent(order[1..], keep, ops);
      FilterMembers(order[1..], keep);
      forall i | 0 <= i < |rest|
        ensures LastUse(ops, order[0].key) > LastUse(ops, rest[i].key)
      {
        var j :| 0 <= j < |order[1..]| && order[1..][j] == rest[i];
      }
    }
  }

  lemma FilterCurrent<E>(order: seq<Slot<E>>, keep: string -> bool, ops: seq<Op<E>>)
    requires Current(order, ops)
    ensures Current(Filter(order, keep), ops)
  {
    var kept := Filter(order, keep);
    FilterMembers(order, keep);
    forall i | 0 <= i < |kept|
      ensures LastPut(ops, kept[i].key) == Some(kept[i])
    {
      var j :| 0 <= j < |order| && order[j] == kept[i];
    }
  }

  /** What one more operation does not touch keeps its last use and last put. */
  lemma UntouchedAlike<E>(order: seq<Slot<E>>, ops: seq<Op<E>>, op: Op<E>)
    requires Recent(order, ops) && Current(order, ops)
    requires op.Store? ==> Free(order, op.slot.key)
    requires op.Look? ==> Free(order, op.key)
    requires op.Drop? ==> forall i :: 0 <= i < |order| ==> !Matches(op.inv, order[i].key)
    ensures Recent(order, ops + [op]) && Current(order, ops + [op])
  {
    assert (ops + [op])[..|ops|] == ops;
  }

  lemma {:induction false} UsedBefore<E>(ops: seq<Op<E>>, key: string)
    ensures LastUse(ops, key) <= |ops|
  {
    if ops != [] {
      UsedBefore(ops[..|ops| - 1], key);
    }
  }

  lemma ActKeeps<E>(order: seq<Slot<E>>, ops: seq<Op<E>>, op: Op<E>, maxSize: nat)
    requires Unique(order) && Total(order) <= maxSize
    requires Recent(order, ops) && Current(order, ops)
    ensures
      var next := Act(order, op, maxSize);
      Unique(next) && Total(next) <= maxSize && Recent(next, ops + [op]) && Current(next, ops + [op])
  {
    match op
    case Look(key, now) => TouchKeeps(order, ops, key, now);
    case Store(slot) => PutKeeps(order, ops, slot, maxSize);
    case Drop(inv) =>
      RestKeeps(order, ops, Unmatched(inv));
      FilterMembers(order, Unmatched(inv));
      UntouchedAlike(Filter(order, Unmatched(inv)), ops, op);
  }

  lemma RestKeeps<E>(order: seq<Slot<E>>, ops: seq<Op<E>>, keep: string -> bool)
    requires Unique(order) && Recent(order, ops) && Current(order, ops)
    ensures var rest := Filter(order, keep);
            Unique(rest) && Total(rest) <= Total(order) && Recent(rest, ops) && Current(rest, ops)
  {
    FilterUnique(order, keep);
    FilterMembers(order, keep);
    FilterRecent(order, keep, ops);
    FilterCurrent(order, keep, ops);
  }

  lemma FrontKeeps<E>(slot: Slot<E>, rest: seq<Slot<E>>, ops: seq<Op<E>>, op: Op<E>)
    requires Unique(rest) && Recent(rest, ops) && Current(rest, ops) && Free(rest, slot.key)
    requires op == Store(slot) || (op.Look? && op.key == slot.key && LastPut(ops, slot.key) == Some(slot))
    ensures Unique([slot] + rest) && Recent([slot] + rest, ops + [op]) && Current([slot] + rest, ops + [op])
  {
    UniqueCons(slot, rest);
    UntouchedAlike(rest, ops, op);
    assert (ops + [op])[..|ops|] == ops;
    var order := [slot] + rest;
    forall j | 0 < j < |order|
      ensures LastUse(ops + [op], order[0].key) > LastUse(ops + [op], order[j].key)
    {
      UsedBefore(ops, rest[j - 1].key);
    }
    assert forall j :: 0 < j < |order| ==> order[j] == rest[j - 1];
  }

  lemma TouchKeeps<E>(order: seq<Slot<E>>, ops: seq<Op<E>>, key: string, now: int)
    requires Unique(order) && Recent(order, ops) && Current(order, ops)
    ensures
      var next, op := Touch(order, key, now), Look(key, now);
      Unique(next) && Total(next) <= Total(order) && Recent(next, ops + [op]) && Current(next, ops + [op])
  {
    var found, op := SlotOf(order, key), Look(key, now);
    if found.None? {
      UntouchedAlike(order, ops, op);
    } else {
      var rest := Filter(order, NotIn({key}));
      var i :| 0 <= i < |order| && order[i] == found.value;
      RestKeeps(order, ops, NotIn({key}));
      FilterFree(order, key);
      TotalWithout(order, i);
      UntouchedAlike(rest, ops, op);
      FrontKeeps(order[i], rest, ops, op);
      TotalAppend([order[i]], rest);
    }
  }

  lemma PutKeeps<E>(order: seq<Slot<E>>, ops: seq<Op<E>>, slot: Slot<E>, maxSize: nat)
    requires Unique(order) && Total(order) <= maxSize && Recent(order, ops) && Current(order, ops)
    ensures
      var next, op := Put(order, slot, maxSize), Store(slot);
      Unique(next) && Total(next) <= maxSize && Recent(next, ops + [op]) && Current(next, ops + [op])
  {
    PutFits(order, slot, maxSize);
    if slot.size <= maxSize {
      var others := Filter(order, NotIn({slot.key}));
      RestKeeps(order, ops, NotIn({slot.key}));
      FilterFree(order, slot.key);
      FrontOfPrefix(slot, others, Fitting(others, maxSize - slot.size), ops, Put(order, slot, maxSize));
    }
  }

  lemma FrontOfPrefix<E>(slot: Slot<E>, others: seq<Slot<E>>, kept: seq<Slot<E>>, ops: seq<Op<E>>, next: seq<Slot<E>>)
    requires Unique(others) && Recent(others, ops) && Current(others, ops) && Free(others, slot.key)
    requires kept <= others && next == [slot] + kept
    ensures Unique(next) && Recent(next, ops + [Store(slot)]) && Current(next, ops + [Store(slot)])
  {
    PrefixKeeps(others, ops, |kept|, slot.key);
    assert kept == others[..|kept|];
    FrontKeeps(slot, kept, ops, Store(slot));
  }

  lemma PrefixKeeps<E>(order: seq<Slot<E>>, ops: seq<Op<E>>, n: nat, key: string)
    requires n <= |order| && Unique(order) && Recent(order, ops) && Current(order, ops) && Free(order, key)
    ensures Unique(order[..n]) && Recent(order[..n], ops) && Current(order[..n], ops) && Free(order[..n], key)
  {
  }

  /** After any history the cache holds no key twice, fits its bound, is ordered
      by last use, and holds for each key only what was last stored for it and
      not since dropped. */
  lemma {:induction false} LruRefinesHistory<E>(ops: seq<Op<E>>, maxSize: nat)
    ensures
      var order := ActAll(ops, maxSize);
      Unique(order) && Total(order) <= maxSize && Recent(order, ops) && Current(order, ops)
  {
    if ops != [] {
      var front, last := ops[..|ops| - 1], ops[|ops| - 1];
      LruRefinesHistory(front, maxSize);
      ActKeeps(ActAll(front, maxSize), front, last, maxSize);
      assert front + [last] == ops;
    }
  }

  /** So a hit is the last entry stored, unexpired and not since dropped. */
  lemma HitIsLastPut<E>(ops: seq<Op<E>>, maxSize: nat, key: string, now: int)
    ensures
      var hit := Lookup(ActAll(ops, maxSize), key, now);
      hit.Some? ==>
        var put := LastPut(ops, key);
        put.Some? && put.value.entry == hit.value && now <= put.value.expiresAt
  {
    LruRefinesHistory(ops, maxSize);
    var order := ActAll(ops, maxSize);
    var found := SlotOf(order, key);
    if found.Some? {
      var i :| 0 <= i < |order| && order[i] == found.value;
    }
  }

  /** And an entry that fits is a hit until it expires, if looked up next. */
  lemma StoredIsFound<E>(ops: seq<Op<E>>, maxSize: nat, slot: Slot<E>, now: int)
    requires slot.size <= maxSize && !Expired(slot, now)
    ensures Lookup(ActAll(ops + [Store(slot)], maxSize), slot.key, now) == Some(slot.entry)
  {
    LruRefinesHistory(ops, maxSize);
    assert (ops + [Store(slot)])[..|ops|] == ops;
    PutFits(ActAll(ops, maxSize), slot, maxSize);
  }
}
