/** Master keys and their rotation: wrapping an object's data key, finding the
    key that unwraps it, and re-wrapping every data key under the current master
    key without touching object bytes. Models internal/encryption/key.go,
    PackKeyData and UnpackKeyData of internal/encryption/encryption.go, and
    RotateKey of internal/ops/encryption.go. Random nonces are parameters. */
module Keys {
  import opened Common
  import opened Envelope

  /** A master key and the fingerprint it is recorded under. */
  datatype MasterKey = MasterKey(key: Bytes, id: string)

  /** nonce || ciphertext || tag */
  function Wrap(c: Cipher, k: MasterKey, nonce: Nonce, dek: Bytes): Bytes {
    nonce + c.seal(k.key, nonce, dek)
  }

  function Unwrap(c: Cipher, k: MasterKey, wrapped: Bytes): Option<Bytes> {
    if |wrapped| < NONCE_SIZE then None
    else c.open(k.key, wrapped[..NONCE_SIZE], wrapped[NONCE_SIZE..])
  }

  /** The configured keys: the primary wraps, the previous ones only unwrap. */
  datatype Provider = Provider(cipher: Cipher, primary: MasterKey, previous: seq<MasterKey>) {
    function Ordered(): seq<MasterKey> {
      [primary] + previous
    }
  }

  /** The last key recorded under an ID, as filling a map by ID leaves it. */
  function Lookup(keys: seq<MasterKey>, id: string): Option<MasterKey> {
    if keys == [] then None
    else if keys[|keys| - 1].id == id then Some(keys[|keys| - 1])
    else Lookup(keys[..|keys| - 1], id)
  }

  /** The first key that opens a wrapped data key. */
  function FirstUnwrap(c: Cipher, keys: seq<MasterKey>, wrapped: Bytes): Option<Bytes> {
    if keys == [] then None
    else match Unwrap(c, keys[0], wrapped)
         case Some(dek) => Some(dek)
         case None => FirstUnwrap(c, keys[1..], wrapped)
  }

  /** UnwrapDEK of a provider with previous keys. */
  function UnwrapDEK(p: Provider, wrapped: Bytes, id: string): Option<Bytes> {
    if id == p.primary.id then Unwrap(p.cipher, p.primary, wrapped)
    else match Lookup(p.previous, id)
         case Some(k) => Unwrap(p.cipher, k, wrapped)
         case None => FirstUnwrap(p.cipher, p.Ordered(), wrapped)
  }

  /** GCM authentication over the configured keys: a key opens nothing another
      key sealed. */
  ghost predicate Rejects(c: Cipher, keys: seq<MasterKey>) {
    forall j, k, nonce: Bytes, text: Bytes | j in keys && k in keys && j.key != k.key ::
      c.open(j.key, nonce, c.seal(k.key, nonce, text)) == None
  }

  /** The fingerprints of the configured keys tell them apart. */
  predicate Identified(keys: seq<MasterKey>) {
    forall j, k | j in keys && k in keys :: j.id == k.id <==> j.key == k.key
  }

  ghost predicate Sound(p: Provider) {
    Lawful(p.cipher) && Rejects(p.cipher, p.Ordered()) && Identified(p.Ordered())
  }

  /** A tag that tells keys apart by their first byte. */
  function ToyTag(key: Bytes): (tag: Bytes)
    ensures |tag| == TAG_SIZE
  {
    var b: Byte := if key == [] then 0 else key[0];
    seq(TAG_SIZE, _ => b)
  }

  function ToyCipher(): Cipher {
    Cipher((key: Bytes, nonce: Bytes, text: Bytes) => text + ToyTag(key),
           (key: Bytes, nonce: Bytes, text: Bytes) =>
             if |text| >= TAG_SIZE && text[|text| - TAG_SIZE..] == ToyTag(key)
             then Some(text[..|text| - TAG_SIZE]) else None)
  }

  lemma ToyOpens(k: Bytes, j: Bytes, nonce: Bytes, text: Bytes)
    ensures ToyCipher().open(j, nonce, ToyCipher().seal(k, nonce, text)) == if ToyTag(j) == ToyTag(k) then Some(text) else None
  {
    var sealed := text + ToyTag(k);
    assert sealed[..|text|] == text && sealed[|text|..] == ToyTag(k);
  }

  /** What is asked of a provider can be met, with more keys than one. */
  lemma SoundProviderExists() returns (p: Provider)
    ensures Sound(p) && |p.previous| == 1 && p.previous[0].key != p.primary.key
  {
    p := Provider(ToyCipher(), MasterKey([1], "a"), [MasterKey([2], "b")]);
    forall k: Bytes, j: Bytes, nonce: Bytes, text: Bytes
      ensures p.cipher.open(j, nonce, p.cipher.seal(k, nonce, text)) == if ToyTag(j) == ToyTag(k) then Some(text) else None
    {
      ToyOpens(k, j, nonce, text);
    }
    assert ToyTag([1])[0] != ToyTag([2])[0];
    assert forall k | k in p.Ordered() :: k == p.primary || k == p.previous[0];
  }

  lemma UnwrapWrapped(p: Provider, j: MasterKey, k: MasterKey, nonce: Nonce, dek: Bytes)
    requires Sound(p) && j in p.Ordered() && k in p.Ordered()
    ensures Unwrap(p.cipher, j, Wrap(p.cipher, k, nonce, dek)) == if j.key == k.key then Some(dek) else None
  {
    var w := Wrap(p.cipher, k, nonce, dek);
    assert w[..NONCE_SIZE] == nonce && w[NONCE_SIZE..] == p.cipher.seal(k.key, nonce, dek);
  }

  lemma {:induction false} LookupFinds(keys: seq<MasterKey>, id: string)
    ensures Lookup(keys, id).Some? <==> exists k :: k in keys && k.id == id
    ensures Lookup(keys, id).Some? ==> Lookup(keys, id).value in keys && Lookup(keys, id).value.id == id
  {
    if keys != [] {
      var front, last := keys[..|keys| - 1], keys[|keys| - 1];
      LookupFinds(front, id);
      assert keys == front + [last];
    }
  }

  lemma {:induction false} FirstUnwrapFinds(p: Provider, keys: seq<MasterKey>, k: MasterKey, nonce: Nonce, dek: Bytes)
    requires Sound(p) && k in p.Ordered() && forall j | j in keys :: j in p.Ordered()
    requires exists j :: j in keys && j.key == k.key
    ensures FirstUnwrap(p.cipher, keys, Wrap(p.cipher, k, nonce, dek)) == Some(dek)
  {
    UnwrapWrapped(p, keys[0], k, nonce, dek);
    if keys[0].key != k.key {
      FirstUnwrapFinds(p, keys[1..], k, nonce, dek);
    }
  }

  /** A data key wrapped by a configured key unwraps to itself exactly under that
      key's ID or under one that belongs to none of them. */
  lemma UnwrapsExactly(p: Provider, k: MasterKey, nonce: Nonce, dek: Bytes, id: string)
    requires Sound(p) && k in p.Ordered()
    ensures UnwrapDEK(p, Wrap(p.cipher, k, nonce, dek), id) == Some(dek)
            <==> id == k.id || forall j | j in p.Ordered() :: j.id != id
  {
    LookupFinds(p.previous, id);
    UnwrapWrapped(p, p.primary, k, nonce, dek);
    if id != p.primary.id {
      match Lookup(p.previous, id)
      case Some(j) =>
        assert j in p.Ordered();
        UnwrapWrapped(p, j, k, nonce, dek);
      case None =>
        FirstUnwrapFinds(p, p.Ordered(), k, nonce, dek);
        assert forall j | j in p.Ordered() :: j.id != id;
    }
  }

  // ---------------------------------------------------------------------
  // The key blob a row stores
  // ---------------------------------------------------------------------

  /** baseNonce || wrappedDEK */
  function PackKeyData(base: Bytes, wrapped: Bytes): Bytes {
    base + wrapped
  }

  function UnpackKeyData(blob: Bytes): Option<(Nonce, Bytes)> {
    if |blob| <= NONCE_SIZE then None
    else Some((blob[..NONCE_SIZE], blob[NONCE_SIZE..]))
  }

  /** A packed blob unpacks to its parts exactly when there is a wrapped key in it. */
  lemma PackInverts(base: Nonce, wrapped: Bytes)
    ensures UnpackKeyData(PackKeyData(base, wrapped)) == Some((base, wrapped)) <==> wrapped != []
  {
    var blob := PackKeyData(base, wrapped);
    assert blob[..NONCE_SIZE] == base && blob[NONCE_SIZE..] == wrapped;
  }

  /** What a row records about its envelope's key. */
  datatype Row = Row(blob: Bytes, keyID: string)

  /** The base nonce and data key a row gives access to. */
  function Opens(p: Provider, row: Row): Option<(Nonce, Bytes)> {
    match UnpackKeyData(row.blob)
    case None => None
    case Some((base, wrapped)) =>
      match UnwrapDEK(p, wrapped, row.keyID)
      case None => None
      case Some(dek) => Some((base, dek))
  }

  /** rotateOneLocation: the row re-wrapped under the primary key. */
  function Rotated(p: Provider, row: Row, nonce: Nonce): Option<Row> {
    match UnpackKeyData(row.blob)
    case None => None
    case Some((base, wrapped)) =>
      match UnwrapDEK(p, wrapped, row.keyID)
      case None => None
      case Some(dek) =>
        Some(Row(PackKeyData(base, Wrap(p.cipher, p.primary, nonce, dek)), p.primary.id))
  }

  /** Rotating a row keeps its base nonce and its data key, so its bytes read as
      before; and from then on the primary key alone opens it, under any
      provider that still holds that key. */
  lemma RotationKeepsAccess(p: Provider, q: Provider, row: Row, nonce: Nonce)
    requires Sound(p) && Sound(q) && q.cipher == p.cipher && p.primary in q.Ordered()
    ensures Rotated(p, row, nonce).Some? <==> Opens(p, row).Some?
    ensures Rotated(p, row, nonce).Some? ==>
      && Opens(q, Rotated(p, row, nonce).value) == Opens(p, row)
      && Rotated(p, row, nonce).value.keyID == p.primary.id
  {
    if Opens(p, row).Some? {
      var (base, dek) := Opens(p, row).value;
      PackInverts(base, Wrap(p.cipher, p.primary, nonce, dek));
      UnwrapsExactly(q, p.primary, nonce, dek, p.primary.id);
    }
  }

  // ---------------------------------------------------------------------
  // A rotation pass
  // ---------------------------------------------------------------------

  class LocationStore {
    var rows: map<nat, Row>
  }

  /** The rows a pass rotates: those of one old key, or all but the primary's. */
  predicate Stale(p: Provider, row: Row, oldKeyID: string) {
    if oldKeyID != "" then row.keyID == oldKeyID else row.keyID != p.primary.id
  }

  /** One row after a pass: re-wrapped when it is stale, opens, and was not
      replaced by a newer write while the pass ran. */
  function AfterPass(p: Provider, row: Row, oldKeyID: string, changed: bool, nonce: Nonce): Row {
    if !Stale(p, row, oldKeyID) || changed then row
    else match Rotated(p, row, nonce)
         case Some(next) => next
         case None => row
  }

  /** A pass changes no row's access, and leaves no stale row that it could move
      off its old key. */
  lemma PassKeepsAccess(p: Provider, row: Row, oldKeyID: string, changed: bool, nonce: Nonce)
    requires Sound(p)
    ensures Opens(p, AfterPass(p, row, oldKeyID, changed, nonce)) == Opens(p, row)
    ensures Stale(p, row, oldKeyID) && !changed && Opens(p, row).Some? ==>
      AfterPass(p, row, oldKeyID, changed, nonce).keyID == p.primary.id
  {
    RotationKeepsAccess(p, p, row, nonce);
  }

  /** What a pass makes of one row: nothing of one that is not stale; a failure
      where it does not open; a skip where a newer write replaced it. */
  datatype Turn = Untouched | RotatedTo | Failed | Skipped

  function TurnOf(p: Provider, row: Row, oldKeyID: string, changed: bool, nonce: Nonce): Turn {
    if !Stale(p, row, oldKeyID) then Untouched
    else if Rotated(p, row, nonce) == None then Failed
    else if changed then Skipped
    else RotatedTo
  }

  /** The rows of a store that took one turn. */
  function Took(p: Provider, rows: map<nat, Row>, oldKeyID: string, changed: set<nat>, nonces: map<nat, Nonce>, turn: Turn)
    : set<nat>
    requires rows.Keys <= nonces.Keys
  {
    set id | id in rows && TurnOf(p, rows[id], oldKeyID, id in changed, nonces[id]) == turn
  }

  lemma TookOne(p: Provider, rows: map<nat, Row>, oldKeyID: string, changed: set<nat>, nonces: map<nat, Nonce>,
                turn: Turn, rest: set<nat>, id: nat)
    requires rows.Keys <= nonces.Keys && rest <= rows.Keys && id in rest
    ensures |Took(p, rows, oldKeyID, changed, nonces, turn) - (rest - {id})|
         == |Took(p, rows, oldKeyID, changed, nonces, turn) - rest|
            + if TurnOf(p, rows[id], oldKeyID, id in changed, nonces[id]) == turn then 1 else 0
  {
    var took := Took(p, rows, oldKeyID, changed, nonces, turn);
    assert took - (rest - {id}) == (took - rest) + if id in took then {id} else {};
  }

  /** The rows of a store while rest are still to come. */
  function MidPass(p: Provider, rows: map<nat, Row>, oldKeyID: string, changed: set<nat>, nonces: map<nat, Nonce>, rest: set<nat>)
    : map<nat, Row>
    requires rows.Keys <= nonces.Keys
  {
    map id | id in rows :: if id in rest then rows[id] else AfterPass(p, rows[id], oldKeyID, id in changed, nonces[id])
  }

  lemma MidPassOne(p: Provider, rows: map<nat, Row>, oldKeyID: string, changed: set<nat>, nonces: map<nat, Nonce>,
                   rest: set<nat>, id: nat)
    requires rows.Keys <= nonces.Keys && rest <= rows.Keys && id in rest
    ensures MidPass(p, rows, oldKeyID, changed, nonces, rest)[id := AfterPass(p, rows[id], oldKeyID, id in changed, nonces[id])]
         == MidPass(p, rows, oldKeyID, changed, nonces, rest - {id})
  {
  }

  /** Re-wraps one row under the primary key, if it is stale, opens, and was not
      replaced meanwhile. */
  method RotateOneLocation(p: Provider, store: LocationStore, id: nat, oldKeyID: string, changed: bool, nonce: Nonce)
    returns (turn: Turn)
    requires id in store.rows
    modifies store
    ensures turn == TurnOf(p, old(store.rows)[id], oldKeyID, changed, nonce)
    ensures store.rows == old(store.rows)[id := AfterPass(p, old(store.rows)[id], oldKeyID, changed, nonce)]
  {
    var row := store.rows[id];
    assert store.rows == store.rows[id := row];
    if !Stale(p, row, oldKeyID) {
      return Untouched;
    }
    var next := Rotated(p, row, nonce);
    if next == None {
      return Failed;
    }
    if changed {
      return Skipped;
    }
    store.rows := store.rows[id := next.value];
    return RotatedTo;
  }

  /** Re-wraps every stale row. changed holds the rows a newer write replaces
      while the pass runs, which the store's compare leaves alone. Exactly one of
      oldKeyID and allStale must be given. */
  method RotateKey(p: Provider, store: LocationStore, oldKeyID: string, allStale: bool, changed: set<nat>, nonces: map<nat, Nonce>)
      returns (ok: bool, rotated: nat, failed: nat, skipped: nat)
    requires store.rows.Keys <= nonces.Keys
    modifies store
    ensures ok <==> (oldKeyID != "") != allStale
    ensures !ok ==> store.rows == old(store.rows)
    ensures ok ==> store.rows == MidPass(p, old(store.rows), oldKeyID, changed, nonces, {})
    ensures ok ==>
      && rotated == |Took(p, old(store.rows), oldKeyID, changed, nonces, RotatedTo)|
      && failed == |Took(p, old(store.rows), oldKeyID, changed, nonces, Failed)|
      && skipped == |Took(p, old(store.rows), oldKeyID, changed, nonces, Skipped)|
  {
    rotated, failed, skipped := 0, 0, 0;
    if (oldKeyID != "") == allStale {
      return false, 0, 0, 0;
    }
    ghost var was := store.rows;
    var rest := store.rows.Keys;
    while rest != {}
      invariant rest <= was.Keys
      invariant store.rows == MidPass(p, was, oldKeyID, changed, nonces, rest)
      invariant rotated == |Took(p, was, oldKeyID, changed, nonces, RotatedTo) - rest|
      invariant failed == |Took(p, was, oldKeyID, changed, nonces, Failed) - rest|
      invariant skipped == |Took(p, was, oldKeyID, changed, nonces, Skipped) - rest|
      decreases rest
    {
      var id :| id in rest;
      MidPassOne(p, was, oldKeyID, changed, nonces, rest, id);
      TookOne(p, was, oldKeyID, changed, nonces, RotatedTo, rest, id);
      TookOne(p, was, oldKeyID, changed, nonces, Failed, rest, id);
      TookOne(p, was, oldKeyID, changed, nonces, Skipped, rest, id);
      var turn := RotateOneLocation(p, store, id, oldKeyID, id in changed, nonces[id]);
      rotated := rotated + if turn == RotatedTo then 1 else 0;
      failed := failed + if turn == Failed then 1 else 0;
      skipped := skipped + if turn == Skipped then 1 else 0;
      rest := rest - {id};
    }
    ok := true;
  }
}
