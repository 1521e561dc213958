/** The names usage counters travel under in Redis: the field a counter has
    inside a backend's hash, and the key a hash is staged under for a flush.
    Models the name helpers of internal/counter/redis.go. */
module UsageNames {
  import opened Common
  import opened Text

  /** What one number in a usage record counts. */
  datatype Field = ApiRequests | EgressBytes | IngressBytes | Pool(name: string)

  const API_REQUESTS := "api_requests"
  const EGRESS_BYTES := "egress_bytes"
  const INGRESS_BYTES := "ingress_bytes"
  const POOL_PREFIX := "pool:"
  const WORKLOAD_PREFIX := "w:"

  /** The counter name Charge writes for a field. */
  function CounterName(f: Field): string {
    match f
    case ApiRequests => API_REQUESTS
    case EgressBytes => EGRESS_BYTES
    case IngressBytes => INGRESS_BYTES
    case Pool(name) => POOL_PREFIX + name
  }

  /** The switch addFields runs on a counter name; None is a name it skips. */
  function FieldOf(name: string): Option<Field> {
    if name == API_REQUESTS then Some(ApiRequests)
    else if name == EGRESS_BYTES then Some(EgressBytes)
    else if name == INGRESS_BYTES then Some(IngressBytes)
    else match CutPrefix(name, POOL_PREFIX)
         case Some(pool) => Some(Pool(pool))
         case None => None
  }

  /** {unix}:w:{workload}: */
  function FieldPrefix(bucket: int, workload: string): string {
    FormatInt(bucket) + ":" + WORKLOAD_PREFIX + workload + ":"
  }

  function FieldName(bucket: int, workload: string, f: Field): string {
    FieldPrefix(bucket, workload) + CounterName(f)
  }

  /** Undoes FieldName: cut at the first colon, then at the next. */
  function ParseField(field: string): Option<(int, string, string)> {
    match Cut(field, ':')
    case None => None
    case Some((unix, rest)) =>
      match (ParseInt(unix), CutPrefix(rest, WORKLOAD_PREFIX))
      case (Some(secs), Some(tail)) =>
        (match Cut(tail, ':')
         case Some((workload, name)) => Some((secs, workload, name))
         case None => None)
      case _ => None
  }

  /** Every counter name Charge writes is read back as the field it was written for. */
  lemma FieldOfCounterName(f: Field)
    ensures FieldOf(CounterName(f)) == Some(f)
  {
    if f.Pool? {
      CutPrefixJoined(POOL_PREFIX, f.name);
      assert CounterName(f)[4] == ':';
    }
  }

  /** A workload and what follows it come apart at the first colon: where they
      were joined exactly when the workload holds none. */
  lemma CutWorkload(workload: string, name: string)
    ensures
      var cut := Cut(workload + ":" + name, ':');
      cut.Some? && (cut == Some((workload, name)) <==> ':' !in workload)
  {
    var tail := workload + ":" + name;
    assert tail[|workload|] == ':';
    if ':' !in workload {
      assert tail == workload + [':'] + name;
      CutJoined(workload, ':', name);
    } else {
      var k :| 0 <= k < |workload| && workload[k] == ':';
      assert tail[k] == ':';
      assert |tail[..IndexOf(tail, ':')]| <= k;
    }
  }

  lemma ParseFieldCuts(bucket: int, tail: string)
    requires MIN_INT64 <= bucket <= MAX_INT64
    ensures ParseField(FormatInt(bucket) + [':'] + (WORKLOAD_PREFIX + tail))
         == match Cut(tail, ':')
            case Some((workload, name)) => Some((bucket, workload, name))
            case None => None
  {
    FormatIntPlain(bucket, ':');
    CutJoined(FormatInt(bucket), ':', WORKLOAD_PREFIX + tail);
    ParseFormat(bucket);
    CutPrefixJoined(WORKLOAD_PREFIX, tail);
  }

  lemma FieldJoins(bucket: int, workload: string, name: string)
    ensures FieldPrefix(bucket, workload) + name
         == FormatInt(bucket) + [':'] + (WORKLOAD_PREFIX + (workload + ":" + name))
  {
  }

  /** A field parses back to what it was built from exactly when the workload
      holds no colon; the counter name after it may hold any text. */
  lemma ParseFieldInverts(bucket: int, workload: string, name: string)
    requires MIN_INT64 <= bucket <= MAX_INT64
    ensures ParseField(FieldPrefix(bucket, workload) + name) == Some((bucket, workload, name))
            <==> ':' !in workload
  {
    FieldJoins(bucket, workload, name);
    ParseFieldCuts(bucket, workload + ":" + name);
    CutWorkload(workload, name);
  }

  /** Distinct (bucket, workload, counter) triples have distinct fields. */
  lemma FieldNamesDistinct(b1: int, w1: string, f1: Field, b2: int, w2: string, f2: Field)
    requires MIN_INT64 <= b1 <= MAX_INT64 && MIN_INT64 <= b2 <= MAX_INT64
    requires ':' !in w1 && ':' !in w2
    requires FieldName(b1, w1, f1) == FieldName(b2, w2, f2)
    ensures b1 == b2 && w1 == w2 && f1 == f2
  {
    ParseFieldInverts(b1, w1, CounterName(f1));
    ParseFieldInverts(b2, w2, CounterName(f2));
    FieldOfCounterName(f1);
    FieldOfCounterName(f2);
  }

  /** The colon-free condition cannot be dropped: for every bucket and workload
      w, workload w + ":pool" and a pool named api_requests share a field. */
  lemma ColonWorkloadsCollide(bucket: int, w: string)
    ensures FieldName(bucket, w + ":pool", ApiRequests) == FieldName(bucket, w, Pool(API_REQUESTS))
  {
    assert FormatInt(bucket) + ":" + WORKLOAD_PREFIX + (w + ":pool") + ":" + API_REQUESTS
        == FormatInt(bucket) + ":" + WORKLOAD_PREFIX + w + ":" + (POOL_PREFIX + API_REQUESTS);
  }

  // ---------------------------------------------------------------------
  // Keys
  // ---------------------------------------------------------------------

  /** {prefix}:usage:{backend} */
  function HashKey(prefix: string, backend: string): string {
    prefix + ":usage:" + backend
  }

  function StagedPrefix(prefix: string): string {
    prefix + ":usage-staged:"
  }

  /** {prefix}:usage-staged:{backend}:{flushID} */
  function StagedKey(prefix: string, backend: string, flushID: string): string {
    StagedPrefix(prefix) + backend + ":" + flushID
  }

  datatype StagedName = StagedName(backend: string, id: string)

  /** Splits at the last colon, refusing an empty half. */
  function SplitStaged(rest: string): Option<StagedName> {
    var sep := LastIndexOf(rest, ':');
    if sep <= 0 || sep == |rest| - 1 then None
    else Some(StagedName(rest[..sep], rest[sep + 1..]))
  }

  function ParseStagedKey(prefix: string, key: string): Option<StagedName> {
    match CutPrefix(key, StagedPrefix(prefix))
    case None => None
    case Some(rest) => SplitStaged(rest)
  }

  lemma SplitStagedInverts(backend: string, id: string)
    ensures SplitStaged(backend + [':'] + id) == Some(StagedName(backend, id))
            <==> backend != "" && id != "" && ':' !in id
  {
    var rest := backend + [':'] + id;
    var sep := LastIndexOf(rest, ':');
    assert rest[|backend|] == ':';
    if ':' in id {
      var k :| 0 <= k < |id| && id[k] == ':';
      assert rest[|backend| + 1 + k] == ':';
      assert sep > |backend|;
    } else {
      assert forall j :: |backend| < j < |rest| ==> rest[j] == id[j - |backend| - 1];
      assert sep == |backend|;
      assert rest[..sep] == backend && rest[sep + 1..] == id;
    }
  }

  /** A staged key parses back to its backend and flush ID exactly when both are
      non-empty and the ID holds no colon; the backend may hold any text. */
  lemma ParseStagedKeyInverts(prefix: string, backend: string, id: string)
    ensures ParseStagedKey(prefix, StagedKey(prefix, backend, id)) == Some(StagedName(backend, id))
            <==> backend != "" && id != "" && ':' !in id
  {
    var rest := backend + [':'] + id;
    assert StagedKey(prefix, backend, id) == StagedPrefix(prefix) + rest;
    CutPrefixJoined(StagedPrefix(prefix), rest);
    SplitStagedInverts(backend, id);
  }

  /** Whatever parses as a staged key is the key of what it parses to. */
  lemma ParseStagedKeySound(prefix: string, key: string)
    requires ParseStagedKey(prefix, key).Some?
    ensures
      var n := ParseStagedKey(prefix, key).value;
      key == StagedKey(prefix, n.backend, n.id) && n.backend != "" && n.id != "" && ':' !in n.id
  {
    var rest := key[|StagedPrefix(prefix)|..];
    var sep := LastIndexOf(rest, ':');
    assert key == StagedPrefix(prefix) + rest;
    assert rest == rest[..sep] + ":" + rest[sep + 1..];
    assert StagedPrefix(prefix) + (rest[..sep] + ":" + rest[sep + 1..])
        == StagedKey(prefix, rest[..sep], rest[sep + 1..]);
  }

  /** Live keys never read as staged ones, and name one backend each. */
  lemma LiveKeysApart(prefix: string, b1: string, b2: string)
    ensures ParseStagedKey(prefix, HashKey(prefix, b1)) == None
    ensures HashKey(prefix, b1) == HashKey(prefix, b2) ==> b1 == b2
  {
    var at := |prefix| + 6;
    assert HashKey(prefix, b1)[at] == ':';
    assert StagedPrefix(prefix)[at] == '-';
    assert HashKey(prefix, b1)[at + 1..] == b1;
    assert HashKey(prefix, b2)[at + 1..] == b2;
  }
}
