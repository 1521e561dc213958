/** Stored forms: the layers a copy's bytes carry, undone by Open and rewritten
    by Reform. Models internal/storedform/storedform.go and the flags of
    internal/store/core/storedflags.go. A reader is what reading it yields and how
    it stops. Random draws and calls that may fail are part of an environment. */
module StoredForm {
  import opened Common
  import opened Envelope
  import opened ChunkStream
  import opened CipherRange
  import opened Keys

  datatype Flag = Compressed | Encrypted | Hashed | Keyed

  datatype Form = Form(
    encrypted: bool, encryptionKey: Bytes, keyID: string, plaintextSize: nat,
    contentHash: string,
    compressionAlgorithm: string, compressionLevel: string, compressionVersion: nat, logicalSize: nat)
  {
    /** The flags the form's own fields imply. */
    function Flags(): set<Flag> {
      (if compressionAlgorithm != "" then {Compressed} else {})
      + (if encrypted then {Encrypted} else {})
      + (if contentHash != "" then {Hashed} else {})
      + (if encryptionKey != [] then {Keyed} else {})
    }
  }

  const PLAIN := Form(false, [], "", 0, "", "", "", 0, 0)
  const ALGORITHM := "zstd"
  const FORMAT_VERSION: nat := 1

  /** Compression as a pair of functions; None is an error. */
  datatype Codec = Codec(compress: Bytes -> Option<Bytes>, decompress: Bytes -> Option<Bytes>)

  /** What is asked of a codec: decoding undoes encoding, and nothing it decodes
      starts like an envelope, since every Zstandard frame has its own magic. */
  ghost predicate LawfulCodec(c: Codec) {
    && (forall x: Bytes :: c.compress(x).Some? ==> c.decompress(c.compress(x).value) == Some(x))
    && (forall y: Bytes :: c.decompress(y).Some? ==> !HasMagic(y))
  }

  type Positive = n: nat | n > 0 witness 1

  datatype Encryptor = Encryptor(provider: Provider, chunkSize: Positive)

  /** What a rewrite has at hand; a layer not configured is None. */
  datatype Layers = Layers(encryptor: Option<Encryptor>, codec: Option<Codec>, minRatio: real, level: string)

  /** What one rewrite draws at random, and whether the calls that can fail do:
      wrapping the data key and opening a buffer for the encoding. */
  datatype Env = Env(dek: Bytes, wrapNonce: Nonce, base: Nonce, wraps: bool, buffers: bool)

  datatype Error =
    | FlagMismatch | ReadFailed | NoEncryptor | DecryptFailed | NoCodec | CompressFailed | EncryptFailed
    | Declined(encodedSize: nat)

  // ---------------------------------------------------------------------
  // Undoing a stored form
  // ---------------------------------------------------------------------

  function EndingOf(stop: Stop): Ending {
    match stop
    case Clean => Eof
    case SourceError(code) => Other(code)
    case BadChunk => Other(0)
  }

  /** PeekEnvelope: whether a stream starts with the envelope's magic. */
  function Peek(body: Emission): Result<bool, Error> {
    if |body.out| < |MAGIC| && body.stop != Clean then Err(ReadFailed)
    else Ok(HasMagic(body.out))
  }

  /** DecryptStored of a whole object. */
  function Decrypt(p: Provider, body: Emission, row: Row): Result<Emission, Error> {
    match Opens(p, row)
    case None => Err(DecryptFailed)
    case Some((_, dek)) =>
      match ParseHeader(body.out)
      case Err(_) => Err(DecryptFailed)
      case Ok(h) =>
        var ps := Params(p.cipher, dek, h.base, h.chunkSize);
        Ok(DecryptAll(ps, 0, body.out[HEADER_SIZE..], EndingOf(body.stop)))
  }

  function Unseal(p: Option<Provider>, body: Emission, form: Form): Result<Emission, Error> {
    match Peek(body)
    case Err(e) => Err(e)
    case Ok(isEnvelope) =>
      if isEnvelope != form.encrypted then Err(FlagMismatch)
      else if !form.encrypted then Ok(body)
      else match p
           case None => Err(NoEncryptor)
           case Some(provider) => Decrypt(provider, body, Row(form.encryptionKey, form.keyID))
  }

  /** Decompressing a stream: what was decoded, or a stream that breaks. */
  function Inflate(codec: Codec, body: Emission): Emission {
    if body.stop != Clean then Emission([], body.stop)
    else match codec.decompress(body.out)
         case Some(x) => Emission(x, Clean)
         case None => Emission([], BadChunk)
  }

  function Decode(codec: Option<Codec>, body: Emission, form: Form): Result<Emission, Error> {
    if Compressed !in form.Flags() then Ok(body)
    else match codec
         case None => Err(NoCodec)
         case Some(c) => Ok(Inflate(c, body))
  }

  /** Decrypt, then decompress. */
  function Open(p: Option<Provider>, codec: Option<Codec>, body: Emission, form: Form): Result<Emission, Error> {
    match Unseal(p, body, form)
    case Err(e) => Err(e)
    case Ok(unsealed) => Decode(codec, unsealed, form)
  }

  // ---------------------------------------------------------------------
  // Rewriting a stored form
  // ---------------------------------------------------------------------

  function WorthStoring(logical: nat, encoded: nat, minRatio: real): bool {
    logical > 0 && encoded as real <= logical as real * minRatio
  }

  function SealParams(enc: Encryptor, env: Env): Params {
    Params(enc.provider.cipher, env.dek, env.base, enc.chunkSize)
  }

  /** The envelope's bytes as a stream. */
  function SealBody(enc: Encryptor, env: Env, body: Emission): Emission {
    var ps := SealParams(enc, env);
    EncryptAll(ps, 0, body.out, EndingOf(body.stop)).After(Header(ps.chunkSize, ps.base))
  }

  /** Bytes to send, how many they are, and the form that describes them. */
  datatype Out = Out(body: Emission, size: nat, form: Form)

  /** A reform's work on the compression layer. */
  function Recode(l: Layers, env: Env, body: Emission, size: nat, from: Form, want: set<Flag>, form: Form): Result<Out, Error> {
    if Compressed in from.Flags() && Compressed in want then
      Ok(Out(body, size, form.(compressionAlgorithm := from.compressionAlgorithm, compressionLevel := from.compressionLevel,
                               compressionVersion := from.compressionVersion, logicalSize := from.logicalSize)))
    else if Compressed in from.Flags() then
      match Decode(l.codec, body, from)
      case Err(e) => Err(e)
      case Ok(decoded) => Ok(Out(decoded, from.logicalSize, form))
    else if Compressed in want then Encode(l, env, body, size, form)
    else Ok(Out(body, size, form))
  }

  function Encode(l: Layers, env: Env, body: Emission, logical: nat, form: Form): Result<Out, Error> {
    if l.codec.None? then Err(NoCodec)
    else if !env.buffers || body.stop != Clean then Err(CompressFailed)
    else match l.codec.value.compress(body.out)
         case None => Err(CompressFailed)
         case Some(encoded) =>
           if !WorthStoring(logical, |encoded|, l.minRatio) then Err(Declined(|encoded|))
           else Ok(Out(Emission(encoded, Clean), |encoded|,
                       form.(compressionAlgorithm := ALGORITHM, compressionLevel := l.level,
                             compressionVersion := FORMAT_VERSION, logicalSize := logical)))
  }

  /** The encryption half of a reform. */
  function Resealed(l: Layers, env: Env, out: Out, want: set<Flag>): Result<Out, Error> {
    if Encrypted !in want then Ok(out)
    else if l.encryptor.None? then Err(NoEncryptor)
    else
      var enc := l.encryptor.value;
      if !env.wraps then Err(EncryptFailed)
      else
        var wrapped := Wrap(enc.provider.cipher, enc.provider.primary, env.wrapNonce, env.dek);
        Ok(Out(SealBody(enc, env, out.body), CiphertextSize(out.size, enc.chunkSize),
               out.form.(encrypted := true, encryptionKey := PackKeyData(env.base, wrapped),
                         keyID := enc.provider.primary.id, plaintextSize := out.size)))
  }

  function ProviderOf(l: Layers): Option<Provider> {
    match l.encryptor
    case None => None
    case Some(e) => Some(e.provider)
  }

  /** A copy's bytes in the form that carries the wanted layers. */
  function Reform(l: Layers, env: Env, body: Emission, storedSize: nat, from: Form, want: set<Flag>): Result<Out, Error> {
    match Unseal(ProviderOf(l), body, from)
    case Err(e) => Err(e)
    case Ok(unsealed) =>
      var size := if from.encrypted then from.plaintextSize else storedSize;
      match Recode(l, env, unsealed, size, from, want, PLAIN.(contentHash := from.contentHash))
      case Err(e) => Err(e)
      case Ok(out) => Resealed(l, env, out, want)
  }

  // ---------------------------------------------------------------------
  // A reform preserves meaning
  // ---------------------------------------------------------------------

  /** The bytes under the envelope, for a copy whose row agrees with its bytes. */
  function Inner(p: Provider, bytes: Bytes, form: Form): Bytes {
    match Unseal(Some(p), Emission(bytes, Clean), form)
    case Ok(e) => e.out
    case Err(_) => []
  }

  /** A well-formed copy of the client's bytes: opening it gives them back, and
      the sizes the row records are the true ones. */
  ghost predicate Holds(p: Provider, codec: Codec, bytes: Bytes, form: Form, client: Bytes) {
    && Open(Some(p), Some(codec), Emission(bytes, Clean), form) == Ok(Emission(client, Clean))
    && (form.encrypted ==> form.plaintextSize == |Inner(p, bytes, form)|)
    && (Compressed in form.Flags() ==> form.logicalSize == |client|)
  }

  /** A rewrite's layers agree with what opens the copies: each is the one that
      does, or is not configured. */
  ghost predicate Agrees(l: Layers, p: Provider, codec: Codec) {
    && Sound(p) && LawfulCodec(codec)
    && (l.codec == None || l.codec == Some(codec))
    && (l.encryptor.Some? ==> l.encryptor.value.provider == p && l.encryptor.value.chunkSize <= MAX_CHUNK_SIZE)
  }

  /** Layers that agree exist: a provider with two keys, and a codec that puts a
      zero byte in front. */
  lemma AgreementExists() returns (l: Layers, p: Provider, codec: Codec)
    ensures Agrees(l, p, codec) && l.encryptor.Some? && l.codec.Some?
  {
    p := SoundProviderExists();
    codec := Codec((x: Bytes) => Some([0] + x),
                   (y: Bytes) => if y != [] && y[0] == 0 then Some(y[1..]) else None);
    l := Layers(Some(Encryptor(p, 1)), Some(codec), 1.0, "");
    assert forall x: Bytes :: ([0] + x)[1..] == x;
  }

  /** Sealing text gives its envelope, and unsealing gives the text back. */
  lemma SealThenUnseal(enc: Encryptor, env: Env, text: Bytes, form: Form)
    requires Sound(enc.provider) && enc.chunkSize <= MAX_CHUNK_SIZE
    requires form.encrypted && form.keyID == enc.provider.primary.id
    requires form.encryptionKey
      == PackKeyData(env.base, Wrap(enc.provider.cipher, enc.provider.primary, env.wrapNonce, env.dek))
    ensures SealBody(enc, env, Emission(text, Clean)) == Emission(Envelop(SealParams(enc, env), text), Clean)
    ensures |Envelop(SealParams(enc, env), text)| == CiphertextSize(|text|, enc.chunkSize)
    ensures Unseal(Some(enc.provider), SealBody(enc, env, Emission(text, Clean)), form) == Ok(Emission(text, Clean))
  {
    var ps, p := SealParams(enc, env), enc.provider;
    var wrapped := Wrap(p.cipher, p.primary, env.wrapNonce, env.dek);
    EncryptsFrames(ps, 0, text);
    EnvelopSize(ps, text);
    HeaderInverts(ps.chunkSize, ps.base, Frames(ps, 0, text));
    assert Envelop(ps, text)[HEADER_SIZE..] == Frames(ps, 0, text);
    DecryptsFrames(ps, 0, text);
    PackInverts(env.base, wrapped);
    UnwrapsExactly(p, p.primary, env.wrapNonce, env.dek, p.primary.id);
  }

  /** What a reform's compression half hands on: bytes that the new form decodes
      to the client's, with true sizes and no envelope's magic in front of an
      encoding. */
  lemma RecodeKeeps(l: Layers, env: Env, p: Provider, codec: Codec, inner: Bytes, from: Form, want: set<Flag>, client: Bytes)
    requires Agrees(l, p, codec)
    requires Decode(Some(codec), Emission(inner, Clean), from) == Ok(Emission(client, Clean))
    requires Compressed in from.Flags() ==> from.logicalSize == |client|
    requires Recode(l, env, Emission(inner, Clean), |inner|, from, want, PLAIN.(contentHash := from.contentHash)).Ok?
    ensures
      var out := Recode(l, env, Emission(inner, Clean), |inner|, from, want, PLAIN.(contentHash := from.contentHash)).value;
      && out.body == Emission(out.body.out, Clean) && out.size == |out.body.out|
      && !out.form.encrypted && out.form.contentHash == from.contentHash
      && (Compressed in out.form.Flags() <==> Compressed in want)
      && Decode(Some(codec), out.body, out.form) == Ok(Emission(client, Clean))
      && (Compressed in want ==> out.form.logicalSize == |client| && !HasMagic(out.body.out))
      && (Compressed !in want ==> out.body.out == client)
  {
  }

  /** A recoded copy left without an envelope. */
  lemma BareHolds(p: Provider, codec: Codec, out: Out, want: set<Flag>, client: Bytes)
    requires out.body.stop == Clean && !out.form.encrypted
    requires Compressed in out.form.Flags() <==> Compressed in want
    requires Decode(Some(codec), out.body, out.form) == Ok(Emission(client, Clean))
    requires Compressed in want ==> out.form.logicalSize == |client| && !HasMagic(out.body.out)
    requires Compressed !in want ==> out.body.out == client
    ensures Holds(p, codec, out.body.out, out.form, client) <==> Compressed in want || !HasMagic(client)
  {
    assert Emission(out.body.out, Clean) == out.body;
  }

  /** A recoded copy put under an envelope. */
  lemma SealedHolds(l: Layers, env: Env, p: Provider, codec: Codec, mid: Out, want: set<Flag>, client: Bytes)
    requires Agrees(l, p, codec) && Encrypted in want && Resealed(l, env, mid, want).Ok?
    requires mid.body.stop == Clean && mid.size == |mid.body.out|
    requires Decode(Some(codec), mid.body, mid.form) == Ok(Emission(client, Clean))
    requires Compressed in mid.form.Flags() ==> mid.form.logicalSize == |client|
    ensures
      var out := Resealed(l, env, mid, want).value;
      && out.body == Emission(out.body.out, Clean) && out.size == |out.body.out|
      && Holds(p, codec, out.body.out, out.form, client)
  {
    var out := Resealed(l, env, mid, want).value;
    assert mid.body == Emission(mid.body.out, Clean);
    SealThenUnseal(l.encryptor.value, env, mid.body.out, out.form);
    assert Compressed in out.form.Flags() <==> Compressed in mid.form.Flags();
  }

  /** Reform preserves meaning. A reform that succeeds yields a clean body of
      exactly the size it reports, a form with exactly the wanted layers and the
      same content hash, and a copy that still holds the client's bytes: exactly
      when it carries a layer, or the client's bytes do not start with the
      envelope's magic. */
  lemma ReformKeepsMeaning(
      l: Layers, env: Env, p: Provider, codec: Codec, bytes: Bytes, from: Form, want: set<Flag>, client: Bytes)
    requires Agrees(l, p, codec) && Holds(p, codec, bytes, from, client)
    requires Reform(l, env, Emission(bytes, Clean), |bytes|, from, want).Ok?
    ensures
      var out := Reform(l, env, Emission(bytes, Clean), |bytes|, from, want).value;
      && out.body == Emission(out.body.out, Clean) && out.size == |out.body.out|
      && out.form.contentHash == from.contentHash
      && (Compressed in out.form.Flags() <==> Compressed in want)
      && (Encrypted in out.form.Flags() <==> Encrypted in want)
      && (Holds(p, codec, out.body.out, out.form, client)
          <==> Encrypted in want || Compressed in want || !HasMagic(client))
  {
    var inner := Inner(p, bytes, from);
    assert Unseal(ProviderOf(l), Emission(bytes, Clean), from) == Ok(Emission(inner, Clean));
    RecodeKeeps(l, env, p, codec, inner, from, want, client);
    var mid := Recode(l, env, Emission(inner, Clean), |inner|, from, want, PLAIN.(contentHash := from.contentHash)).value;
    if Encrypted in want {
      SealedHolds(l, env, p, codec, mid, want, client);
    } else {
      BareHolds(p, codec, mid, want, client);
    }
  }

  /** The row of a sealed, uncompressed copy of text. */
  function SealedForm(enc: Encryptor, env: Env, text: Bytes): Form {
    PLAIN.(encrypted := true, keyID := enc.provider.primary.id, plaintextSize := |text|,
           encryptionKey := PackKeyData(env.base, Wrap(enc.provider.cipher, enc.provider.primary, env.wrapNonce, env.dek)))
  }

  /** The other side of that condition: bytes that start with the envelope's magic
      are held by a sealed copy, a reform that strips the seal succeeds on it, and
      what it wrote no longer opens. */
  lemma StrippedMagicIsLost(l: Layers, enc: Encryptor, env: Env, codec: Codec, text: Bytes)
    requires Agrees(l, enc.provider, codec) && l.encryptor == Some(enc) && HasMagic(text)
    ensures
      var sealed := Envelop(SealParams(enc, env), text);
      var form := SealedForm(enc, env, text);
      && Holds(enc.provider, codec, sealed, form, text)
      && Reform(l, env, Emission(sealed, Clean), |sealed|, form, {}) == Ok(Out(Emission(text, Clean), |text|, PLAIN))
      && Open(Some(enc.provider), Some(codec), Emission(text, Clean), PLAIN) == Err(FlagMismatch)
  {
    SealThenUnseal(enc, env, text, SealedForm(enc, env, text));
  }

  datatype Turn = Turn(layers: Layers, env: Env, want: set<Flag>)

  /** A chain of reforms, each rewriting what the last one wrote. */
  function Chain(turns: seq<Turn>, bytes: Bytes, form: Form): Result<Out, Error> {
    if turns == [] then Ok(Out(Emission(bytes, Clean), |bytes|, form))
    else
      match Chain(turns[..|turns| - 1], bytes, form)
      case Err(e) => Err(e)
      case Ok(out) =>
        var t := turns[|turns| - 1];
        Reform(t.layers, t.env, out.body, out.size, out.form, t.want)
  }

  /** A layer is kept, or none is needed to tell the bytes from an envelope. */
  predicate Survives(want: set<Flag>, client: Bytes) {
    Encrypted in want || Compressed in want || !HasMagic(client)
  }

  /** A reform to no layers writes the client's bytes as they are. */
  lemma BareIsClient(
      l: Layers, env: Env, p: Provider, codec: Codec, bytes: Bytes, from: Form, want: set<Flag>, client: Bytes)
    requires Agrees(l, p, codec) && Holds(p, codec, bytes, from, client)
    requires Reform(l, env, Emission(bytes, Clean), |bytes|, from, want).Ok?
    requires Encrypted !in want && Compressed !in want
    ensures
      var out := Reform(l, env, Emission(bytes, Clean), |bytes|, from, want).value;
      out.body.out == client && !out.form.encrypted
  {
    var inner := Inner(p, bytes, from);
    assert Unseal(ProviderOf(l), Emission(bytes, Clean), from) == Ok(Emission(inner, Clean));
    RecodeKeeps(l, env, p, codec, inner, from, want, client);
  }

  /** What an envelope's magic is in front of, with no envelope recorded, is not
      reformed again. */
  lemma MagicStops(l: Layers, env: Env, bytes: Bytes, size: nat, from: Form, want: set<Flag>)
    requires HasMagic(bytes) && !from.encrypted
    ensures Reform(l, env, Emission(bytes, Clean), size, from, want) == Err(FlagMismatch)
  {
  }

  /** Any chain of reforms that succeeds ends with exactly the layers last wanted
      and the same content hash, and its copy holds the client's bytes exactly when
      the last reform keeps a layer or they do not start with the magic. */
  lemma {:induction false} ChainKeepsMeaning(turns: seq<Turn>, p: Provider, codec: Codec, bytes: Bytes, form: Form, client: Bytes)
    requires forall i | 0 <= i < |turns| :: Agrees(turns[i].layers, p, codec)
    requires turns != [] && Holds(p, codec, bytes, form, client) && Chain(turns, bytes, form).Ok?
    ensures
      var out, want := Chain(turns, bytes, form).value, turns[|turns| - 1].want;
      && out.body == Emission(out.body.out, Clean) && out.size == |out.body.out|
      && out.form.contentHash == form.contentHash
      && (Compressed in out.form.Flags() <==> Compressed in want)
      && (Encrypted in out.form.Flags() <==> Encrypted in want)
      && (Holds(p, codec, out.body.out, out.form, client) <==> Survives(want, client))
      && (!Survives(want, client) ==> out.body.out == client && !out.form.encrypted)
  {
    var n := |turns| - 1;
    var t, front := turns[n], turns[..n];
    var mid := Chain(front, bytes, form).value;
    if front != [] {
      ChainKeepsMeaning(front, p, codec, bytes, form, client);
      if !Survives(turns[n - 1].want, client) {
        MagicStops(t.layers, t.env, mid.body.out, mid.size, mid.form, t.want);
        assert false;
      }
    }
    LastTurn(t, p, codec, mid, client);
  }

  lemma LastTurn(t: Turn, p: Provider, codec: Codec, mid: Out, client: Bytes)
    requires Agrees(t.layers, p, codec) && mid.body == Emission(mid.body.out, Clean) && mid.size == |mid.body.out|
    requires Holds(p, codec, mid.body.out, mid.form, client)
    requires Reform(t.layers, t.env, mid.body, mid.size, mid.form, t.want).Ok?
    ensures
      var out := Reform(t.layers, t.env, mid.body, mid.size, mid.form, t.want).value;
      && out.body == Emission(out.body.out, Clean) && out.size == |out.body.out|
      && out.form.contentHash == mid.form.contentHash
      && (Compressed in out.form.Flags() <==> Compressed in t.want)
      && (Encrypted in out.form.Flags() <==> Encrypted in t.want)
      && (Holds(p, codec, out.body.out, out.form, client) <==> Survives(t.want, client))
      && (!Survives(t.want, client) ==> out.body.out == client && !out.form.encrypted)
  {
    ReformKeepsMeaning(t.layers, t.env, p, codec, mid.body.out, mid.form, t.want, client);
    if !Survives(t.want, client) {
      BareIsClient(t.layers, t.env, p, codec, mid.body.out, mid.form, t.want, client);
    }
  }

  /** DecryptStored of a range: the base nonce comes from the row, so the header
      need not be fetched. */
  function OpenRange(p: Provider, row: Row, fetch: (nat, nat) -> Option<Bytes>, textSize: int, cipherSize: int, start: int, end: int)
    : Option<Emission>
  {
    match Opens(p, row)
    case None => None
    case Some((base, dek)) =>
      RangedRead(Params(p.cipher, dek, base, 1), fetch, textSize, cipherSize, start, end)
  }

  /** A range of a sealed copy is that slice of what was sealed. */
  lemma SealedRangeIsSlice(
      enc: Encryptor, env: Env, k: nat, fetch: (nat, nat) -> Option<Bytes>, text: Bytes, start: nat, end: nat)
    requires Sound(enc.provider) && enc.chunkSize == Pow2(k) && start <= end < |text|
    requires |Envelop(SealParams(enc, env), text)| + enc.chunkSize + CHUNK_OVERHEAD <= MAX_INT64
    requires Honours(fetch, Envelop(SealParams(enc, env), text))
    ensures
      var p := enc.provider;
      var row := Row(PackKeyData(env.base, Wrap(p.cipher, p.primary, env.wrapNonce, env.dek)), p.primary.id);
      OpenRange(p, row, fetch, |text|, |Envelop(SealParams(enc, env), text)|, start, end)
      == Some(Emission(text[start..end + 1], Clean))
  {
    var p := enc.provider;
    PackInverts(env.base, Wrap(p.cipher, p.primary, env.wrapNonce, env.dek));
    UnwrapsExactly(p, p.primary, env.wrapNonce, env.dek, p.primary.id);
    RangedReadIsSlice(SealParams(enc, env), k, fetch, text, start, end);
  }

  /** Rotating a copy's key changes nothing about how the copy opens, whole or in
      any range. */
  lemma RotatedOpensAlike(
      p: Provider, codec: Option<Codec>, body: Emission, form: Form, nonce: Nonce,
      fetch: (nat, nat) -> Option<Bytes>, textSize: int, cipherSize: int, start: int, end: int)
    requires Sound(p)
    requires Rotated(p, Row(form.encryptionKey, form.keyID), nonce).Some?
    ensures
      var row := Rotated(p, Row(form.encryptionKey, form.keyID), nonce).value;
      && Open(Some(p), codec, body, form.(encryptionKey := row.blob, keyID := row.keyID))
         == Open(Some(p), codec, body, form)
      && OpenRange(p, row, fetch, textSize, cipherSize, start, end)
         == OpenRange(p, Row(form.encryptionKey, form.keyID), fetch, textSize, cipherSize, start, end)
  {
    RotationKeepsAccess(p, p, Row(form.encryptionKey, form.keyID), nonce);
  }

  // ---------------------------------------------------------------------
  // What a reform opens, it releases once
  // ---------------------------------------------------------------------

  function Ids(release: seq<nat>): set<nat> {
    set id | id in release
  }

  predicate Distinct(release: seq<nat>) {
    forall i, j :: 0 <= i < j < |release| ==> release[i] != release[j]
  }

  /** The buffers and decoders open right now. Cleaning one up that is not open
      would be a second release, and is not allowed. */
  class Resources {
    var open: set<nat>
    var next: nat

    ghost predicate Valid()
      reads this
    {
      forall id | id in open :: id < next
    }

    method Acquire() returns (id: nat)
      requires Valid()
      modifies this
      ensures Valid() && id !in old(open) && open == old(open) + {id}
    {
      id := next;
      next := next + 1;
      open := open + {id};
    }

    method Cleanup(id: nat)
      requires Valid() && id in open
      modifies this
      ensures Valid() && open == old(open) - {id}
    {
      open := open - {id};
    }
  }

  class Reformed {
    var body: Emission
    var size: nat
    var form: Form
    var release: seq<nat>

    constructor (form: Form)
      ensures this.form == form && release == []
    {
      this.form, body, size, release := form, Emission([], Clean), 0, [];
    }

    /** Frees what the reform opened; a second call frees nothing. */
    method Release(res: Resources)
      requires res.Valid() && Distinct(release) && Ids(release) <= res.open
      modifies this`release, res
      ensures res.Valid() && res.open == old(res.open) - Ids(old(release)) && release == []
    {
      var i := 0;
      while i < |release|
        invariant 0 <= i <= |release| && release == old(release)
        invariant res.Valid() && res.open == old(res.open) - Ids(release[..i])
      {
        assert release[..i + 1] == release[..i] + [release[i]];
        res.Cleanup(release[i]);
        i := i + 1;
      }
      assert release[..i] == release;
      release := [];
    }
  }

  /** What a step of a reform leaves open: what it opened is listed for release,
      each once, and a step that fails leaves nothing. */
  ghost predicate Listed(was: set<nat>, open: set<nat>, release: seq<nat>) {
    Distinct(release) && was !! Ids(release) && open == was + Ids(release)
  }

  /** encode: compresses into a buffer, keeping the buffer only when it is used. */
  method EncodeInto(l: Layers, env: Env, res: Resources, body: Emission, logical: nat, out: Reformed) returns (r: Result<Out, Error>)
    requires res.Valid() && out.release == []
    modifies res, out
    ensures res.Valid() && r == Encode(l, env, body, logical, old(out.form))
    ensures r.Ok? ==> out.form == r.value.form
    ensures Listed(old(res.open), res.open, out.release) && (r.Err? ==> out.release == [])
  {
    if l.codec.None? {
      return Err(NoCodec);
    }
    if !env.buffers {
      return Err(CompressFailed);
    }
    var buf := res.Acquire();
    if body.stop != Clean || l.codec.value.compress(body.out).None? {
      res.Cleanup(buf);
      return Err(CompressFailed);
    }
    var encoded := l.codec.value.compress(body.out).value;
    if !WorthStoring(logical, |encoded|, l.minRatio) {
      res.Cleanup(buf);
      return Err(Declined(|encoded|));
    }
    out.release := out.release + [buf];
    assert Ids(out.release) == {buf};
    out.form := out.form.(compressionAlgorithm := ALGORITHM, compressionLevel := l.level,
                          compressionVersion := FORMAT_VERSION, logicalSize := logical);
    return Ok(Out(Emission(encoded, Clean), |encoded|, out.form));
  }

  /** recode, which fills the form in place. */
  method RecodeInto(l: Layers, env: Env, res: Resources, body: Emission, size: nat, from: Form, want: set<Flag>, out: Reformed)
      returns (r: Result<Out, Error>)
    requires res.Valid() && out.release == []
    modifies res, out
    ensures res.Valid() && r == Recode(l, env, body, size, from, want, old(out.form))
    ensures r.Ok? ==> out.form == r.value.form
    ensures Listed(old(res.open), res.open, out.release) && (r.Err? ==> out.release == [])
  {
    var have := Compressed in from.Flags();
    if have && Compressed in want {
      out.form := out.form.(compressionAlgorithm := from.compressionAlgorithm, compressionLevel := from.compressionLevel,
                            compressionVersion := from.compressionVersion, logicalSize := from.logicalSize);
      return Ok(Out(body, size, out.form));
    } else if have {
      var decoded := Decode(l.codec, body, from);
      if decoded.Err? {
        return Err(decoded.error);
      }
      var closer := res.Acquire();
      out.release := out.release + [closer];
      assert Ids(out.release) == {closer};
      return Ok(Out(decoded.value, from.logicalSize, out.form));
    } else if Compressed in want {
      r := EncodeInto(l, env, res, body, size, out);
      return;
    }
    return Ok(Out(body, size, out.form));
  }

  /** Reform as it runs: what it returns is the reform of its arguments; a failed
      or declined reform leaves nothing open, and a successful one exactly what
      its release list names, so that Release puts everything back. */
  method ReformInto(l: Layers, env: Env, res: Resources, body: Emission, storedSize: nat, from: Form, want: set<Flag>)
      returns (err: Option<Error>, out: Reformed)
    requires res.Valid()
    modifies res
    ensures res.Valid() && fresh(out)
    ensures match Reform(l, env, body, storedSize, from, want)
            case Ok(o) => err == None && out.body == o.body && out.size == o.size && out.form == o.form
            case Err(e) => err == Some(e) && res.open == old(res.open) && out.release == []
    ensures Listed(old(res.open), res.open, out.release)
  {
    out := new Reformed(PLAIN.(contentHash := from.contentHash));
    var unsealed := Unseal(ProviderOf(l), body, from);
    if unsealed.Err? {
      return Some(unsealed.error), out;
    }
    var size := if from.encrypted then from.plaintextSize else storedSize;
    var recoded := RecodeInto(l, env, res, unsealed.value, size, from, want, out);
    if recoded.Err? {
      out.Release(res);
      return Some(recoded.error), out;
    }
    var sealed := Resealed(l, env, recoded.value, want);
    if sealed.Err? {
      out.Release(res);
      return Some(sealed.error), out;
    }
    out.body, out.size, out.form := sealed.value.body, sealed.value.size, sealed.value.form;
    return None, out;
  }
}
