/** Ranged reads of an encrypted object: recovering the chunk size from two
    lengths, translating a plaintext range to the ciphertext bytes that hold it,
    and cutting the range out of what those bytes decrypt to. Models
    internal/encryption/range.go, the ranged half of decryptStored in
    internal/encryption/encryption.go, internal/util/ioutilx/window.go and
    internal/util/byterange/byterange.go. Lengths are unbounded integers. */
module CipherRange {
  import opened Common
  import opened Text
  import opened Framing
  import opened Envelope
  import opened ChunkStream

  // ---------------------------------------------------------------------
  // The chunk size an envelope was written with
  // ---------------------------------------------------------------------

  /** Integer division truncating toward zero. */
  function TruncDiv(a: int, b: nat): int
    requires b > 0
  {
    if a >= 0 then a / b else 0 - (0 - a) / b
  }

  /** bits.Len64: how many bits n takes. */
  function BitLen(n: nat): nat {
    if n == 0 then 0 else 1 + BitLen(n / 2)
  }

  function ChunkSizeOf(textSize: int, cipherSize: int): Option<nat> {
    var chunks := TruncDiv(cipherSize - HEADER_SIZE - textSize, CHUNK_OVERHEAD);
    if chunks > 0 && textSize > 0 then
      var perChunk := (textSize + chunks - 1) / chunks;
      var cs := Pow2(BitLen(perChunk - 1));
      if CiphertextSize(textSize, cs) == cipherSize then Some(cs) else None
    else None
  }

  lemma {:induction false} BitLenBounds(n: nat)
    ensures n < Pow2(BitLen(n))
    ensures n > 0 ==> Pow2(BitLen(n)) <= 2 * n
  {
    if n > 1 {
      BitLenBounds(n / 2);
    }
  }

  lemma {:induction false} Pow2Monotone(i: nat, j: nat)
    requires i <= j
    ensures Pow2(i) <= Pow2(j)
    ensures i < j ==> 2 * Pow2(i) <= Pow2(j)
  {
    if i < j {
      Pow2Monotone(i, j - 1);
    }
  }

  lemma ChunksBounds(n: nat, cs: nat)
    requires n > 0 && cs > 0
    ensures Chunks(n, cs) >= 1
    ensures (Chunks(n, cs) - 1) * cs < n <= Chunks(n, cs) * cs
    ensures Chunks(n, cs) == 1 <==> n <= cs
  {
    var q, r := n / cs, n % cs;
    assert n == q * cs + r;
    if r == 0 {
      assert q * cs == n && (q - 1) * cs == n - cs;
      assert q >= 1;
      assert q >= 2 ==> q * cs >= 2 * cs;
    } else {
      assert (q + 1) * cs == n - r + cs;
      assert q >= 1 ==> q * cs >= cs;
    }
  }

  lemma CeilDiv(n: nat, m: nat, q: nat)
    requires n > 0 && m > 0 && q == (n + m - 1) / m
    ensures 0 < q && (q - 1) * m < n <= q * m
  {
    assert n + m - 1 == q * m + (n + m - 1) % m;
    assert (q - 1) * m == q * m - m;
  }

  lemma MulMonotone(a: int, b: int, m: nat)
    requires a <= b
    ensures a * m <= b * m
  {
  }

  /** An even share of a text cut into two or more chunks is over half a chunk. */
  lemma ShareBounds(n: nat, cs: nat, chunks: nat, per: nat)
    requires chunks >= 2
    requires (chunks - 1) * cs < n <= chunks * cs
    requires (per - 1) * chunks < n <= per * chunks
    ensures per <= cs < 2 * per
  {
    if per > cs {
      MulMonotone(cs, per - 1, chunks);
    }
    if 2 * per <= cs {
      MulMonotone(2 * per, cs, chunks);
      assert (2 * per) * chunks == per * chunks + per * chunks;
      assert (chunks - 1) * cs == chunks * cs - cs;
      MulMonotone(2, chunks, cs);
    }
  }

  /** Rounding up to a power of two. */
  lemma RoundsUpTo(per: nat, k: nat)
    requires 0 < per <= Pow2(k) < 2 * per
    ensures Pow2(BitLen(per - 1)) == Pow2(k)
  {
    var m := BitLen(per - 1);
    BitLenBounds(per - 1);
    if m > k {
      Pow2Monotone(k, m);
    } else {
      Pow2Monotone(m, k);
    }
  }

  /** Rounding a chunk's share of the text up to a power of two gives the power
      of two the text was cut by, once it was cut at all. */
  lemma ShareRoundsUp(n: nat, k: nat, chunks: nat, per: nat)
    requires n > 0 && chunks == Chunks(n, Pow2(k)) && chunks >= 2
    requires per == (n + chunks - 1) / chunks
    ensures per > 0 && Pow2(BitLen(per - 1)) == Pow2(k)
  {
    ChunksBounds(n, Pow2(k));
    CeilDiv(n, chunks, per);
    ShareBounds(n, Pow2(k), chunks, per);
    RoundsUpTo(per, k);
  }

  /** The number of chunks can be read off the two sizes. */
  lemma CountsChunks(n: nat, cs: nat)
    requires n > 0 && cs > 0
    ensures TruncDiv(CiphertextSize(n, cs) - HEADER_SIZE - n, CHUNK_OVERHEAD) == Chunks(n, cs)
  {
    CiphertextSizeByChunks(n, cs);
  }

  /** A text cut into two or more chunks gives back the power of two it was cut by. */
  lemma ChunkSizeOfMany(n: nat, k: nat)
    requires n > 0 && Chunks(n, Pow2(k)) >= 2
    ensures ChunkSizeOf(n, CiphertextSize(n, Pow2(k))) == Some(Pow2(k))
  {
    var chunks := Chunks(n, Pow2(k));
    CountsChunks(n, Pow2(k));
    ShareRoundsUp(n, k, chunks, (n + chunks - 1) / chunks);
  }

  /** The smallest power of two that holds n. */
  lemma SmallestHolding(n: nat, k: nat)
    requires 0 < n <= Pow2(k)
    ensures n <= Pow2(BitLen(n - 1)) <= Pow2(k)
    ensures Pow2(BitLen(n - 1)) == 1 || Pow2(BitLen(n - 1)) < 2 * n
  {
    var m := BitLen(n - 1);
    BitLenBounds(n - 1);
    if m > k {
      Pow2Monotone(k, m);
    } else {
      Pow2Monotone(m, k);
    }
  }

  lemma OneChunkSize(n: nat, cs: nat)
    requires 0 < n <= cs
    ensures CiphertextSize(n, cs) == HEADER_SIZE + n + CHUNK_OVERHEAD
  {
    ChunksBounds(n, cs);
    CiphertextSizeByChunks(n, cs);
  }

  /** A text of one chunk gives the smallest power of two that holds it, which
      lays it out the same. */
  lemma ChunkSizeOfOne(n: nat, k: nat)
    requires 0 < n <= Pow2(k)
    ensures
      var cs := Pow2(BitLen(n - 1));
      && ChunkSizeOf(n, CiphertextSize(n, Pow2(k))) == Some(cs)
      && n <= cs <= Pow2(k)
      && (cs == 1 || cs < 2 * n)
  {
    SmallestHolding(n, k);
    OneChunkSize(n, Pow2(k));
    OneChunkSize(n, Pow2(BitLen(n - 1)));
    var size := CiphertextSize(n, Pow2(k));
    assert TruncDiv(size - HEADER_SIZE - n, CHUNK_OVERHEAD) == 1;
    assert (n + 1 - 1) / 1 == n;
  }

  /** A chunk size is found exactly when some power of two gives an envelope of
      these two sizes, and then it is one that does. */
  lemma ChunkSizeOfExact(n: int, cipherSize: int)
    ensures ChunkSizeOf(n, cipherSize).Some?
            <==> n > 0 && exists k: nat :: CiphertextSize(n, Pow2(k)) == cipherSize
    ensures ChunkSizeOf(n, cipherSize).Some? ==>
              var cs := ChunkSizeOf(n, cipherSize).value;
              CiphertextSize(n, cs) == cipherSize && exists k: nat :: cs == Pow2(k)
  {
    if n > 0 && exists k: nat :: CiphertextSize(n, Pow2(k)) == cipherSize {
      var k: nat :| CiphertextSize(n, Pow2(k)) == cipherSize;
      ChunksBounds(n, Pow2(k));
      if Chunks(n, Pow2(k)) >= 2 {
        ChunkSizeOfMany(n, k);
      } else {
        ChunkSizeOfOne(n, k);
      }
    }
  }

  // ---------------------------------------------------------------------
  // Byte-range headers
  // ---------------------------------------------------------------------

  /** The Range request header for inclusive offsets. */
  function RangeHeader(start: int, end: int): string {
    "bytes=" + (FormatInt(start) + ['-'] + FormatInt(end))
  }

  /** The bytes a Range header names in an object that long, its end clamped as
      section 14.1.2 of RFC 9110 asks. */
  function ParseRange(header: string, size: int): Option<(int, int)> {
    match CutPrefix(header, "bytes=")
    case None => None
    case Some(spec) =>
      match Cut(spec, '-')
      case None => None
      case Some((from, to)) =>
        if from == "" then
          match ParseInt(to)
          case None => None
          case Some(n) => if n <= 0 then None else Some((Max(size - n, 0), size - 1))
        else
          match ParseInt(from)
          case None => None
          case Some(start) =>
            if start < 0 || start >= size then None
            else if to == "" then Some((start, size - 1))
            else match ParseInt(to)
                 case None => None
                 case Some(end) => if end < start then None else Some((start, Min(end, size - 1)))
  }

  /** A header the ranged read sends resolves to the bytes it names, clamped to
      the object. */
  lemma ParseRangeInverts(start: int, end: int, size: int)
    requires 0 <= start <= end <= MAX_INT64 && start < size
    ensures ParseRange(RangeHeader(start, end), size) == Some((start, Min(end, size - 1)))
  {
    var from, to := FormatInt(start), FormatInt(end);
    CutPrefixJoined("bytes=", from + ['-'] + to);
    FormatNatSpells(start);
    FormatNatSpells(end);
    assert '-' !in from;
    CutJoined(from, '-', to);
    ParseFormat(start);
    ParseFormat(end);
  }

  // ---------------------------------------------------------------------
  // Translating a plaintext range
  // ---------------------------------------------------------------------

  /** The ciphertext bytes to fetch, sent as RangeHeader(from, to), and where the
      plaintext range lies in what they decrypt to. */
  datatype RangeResult = RangeResult(
    from: nat, to: nat, chunkSize: nat, startChunk: nat, sliceStart: nat, sliceLen: nat)

  datatype RangeError = InvalidRange | NoChunkSize

  /** Where a chunk's frame starts in the stored object: chunk times the size of
      a full frame past the header. */
  function FrameOffset(chunk: nat, cs: nat): nat {
    HEADER_SIZE + Steps(chunk, cs + CHUNK_OVERHEAD)
  }

  /** The ciphertext range of the chunks that hold plaintext bytes start through end. */
  function CiphertextRange(start: int, end: int, textSize: int, cipherSize: int): Result<RangeResult, RangeError> {
    if start < 0 || end < start then Err(InvalidRange)
    else match ChunkSizeOf(textSize, cipherSize)
         case None => Err(NoChunkSize)
         case Some(cs) =>
           Ok(RangeResult(FrameOffset(start / cs, cs), FrameOffset(end / cs + 1, cs) - 1,
                          cs, start / cs, start % cs, end - start + 1))
  }

  function Resolved(stored: Bytes, range: Option<(int, int)>): Option<Bytes> {
    match range
    case Some((a, b)) => if 0 <= a <= b + 1 <= |stored| then Some(stored[a..b + 1]) else None
    case None => None
  }

  /** The bytes a backend answers a Range header with. */
  function Fetch(stored: Bytes, header: string): Option<Bytes> {
    Resolved(stored, ParseRange(header, |stored|))
  }

  lemma ResolvedIsClamped(stored: Bytes, from: nat, to: nat)
    requires from <= to && from < |stored|
    ensures Resolved(stored, Some((from, Min(to, |stored| - 1)))) == Some(Clamped(stored, from, to))
  {
  }

  /** A fetch that yields, of what is stored, the stretch it is asked for. */
  ghost predicate Honours(fetch: (nat, nat) -> Option<Bytes>, stored: Bytes) {
    forall from: nat, to: nat | from <= to <= MAX_INT64 && from < |stored| ::
      fetch(from, to) == Some(Clamped(stored, from, to))
  }

  /** Sending the range as a header and resolving the header honours it. */
  lemma FetchHonours(stored: Bytes)
    ensures Honours((from: nat, to: nat) => Fetch(stored, RangeHeader(from, to)), stored)
  {
    forall from: nat, to: nat | from <= to <= MAX_INT64 && from < |stored|
      ensures Fetch(stored, RangeHeader(from, to)) == Some(Clamped(stored, from, to))
    {
      ParseRangeInverts(from, to, |stored|);
      ResolvedIsClamped(stored, from, to);
    }
  }

  /** Discards skip bytes of a stream and limits it to the next n; None when the
      stream ends before the window starts. */
  function Window(e: Emission, skip: nat, n: nat): Option<Emission> {
    if |e.out| < skip then None
    else if |e.out| >= skip + n then Some(Emission(e.out[skip..skip + n], Clean))
    else Some(Emission(e.out[skip..], e.stop))
  }

  // ---------------------------------------------------------------------
  // A ranged read is a slice
  // ---------------------------------------------------------------------

  /** What a ranged read returns: the bytes the backend answers the translated
      range with, decrypted from the first chunk fetched, and windowed. */
  function RangedRead(ps: Params, fetch: (nat, nat) -> Option<Bytes>, textSize: int, cipherSize: int, start: int, end: int)
    : Option<Emission>
  {
    match CiphertextRange(start, end, textSize, cipherSize)
    case Err(_) => None
    case Ok(rng) =>
      match fetch(rng.from, rng.to)
      case None => None
      case Some(body) =>
        if rng.chunkSize == 0 then None
        else Window(DecryptAll(ps.(chunkSize := rng.chunkSize), rng.startChunk, body, Eof),
                    rng.sliceStart, rng.sliceLen)
  }

  /** The recovered chunk size lays the text out as the one it was written with. */
  lemma SameLayout(ps: Params, text: Bytes, k: nat)
    requires ps.Valid() && ps.chunkSize == Pow2(k) && text != []
    ensures
      var found := ChunkSizeOf(|text|, |Envelop(ps, text)|);
      && found.Some? && 0 < found.value <= ps.chunkSize
      && Frames(ps.(chunkSize := found.value), 0, text) == Frames(ps, 0, text)
  {
    EnvelopSize(ps, text);
    ChunksBounds(|text|, Pow2(k));
    if Chunks(|text|, Pow2(k)) >= 2 {
      ChunkSizeOfMany(|text|, k);
    } else {
      ChunkSizeOfOne(|text|, k);
    }
  }

  /** Decrypting a span's frames and cutting the range out. */
  lemma SpanReadIsSlice(ps: Params, idx: nat, before: Bytes, own: Bytes, after: Bytes, start: nat, end: nat)
    requires ps.Valid() && |before| <= start <= end < |before| + |own|
    ensures Window(DecryptAll(ps, idx, Frames(ps, idx, own), Eof), start - |before|, end - start + 1)
         == Some(Emission((before + own + after)[start..end + 1], Clean))
  {
    DecryptsFrames(ps, idx, own);
    CutOut(before, own, after, start, end);
  }

  /** The bytes a ranged read asks for are exactly the frames of the chunks its
      range overlaps. */
  lemma FetchesOwnFrames(ps: Params, cs: nat, fetch: (nat, nat) -> Option<Bytes>, s: Span, before: Bytes, own: Bytes, after: Bytes)
    requires ps.Valid() && 0 < cs <= ps.chunkSize && Cuts(s, cs, before, own, after)
    requires |Envelop(ps, before + own + after)| + ps.chunkSize + CHUNK_OVERHEAD <= MAX_INT64
    requires Honours(fetch, Envelop(ps, before + own + after))
    requires Frames(ps.(chunkSize := cs), 0, before + own + after) == Frames(ps, 0, before + own + after)
    ensures fetch(FrameOffset(s.first, cs), FrameOffset(s.first + s.count, cs) - 1) == Some(Frames(ps.(chunkSize := cs), s.first, own))
  {
    var found := ps.(chunkSize := cs);
    FramerAdds(found);
    ClampedSpan(Framer(found), cs, CHUNK_OVERHEAD, Header(ps.chunkSize, ps.base), s, before, own, after);
  }

  /** A ranged read, given what its translation and its fetch come to. */
  lemma RangedReadVia(
      ps: Params, fetch: (nat, nat) -> Option<Bytes>, textSize: int, cipherSize: int, start: int, end: int,
      rng: RangeResult, body: Bytes)
    requires rng.chunkSize > 0
    requires CiphertextRange(start, end, textSize, cipherSize) == Ok(rng)
    requires fetch(rng.from, rng.to) == Some(body)
    ensures RangedRead(ps, fetch, textSize, cipherSize, start, end)
         == Window(DecryptAll(ps.(chunkSize := rng.chunkSize), rng.startChunk, body, Eof), rng.sliceStart, rng.sliceLen)
  {
  }

  lemma FramesAtLeast(ps: Params, text: Bytes)
    requires ps.Valid()
    ensures |text| <= |Frames(ps, 0, text)|
  {
    FramesSize(ps, 0, text);
    MulMonotone(0, Chunks(|text|, ps.chunkSize), CHUNK_OVERHEAD);
  }

  /** A ranged read is a slice: for every plaintext, every power-of-two chunk
      size and every range inside it, fetching, decrypting and windowing gives
      exactly those bytes. */
  lemma RangedReadIsSlice(ps: Params, k: nat, fetch: (nat, nat) -> Option<Bytes>, text: Bytes, start: nat, end: nat)
    requires ps.Valid() && ps.chunkSize == Pow2(k) && start <= end < |text|
    requires |Envelop(ps, text)| + ps.chunkSize + CHUNK_OVERHEAD <= MAX_INT64
    requires Honours(fetch, Envelop(ps, text))
    ensures RangedRead(ps, fetch, |text|, |Envelop(ps, text)|, start, end)
         == Some(Emission(text[start..end + 1], Clean))
  {
    SameLayout(ps, text, k);
    FramesAtLeast(ps, text);
    var cs := ChunkSizeOf(|text|, |Envelop(ps, text)|).value;
    var s, before, own, after := CutAround(text, cs, start, end);
    FetchesOwnFrames(ps, cs, fetch, s, before, own, after);
    ReadsSpan(ps, cs, fetch, |Envelop(ps, text)|, s, before, own, after, start, end);
  }

  /** The ranged read over a text cut around the range's span. */
  lemma ReadsSpan(
      ps: Params, cs: nat, fetch: (nat, nat) -> Option<Bytes>, cipherSize: nat,
      s: Span, before: Bytes, own: Bytes, after: Bytes, start: nat, end: nat)
    requires ps.Valid() && cs > 0 && |before| <= start <= end < |before| + |own|
    requires ChunkSizeOf(|before + own + after|, cipherSize) == Some(cs)
    requires s.first == start / cs && s.first + s.count == end / cs + 1 && start % cs == start - |before|
    requires fetch(FrameOffset(s.first, cs), FrameOffset(s.first + s.count, cs) - 1) == Some(Frames(ps.(chunkSize := cs), s.first, own))
    ensures RangedRead(ps, fetch, |before + own + after|, cipherSize, start, end)
         == Some(Emission((before + own + after)[start..end + 1], Clean))
  {
    var found := ps.(chunkSize := cs);
    var rng := RangeResult(FrameOffset(s.first, cs), FrameOffset(s.first + s.count, cs) - 1, cs, s.first, start - |before|, end - start + 1);
    assert CiphertextRange(start, end, |before + own + after|, cipherSize) == Ok(rng);
    SpanReadIsSlice(found, s.first, before, own, after, start, end);
    RangedReadVia(ps, fetch, |before + own + after|, cipherSize, start, end, rng, Frames(found, s.first, own));
  }

  /** A whole read takes its parameters from the header and gives the text back. */
  lemma WholeReadIsText(ps: Params, text: Bytes)
    requires ps.Valid() && ps.chunkSize <= MAX_CHUNK_SIZE
    ensures
      var stored := Envelop(ps, text);
      && ParseHeader(stored) == Ok(HeaderInfo(ps.chunkSize, ps.base))
      && DecryptAll(ps, 0, stored[HEADER_SIZE..], Eof) == Emission(text, Clean)
  {
    HeaderInverts(ps.chunkSize, ps.base, Frames(ps, 0, text));
    assert Envelop(ps, text)[HEADER_SIZE..] == Frames(ps, 0, text);
    DecryptsFrames(ps, 0, text);
  }
}
