/** The streams of internal/encryption/chunk.go as functions: what a whole
    encryption or decryption yields, given what its source yields, and the round
    trip between the two. The readers that produce them are in ChunkReaders. */
module ChunkStream {
  import opened Common
  import opened Framing
  import opened Envelope

  // ---------------------------------------------------------------------
  // What a source yields and what a stream makes of it
  // ---------------------------------------------------------------------

  /** How a source ends once its bytes are read: cleanly, with the error io
      readers use for a truncated body, or with any other error. */
  datatype Ending = Eof | UnexpectedEof | Other(code: nat)

  /** One fill of a chunk buffer: a chunk, with whether the source is done; the
      clean end of the stream; or a source error. */
  datatype Filled = Chunk(bytes: Bytes, rest: Bytes, last: bool) | End | Fault(code: nat)

  /** io.ReadFull of n bytes, classified as fill does. */
  function Fill(data: Bytes, ending: Ending, n: nat): Filled {
    if |data| >= n then Chunk(data[..n], data[n..], false)
    else match ending
         case Eof => if data == [] then End else Chunk(data, [], true)
         case UnexpectedEof => Chunk(data, [], true)
         case Other(code) => Fault(code)
  }

  /** How a stream stops: io.EOF, an error carried up from the source, or a chunk
      that does not open. */
  datatype Stop = Clean | SourceError(code: nat) | BadChunk

  /** Everything a reader will return, and how it then stops. */
  datatype Emission = Emission(out: Bytes, stop: Stop) {
    function After(bytes: Bytes): Emission {
      Emission(bytes + out, stop)
    }
  }

  /** What an encrypt reader makes of its source from chunk idx onward. */
  function EncryptAll(ps: Params, idx: nat, data: Bytes, ending: Ending): Emission
    requires ps.chunkSize > 0
    decreases |data|
  {
    match Fill(data, ending, ps.chunkSize)
    case End => Emission([], Clean)
    case Fault(code) => Emission([], SourceError(code))
    case Chunk(chunk, rest, last) =>
      var frame := Frame(ps, idx, chunk);
      if last then Emission(frame, Clean)
      else EncryptAll(ps, NextIdx(idx), rest, ending).After(frame)
  }

  /** Opens one frame: it must hold a nonce and a tag, carry the nonce its index
      derives, and authenticate. */
  function OpenFrame(ps: Params, idx: nat, frame: Bytes): Option<Bytes> {
    if |frame| < CHUNK_OVERHEAD then None
    else if frame[..NONCE_SIZE] != DeriveNonce(ps.base, idx) then None
    else ps.cipher.open(ps.key, frame[..NONCE_SIZE], frame[NONCE_SIZE..])
  }

  /** What a decrypt reader makes of its source from chunk idx onward. */
  function DecryptAll(ps: Params, idx: nat, data: Bytes, ending: Ending): Emission
    requires ps.chunkSize > 0
    decreases |data|
  {
    match Fill(data, ending, ps.chunkSize + CHUNK_OVERHEAD)
    case End => Emission([], Clean)
    case Fault(code) => Emission([], SourceError(code))
    case Chunk(frame, rest, last) =>
      match OpenFrame(ps, idx, frame)
      case None => Emission([], BadChunk)
      case Some(plain) =>
        if last then Emission(plain, Clean)
        else DecryptAll(ps, NextIdx(idx), rest, ending).After(plain)
  }

  // ---------------------------------------------------------------------
  // Properties of whole streams
  // ---------------------------------------------------------------------

  /** Over a source that ends cleanly the encrypt reader yields the frames. */
  lemma {:induction false} EncryptsFrames(ps: Params, idx: nat, text: Bytes)
    requires ps.chunkSize > 0
    ensures EncryptAll(ps, idx, text, Eof) == Emission(Frames(ps, idx, text), Clean)
    decreases |text|
  {
    if |text| == ps.chunkSize {
      assert text[..ps.chunkSize] == text && text[ps.chunkSize..] == [];
      assert EncryptAll(ps, NextIdx(idx), [], Eof) == Emission([], Clean);
      assert Frame(ps, idx, text) + [] == Frame(ps, idx, text);
    } else if |text| > ps.chunkSize {
      EncryptsFrames(ps, NextIdx(idx), text[ps.chunkSize..]);
    }
  }

  /** A source error ends an encrypt stream as io.EOF exactly when it is one of
      the two end-of-file kinds; any other error reaches the caller as itself. */
  lemma {:induction false} SourceErrorSurvives(ps: Params, idx: nat, data: Bytes, ending: Ending)
    requires ps.chunkSize > 0
    ensures EncryptAll(ps, idx, data, ending).stop
         == match ending
            case Other(code) => SourceError(code)
            case _ => Clean
    decreases |data|
  {
    if |data| >= ps.chunkSize {
      SourceErrorSurvives(ps, NextIdx(idx), data[ps.chunkSize..], ending);
    }
  }

  /** Nor does a decrypt stream over a source that fails ever end as io.EOF. */
  lemma {:induction false} BrokenSourceNeverEndsClean(ps: Params, idx: nat, data: Bytes, ending: Ending)
    requires ps.chunkSize > 0 && ending.Other?
    ensures DecryptAll(ps, idx, data, ending).stop == SourceError(ending.code)
            || DecryptAll(ps, idx, data, ending).stop == BadChunk
    decreases |data|
  {
    var n := ps.chunkSize + CHUNK_OVERHEAD;
    if |data| >= n {
      BrokenSourceNeverEndsClean(ps, NextIdx(idx), data[n..], ending);
    }
  }

  /** A body cut short with io.ErrUnexpectedEOF, as an HTTP client reports a
      truncated response, is encrypted as if it were whole, whenever it stops
      inside a chunk: the stored object decrypts to the truncated bytes. */
  lemma {:induction false} TruncationPassesAsWhole(ps: Params, idx: nat, data: Bytes)
    requires ps.chunkSize > 0
    requires |data| % ps.chunkSize != 0
    ensures EncryptAll(ps, idx, data, UnexpectedEof) == EncryptAll(ps, idx, data, Eof)
    decreases |data|
  {
    if |data| >= ps.chunkSize {
      DropChunkMod(|data|, ps.chunkSize);
      TruncationPassesAsWhole(ps, NextIdx(idx), data[ps.chunkSize..]);
    }
  }

  lemma DropChunkMod(n: nat, m: nat)
    requires 0 < m <= n
    ensures (n - m) % m == n % m && (n - m) / m == n / m - 1
  {
    var q, r := n / m, n % m;
    assert n == q * m + r;
    assert n - m == (q - 1) * m + r;
    DivModUnique(n - m, m, q - 1, r);
  }

  lemma DivModUnique(n: nat, m: nat, q: int, r: nat)
    requires 0 < m && r < m && n == q * m + r
    ensures n / m == q && n % m == r
  {
    var d := n / m - q;
    assert d * m == r - n % m;
    assert d >= 1 ==> d * m >= m;
    assert d <= -1 ==> d * m <= 0 - m;
  }

  lemma OpensFrame(ps: Params, idx: nat, chunk: Bytes)
    requires ps.Valid()
    ensures OpenFrame(ps, idx, Frame(ps, idx, chunk)) == Some(chunk)
  {
    var nonce := DeriveNonce(ps.base, idx);
    var frame := Frame(ps, idx, chunk);
    assert frame[..NONCE_SIZE] == nonce;
    assert frame[NONCE_SIZE..] == ps.cipher.seal(ps.key, nonce, chunk);
  }

  /** Frames decrypt to the plaintext they were made from. */
  lemma {:induction false} DecryptsFrames(ps: Params, idx: nat, text: Bytes)
    requires ps.Valid()
    ensures DecryptAll(ps, idx, Frames(ps, idx, text), Eof) == Emission(text, Clean)
    decreases |text|
  {
    var frames := Frames(ps, idx, text);
    var full := ps.chunkSize + CHUNK_OVERHEAD;
    if text == [] {
    } else if |text| <= ps.chunkSize {
      FrameSize(ps, idx, text);
      OpensFrame(ps, idx, text);
      if |text| == ps.chunkSize {
        assert frames[..full] == frames && frames[full..] == [];
        assert DecryptAll(ps, NextIdx(idx), [], Eof) == Emission([], Clean);
        assert text + [] == text;
      }
    } else {
      var chunk, rest := text[..ps.chunkSize], text[ps.chunkSize..];
      FrameSize(ps, idx, chunk);
      OpensFrame(ps, idx, chunk);
      assert frames[..full] == Frame(ps, idx, chunk);
      assert frames[full..] == Frames(ps, NextIdx(idx), rest);
      DecryptsFrames(ps, NextIdx(idx), rest);
      assert chunk + rest == text;
    }
  }

  // ---------------------------------------------------------------------
  // Sizes
  // ---------------------------------------------------------------------

  /** The size of an envelope over textSize bytes. */
  function CiphertextSize(textSize: nat, chunkSize: nat): nat
    requires chunkSize > 0
  {
    if textSize == 0 then HEADER_SIZE
    else
      var full, rem := textSize / chunkSize, textSize % chunkSize;
      HEADER_SIZE + full * (CHUNK_OVERHEAD + chunkSize) + if rem > 0 then CHUNK_OVERHEAD + rem else 0
  }

  /** How many chunks a text is cut into. */
  function Chunks(textSize: nat, chunkSize: nat): nat
    requires chunkSize > 0
  {
    textSize / chunkSize + if textSize % chunkSize > 0 then 1 else 0
  }

  lemma CiphertextSizeByChunks(textSize: nat, chunkSize: nat)
    requires chunkSize > 0
    ensures CiphertextSize(textSize, chunkSize)
         == HEADER_SIZE + textSize + CHUNK_OVERHEAD * Chunks(textSize, chunkSize)
  {
    if textSize == 0 {
      DivModUnique(0, chunkSize, 0, 0);
    }
    var full, rem := textSize / chunkSize, textSize % chunkSize;
    assert textSize == full * chunkSize + rem;
    assert full * (CHUNK_OVERHEAD + chunkSize) == full * CHUNK_OVERHEAD + full * chunkSize;
  }

  lemma {:induction false} FramesSize(ps: Params, idx: nat, text: Bytes)
    requires ps.Valid()
    ensures |Frames(ps, idx, text)| == |text| + CHUNK_OVERHEAD * Chunks(|text|, ps.chunkSize)
    decreases |text|
  {
    var cs := ps.chunkSize;
    if text == [] {
      DivModUnique(0, cs, 0, 0);
    } else if |text| < cs {
      FrameSize(ps, idx, text);
      DivModUnique(|text|, cs, 0, |text|);
    } else if |text| == cs {
      FrameSize(ps, idx, text);
      DivModUnique(cs, cs, 1, 0);
    } else {
      FrameSize(ps, idx, text[..cs]);
      FramesSize(ps, NextIdx(idx), text[cs..]);
      DropChunkMod(|text|, cs);
    }
  }

  /** The size computed before a byte is encrypted is the size of the envelope. */
  lemma EnvelopSize(ps: Params, text: Bytes)
    requires ps.Valid()
    ensures |Envelop(ps, text)| == CiphertextSize(|text|, ps.chunkSize)
  {
    FramesSize(ps, 0, text);
    CiphertextSizeByChunks(|text|, ps.chunkSize);
  }
}
