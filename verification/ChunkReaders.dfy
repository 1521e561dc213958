/** The encrypt and decrypt readers as objects: buffered output, a source read a
    chunk at a time, pooled buffers returned once. Whatever buffer sizes they
    are read with, they return exactly the stream their source determines.
    Models chunkStream, encryptReader and decryptReader of
    internal/encryption/chunk.go. */
module ChunkReaders {
  import opened Common
  import opened Framing
  import opened Envelope
  import opened ChunkStream

  class Source {
    var data: Bytes
    const ending: Ending

    constructor (data: Bytes, ending: Ending)
      ensures this.data == data && this.ending == ending
    {
      this.data := data;
      this.ending := ending;
    }

    /** io.ReadFull: n bytes, or what is left and the error that ended it. */
    method ReadFull(n: nat) returns (got: Bytes, err: Option<Ending>)
      modifies this
      ensures |old(data)| >= n ==> got == old(data)[..n] && data == old(data)[n..] && err == None
      ensures |old(data)| < n ==>
        && got == old(data) && data == []
        && err == Some(if ending == Eof && got != [] then UnexpectedEof else ending)
    {
      if |data| >= n {
        got, data, err := data[..n], data[n..], None;
      } else {
        got, data, err := data, [], Some(if ending == Eof && data != [] then UnexpectedEof else ending);
      }
    }
  }

  datatype ReadErr = NoErr | EOF | Failed(code: nat) | Corrupt

  /** What one Read tells its caller about the stream: the bytes are the next
      ones, io.EOF means nothing was left of a stream that ended cleanly, and an
      error is the one the stream stops with. */
  predicate Told(before: Emission, after: Emission, got: Bytes, err: ReadErr) {
    match err
    case NoErr => before == after.After(got)
    case EOF => got == [] && before == Emission([], Clean) && after == before
    case Failed(code) => got == [] && before == Emission([], SourceError(code))
    case Corrupt => got == [] && before == Emission([], BadChunk)
  }

  lemma TakeAndKeep(e: Emission, bytes: Bytes, n: nat)
    requires n <= |bytes|
    ensures e.After(bytes) == e.After(bytes[n..]).After(bytes[..n])
    ensures e.After([]) == e
  {
    assert bytes + e.out == bytes[..n] + (bytes[n..] + e.out);
  }

  /** The state the two readers share. bufs and release say whether the pooled
      buffers and the release that returns them are still held; fired counts how
      often release ran. */
  class ChunkStreamState {
    const src: Source
    const ps: Params
    var chunkIdx: nat
    var bufs: bool
    var release: bool
    var fired: nat
    var buf: Bytes
    var srcDone: bool

    ghost predicate Valid()
      reads this
    {
      && ps.chunkSize > 0
      && (release ==> bufs && fired == 0)
      && fired <= 1
      && (!bufs ==> buf == [])
    }

    constructor (src: Source, ps: Params, startChunk: nat, release: bool)
      requires ps.chunkSize > 0
      ensures Valid() && this.src == src && this.ps == ps && chunkIdx == startChunk
      ensures bufs && this.release == release && fired == 0 && buf == [] && !srcDone
    {
      this.src, this.ps, chunkIdx := src, ps, startChunk;
      bufs, this.release, fired, buf, srcDone := true, release, 0, [], false;
    }

    /** Gives up what is held; nothing is left for a second call to give up. */
    method ReturnBufs()
      requires Valid()
      modifies this
      ensures Valid() && !bufs && !release && buf == []
      ensures fired == old(fired) + if old(release) then 1 else 0
      ensures chunkIdx == old(chunkIdx) && srcDone == old(srcDone)
    {
      var held := release;
      release, bufs, buf := false, false, [];
      if held {
        fired := fired + 1;
      }
    }

    /** Hands out as much of the buffer as p has room for. */
    method Emit(p: array<Byte>) returns (n: nat)
      requires Valid() && bufs
      modifies this`buf, p
      ensures Valid()
      ensures n == Min(p.Length, |old(buf)|) && p[..n] == old(buf)[..n] && buf == old(buf)[n..]
    {
      n := Min(p.Length, |buf|);
      forall i | 0 <= i < n {
        p[i] := buf[i];
      }
      buf := buf[n..];
    }

    /** A read that needs no new chunk: bytes are waiting, or none will come. Any
        other read is left to the caller, with ok false. */
    method Drain(p: array<Byte>) returns (n: nat, ok: bool, err: ReadErr)
      requires Valid()
      modifies this, p
      ensures Valid() && n <= p.Length
      ensures ok == (!old(bufs) || old(buf) != [] || old(srcDone))
      ensures !ok ==> unchanged(this)
      ensures old(bufs) && old(buf) != [] ==>
        && err == NoErr && n == Min(p.Length, |old(buf)|) && p[..n] == old(buf)[..n] && buf == old(buf)[n..]
        && unchanged(this`bufs, this`release, this`fired, this`srcDone, this`chunkIdx)
      ensures ok && old(buf) == [] ==>
        && err == EOF && n == 0 && !bufs && buf == [] && !release
        && fired == old(fired) + if old(release) then 1 else 0
    {
      if !bufs {
        return 0, true, EOF;
      } else if buf != [] {
        n := Emit(p);
        return n, true, NoErr;
      } else if srcDone {
        ReturnBufs();
        return 0, true, EOF;
      }
      return 0, false, NoErr;
    }

    /** Reads the next chunk of up to n bytes. */
    method ReadChunk(n: nat) returns (got: Bytes, err: ReadErr)
      requires Valid() && bufs && buf == [] && !srcDone && n > 0
      modifies this, src
      ensures Valid() && buf == [] && chunkIdx == old(chunkIdx)
      ensures match Fill(old(src.data), src.ending, n)
              case Chunk(chunk, rest, last) =>
                && err == NoErr && got == chunk && src.data == rest && srcDone == last
                && unchanged(this`bufs, this`release, this`fired)
              case End =>
                && err == EOF && !bufs && !release
                && fired == old(fired) + if old(release) then 1 else 0
              case Fault(code) => err == Failed(code) && unchanged(this`bufs, this`release, this`fired)
    {
      var full: Option<Ending>;
      got, full := src.ReadFull(n);
      if got == [] && full == Some(Eof) {
        ReturnBufs();
        return [], EOF;
      }
      match full {
        case None => return got, NoErr;
        case Some(Other(code)) => return [], Failed(code);
        case Some(_) =>
          srcDone := true;
          return got, NoErr;
      }
    }
  }

  class EncryptReader {
    const s: ChunkStreamState
    var header: Bytes

    ghost predicate Valid()
      reads this, s
    {
      s.Valid() && (header != [] ==> s.bufs)
    }

    /** What the source still has to give. */
    ghost function Ahead(): Emission
      requires Valid()
      reads this, s, s.src
    {
      if !s.bufs || s.srcDone then Emission([], Clean)
      else EncryptAll(s.ps, s.chunkIdx, s.src.data, s.src.ending)
    }

    /** Everything still to be read. */
    ghost function Pending(): Emission
      requires Valid()
      reads this, s, s.src
    {
      Ahead().After(s.buf).After(header)
    }

    constructor (src: Source, ps: Params, release: bool)
      requires ps.chunkSize > 0
      ensures Valid() && fresh(s) && s.src == src && s.ps == ps && s.release == release && s.fired == 0
      ensures Pending() == EncryptAll(ps, 0, src.data, src.ending).After(Header(ps.chunkSize, ps.base))
    {
      s := new ChunkStreamState(src, ps, 0, release);
      header := Header(ps.chunkSize, ps.base);
      new;
      assert EncryptAll(ps, 0, src.data, src.ending).After([]) == EncryptAll(ps, 0, src.data, src.ending);
    }

    /** Copies header bytes into p. */
    method EmitHeader(p: array<Byte>) returns (n: nat)
      requires Valid() && header != []
      modifies this, p
      ensures Valid() && n == Min(p.Length, |old(header)|)
      ensures old(Pending()) == Pending().After(p[..n])
    {
      n := Min(p.Length, |header|);
      TakeAndKeep(Ahead().After(s.buf), header, n);
      forall i | 0 <= i < n {
        p[i] := header[i];
      }
      assert p[..n] == header[..n];
      header := header[n..];
    }

    /** Seals the next chunk of the source into the buffer. */
    method NextChunk() returns (err: ReadErr)
      requires Valid() && header == [] && s.bufs && s.buf == [] && !s.srcDone
      modifies s, s.src
      ensures Valid() && Told(old(Pending()), Pending(), [], err) && err != Corrupt
      ensures err == NoErr ==> s.bufs && s.buf != [] && unchanged(s`release, s`fired)
      ensures s.fired == old(s.fired) + if err == EOF && old(s.release) then 1 else 0
      ensures s.fired == 0 ==> s.release == old(s.release)
    {
      TakeAndKeep(Ahead(), [], 0);
      var plain;
      plain, err := s.ReadChunk(s.ps.chunkSize);
      if err == NoErr {
        s.buf := Frame(s.ps, s.chunkIdx, plain);
        s.chunkIdx := NextIdx(s.chunkIdx);
        assert s.srcDone ==> Ahead().After(s.buf) == Emission(s.buf, Clean);
      }
      TakeAndKeep(Ahead(), [], 0);
      TakeAndKeep(Ahead().After(s.buf), [], 0);
    }

    method Read(p: array<Byte>) returns (n: nat, err: ReadErr)
      requires Valid()
      modifies this, s, s.src, p
      ensures Valid() && n <= p.Length
      ensures Told(old(Pending()), Pending(), p[..n], err) && err != Corrupt
      ensures p.Length > 0 && err == NoErr ==> n > 0
      ensures old(s.fired) <= s.fired <= 1
      ensures err == EOF && old(s.release) ==> s.fired == 1
      ensures s.fired == 0 ==> s.release == old(s.release)
    {
      if header != [] {
        n := EmitHeader(p);
        return n, NoErr;
      }
      TakeAndKeep(Ahead().After(s.buf), [], 0);
      TakeAndKeep(Ahead(), s.buf, Min(p.Length, |s.buf|));
      var ok;
      n, ok, err := s.Drain(p);
      if ok {
        TakeAndKeep(Ahead().After(s.buf), [], 0);
        TakeAndKeep(Ahead(), [], 0);
        return;
      }
      err := NextChunk();
      if err != NoErr {
        return 0, err;
      }
      TakeAndKeep(Ahead(), s.buf, Min(p.Length, |s.buf|));
      TakeAndKeep(Ahead().After(s.buf), [], 0);
      n := s.Emit(p);
      TakeAndKeep(Ahead().After(s.buf), [], 0);
      return n, NoErr;
    }
  }

  class DecryptReader {
    const s: ChunkStreamState

    ghost predicate Valid()
      reads this, s
    {
      s.Valid()
    }

    /** What the source still has to give. */
    ghost function Ahead(): Emission
      requires Valid()
      reads this, s, s.src
    {
      if !s.bufs || s.srcDone then Emission([], Clean)
      else DecryptAll(s.ps, s.chunkIdx, s.src.data, s.src.ending)
    }

    /** Everything still to be read. */
    ghost function Pending(): Emission
      requires Valid()
      reads this, s, s.src
    {
      Ahead().After(s.buf)
    }

    constructor (src: Source, ps: Params, startChunk: nat, release: bool)
      requires ps.chunkSize > 0
      ensures Valid() && fresh(s) && s.src == src && s.ps == ps && s.release == release && s.fired == 0
      ensures Pending() == DecryptAll(ps, startChunk, src.data, src.ending)
    {
      s := new ChunkStreamState(src, ps, startChunk, release);
      new;
      TakeAndKeep(Ahead(), [], 0);
    }

    /** Opens the next frame of the source into the buffer. */
    method NextChunk() returns (err: ReadErr)
      requires Valid() && s.bufs && s.buf == [] && !s.srcDone
      modifies s, s.src
      ensures Valid() && Told(old(Pending()), Pending(), [], err)
      ensures err == NoErr ==> s.bufs && unchanged(s`release, s`fired)
      ensures err == NoErr ==> |s.src.data| < |old(s.src.data)|
      ensures s.fired == old(s.fired) + if err == EOF && old(s.release) then 1 else 0
      ensures s.fired == 0 ==> s.release == old(s.release)
    {
      TakeAndKeep(Ahead(), [], 0);
      var frame;
      frame, err := s.ReadChunk(s.ps.chunkSize + CHUNK_OVERHEAD);
      if err != NoErr {
        TakeAndKeep(Ahead(), [], 0);
        return;
      }
      if |frame| < CHUNK_OVERHEAD {
        return Corrupt;
      }
      var nonce := frame[..NONCE_SIZE];
      if nonce != DeriveNonce(s.ps.base, s.chunkIdx) {
        return Corrupt;
      }
      var plain := s.ps.cipher.open(s.ps.key, nonce, frame[NONCE_SIZE..]);
      s.chunkIdx := NextIdx(s.chunkIdx);
      if plain == None {
        return Corrupt;
      }
      s.buf := plain.value;
      assert s.srcDone ==> Ahead().After(s.buf) == Emission(s.buf, Clean);
      TakeAndKeep(Pending(), [], 0);
    }

    method Read(p: array<Byte>) returns (n: nat, err: ReadErr)
      requires Valid()
      modifies s, s.src, p
      ensures Valid() && n <= p.Length
      ensures Told(old(Pending()), Pending(), p[..n], err)
      ensures p.Length > 0 && err == NoErr ==> n > 0 || |s.src.data| < |old(s.src.data)|
      ensures err == NoErr ==> |s.src.data| <= |old(s.src.data)|
      ensures old(s.fired) <= s.fired <= 1
      ensures err == EOF && old(s.release) ==> s.fired == 1
      ensures s.fired == 0 ==> s.release == old(s.release)
    {
      TakeAndKeep(Ahead(), s.buf, Min(p.Length, |s.buf|));
      var ok;
      n, ok, err := s.Drain(p);
      if ok {
        TakeAndKeep(Ahead(), [], 0);
        return;
      }
      err := NextChunk();
      if err != NoErr {
        return 0, err;
      }
      TakeAndKeep(Ahead(), s.buf, Min(p.Length, |s.buf|));
      n := s.Emit(p);
      return n, NoErr;
    }
  }

  // ---------------------------------------------------------------------
  // Reading with any buffer sizes
  // ---------------------------------------------------------------------

  /** What a reader's final error says about everything it returned. */
  predicate Ended(whole: Emission, out: Bytes, err: ReadErr) {
    match err
    case NoErr => true
    case EOF => whole == Emission(out, Clean)
    case Failed(code) => whole == Emission(out, SourceError(code))
    case Corrupt => whole == Emission(out, BadChunk)
  }

  lemma OneMoreRead(whole: Emission, before: Emission, after: Emission, out: Bytes, got: Bytes, err: ReadErr)
    requires whole == before.After(out) && Told(before, after, got, err)
    ensures err == NoErr ==> whole == after.After(out + got)
    ensures Ended(whole, out, err)
    ensures err == NoErr ==> |before.out| == |got| + |after.out|
  {
    assert out + (got + after.out) == (out + got) + after.out;
    assert out + [] == out;
  }

  /** Reads an encrypt reader to its end in buffers of the sizes given, repeating
      the last one. */
  method EncryptWith(r: EncryptReader, sizes: seq<nat>, last: nat) returns (out: Bytes, err: ReadErr)
    requires r.Valid() && last > 0
    modifies r, r.s, r.s.src
    ensures r.Valid() && r.s.fired <= 1 && err != NoErr && err != Corrupt
    ensures Ended(old(r.Pending()), out, err)
    ensures err == EOF && old(r.s.release) ==> r.s.fired == 1
  {
    out, err := [], NoErr;
    ghost var whole := r.Pending();
    TakeAndKeep(whole, [], 0);
    var i := 0;
    while err == NoErr
      invariant r.Valid() && r.s.fired <= 1 && 0 <= i <= |sizes| && err != Corrupt
      invariant err == NoErr ==> whole == r.Pending().After(out)
      invariant Ended(whole, out, err)
      invariant r.s.fired == 0 ==> r.s.release == old(r.s.release)
      invariant err == EOF && old(r.s.release) ==> r.s.fired == 1
      decreases err == NoErr, |sizes| - i, |r.Pending().out|
    {
      var size := if i < |sizes| then sizes[i] else last;
      i := if i < |sizes| then i + 1 else i;
      var p := new Byte[size](_ => 0);
      var n;
      ghost var before := r.Pending();
      n, err := r.Read(p);
      OneMoreRead(whole, before, r.Pending(), out, p[..n], err);
      if err == NoErr {
        out := out + p[..n];
      }
    }
  }

  /** Reads a decrypt reader to its end in buffers of the sizes given, repeating
      the last one. */
  method DecryptWith(r: DecryptReader, sizes: seq<nat>, last: nat) returns (out: Bytes, err: ReadErr)
    requires r.Valid() && last > 0
    modifies r.s, r.s.src
    ensures r.Valid() && r.s.fired <= 1 && err != NoErr
    ensures Ended(old(r.Pending()), out, err)
    ensures err == EOF && old(r.s.release) ==> r.s.fired == 1
  {
    out, err := [], NoErr;
    ghost var whole := r.Pending();
    TakeAndKeep(whole, [], 0);
    var i := 0;
    while err == NoErr
      invariant r.Valid() && r.s.fired <= 1 && 0 <= i <= |sizes|
      invariant err == NoErr ==> whole == r.Pending().After(out)
      invariant Ended(whole, out, err)
      invariant r.s.fired == 0 ==> r.s.release == old(r.s.release)
      invariant err == EOF && old(r.s.release) ==> r.s.fired == 1
      decreases err == NoErr, |sizes| - i, |r.s.src.data|, |r.Pending().out|
    {
      var size := if i < |sizes| then sizes[i] else last;
      i := if i < |sizes| then i + 1 else i;
      var p := new Byte[size](_ => 0);
      var n;
      ghost var before := r.Pending();
      n, err := r.Read(p);
      OneMoreRead(whole, before, r.Pending(), out, p[..n], err);
      if err == NoErr {
        out := out + p[..n];
      }
    }
  }

  /** Text streamed through an encrypt reader and its output through a decrypt
      reader comes back, in whatever buffer sizes either is read; the envelope has
      the size computed beforehand, and each reader returns its buffers once. */
  method StreamThrough(ps: Params, text: Bytes, sizes: seq<nat>, last: nat, sizes': seq<nat>, last': nat)
    returns (stored: Bytes, back: Bytes)
    requires ps.Valid() && last > 0 && last' > 0
    ensures stored == Envelop(ps, text) && |stored| == CiphertextSize(|text|, ps.chunkSize)
    ensures back == text
  {
    var src := new Source(text, Eof);
    var enc := new EncryptReader(src, ps, true);
    EncryptsFrames(ps, 0, text);
    EnvelopSize(ps, text);
    var err;
    stored, err := EncryptWith(enc, sizes, last);
    assert stored == Header(ps.chunkSize, ps.base) + Frames(ps, 0, text);
    assert stored[HEADER_SIZE..] == Frames(ps, 0, text);
    var sealed := new Source(stored[HEADER_SIZE..], Eof);
    var dec := new DecryptReader(sealed, ps, 0, true);
    DecryptsFrames(ps, 0, text);
    back, err := DecryptWith(dec, sizes', last');
  }
}
