/** The encryption envelope: a 32-byte header followed by frames, each a nonce,
    a chunk's ciphertext and its tag. Models the format half of
    internal/encryption/chunk.go. AES-256-GCM is a pair of functions of which
    only two laws are used: opening what was sealed gives it back, and sealing
    adds a 16-byte tag. */
module Envelope {
  import opened Common
  import opened Framing

  datatype Cipher = Cipher(seal: (Bytes, Bytes, Bytes) -> Bytes, open: (Bytes, Bytes, Bytes) -> Option<Bytes>)

  ghost predicate Lawful(c: Cipher) {
    && (forall key: Bytes, nonce: Bytes, text: Bytes ::
          c.open(key, nonce, c.seal(key, nonce, text)) == Some(text))
    && (forall key: Bytes, nonce: Bytes, text: Bytes ::
          |c.seal(key, nonce, text)| == |text| + TAG_SIZE)
  }

  const HEADER_SIZE: nat := 32
  const NONCE_SIZE: nat := 12
  const TAG_SIZE: nat := 16
  const CHUNK_OVERHEAD: nat := NONCE_SIZE + TAG_SIZE
  type Nonce = b: Bytes | |b| == 12 witness [0, 0, 0, 0, 0, 0, 0, 0, 0, 0, 0, 0]

  const MAX_CHUNK_SIZE: nat := 0x10_0000
  const MAGIC: Bytes := [0x53, 0x45, 0x4E, 0x43]

  // ---------------------------------------------------------------------
  // Big-endian numbers
  // ---------------------------------------------------------------------

  function Pow256(n: nat): (p: nat)
    ensures p > 0
  {
    if n == 0 then 1 else 256 * Pow256(n - 1)
  }

  function BigEndian(n: nat, width: nat): (b: Bytes)
    ensures |b| == width
  {
    if width == 0 then [] else BigEndian(n / 256, width - 1) + [(n % 256) as Byte]
  }

  function FromBigEndian(b: Bytes): nat {
    if b == [] then 0 else 256 * FromBigEndian(b[..|b| - 1]) + b[|b| - 1] as int
  }

  lemma {:induction false} BigEndianInverts(n: nat, width: nat)
    requires n < Pow256(width)
    ensures FromBigEndian(BigEndian(n, width)) == n
  {
    if width > 0 {
      BigEndianInverts(n / 256, width - 1);
      assert BigEndian(n, width)[..width - 1] == BigEndian(n / 256, width - 1);
    }
  }

  // ---------------------------------------------------------------------
  // Nonces
  // ---------------------------------------------------------------------

  /** Bitwise exclusive or of the low n bits. */
  function XorBits(a: nat, b: nat, n: nat): (x: nat)
    ensures x < Pow2(n)
  {
    if n == 0 then 0 else (a % 2 + b % 2) % 2 + 2 * XorBits(a / 2, b / 2, n - 1)
  }

  lemma SameHalves(p: nat, r: nat, q: nat, s: nat)
    requires p < 2 && q < 2 && p + 2 * r == q + 2 * s
    ensures p == q && r == s
  {
  }

  lemma SameParity(a: nat, b: nat, c: nat)
    requires (a % 2 + b % 2) % 2 == (a % 2 + c % 2) % 2 && b / 2 == c / 2
    ensures b == c
  {
  }

  lemma {:induction false} XorCancels(a: nat, b: nat, c: nat, n: nat)
    requires b < Pow2(n) && c < Pow2(n)
    requires XorBits(a, b, n) == XorBits(a, c, n)
    ensures b == c
  {
    if n > 0 {
      SameHalves((a % 2 + b % 2) % 2, XorBits(a / 2, b / 2, n - 1), (a % 2 + c % 2) % 2, XorBits(a / 2, c / 2, n - 1));
      XorCancels(a / 2, b / 2, c / 2, n - 1);
      SameParity(a, b, c);
    }
  }

  function Xor(a: Byte, b: Byte): Byte {
    assert Pow2(8) == 256;
    XorBits(a as int, b as int, 8) as Byte
  }

  /** The base nonce with the chunk index exclusive-ored into its last 8 bytes. */
  function DeriveNonce(base: Nonce, idx: nat): (nonce: Nonce) {
    base[..4] + seq(8, i requires 0 <= i < 8 => Xor(base[4 + i], BigEndian(idx, 8)[i]))
  }

  /** No two chunk indexes of one stream give the same nonce. */
  lemma NoncesDistinct(base: Nonce, i: nat, j: nat)
    requires i < TWO_64 && j < TWO_64
    requires DeriveNonce(base, i) == DeriveNonce(base, j)
    ensures i == j
  {
    var x, y := BigEndian(i, 8), BigEndian(j, 8);
    forall k | 0 <= k < 8
      ensures x[k] == y[k]
    {
      assert DeriveNonce(base, i)[4 + k] == Xor(base[4 + k], x[k]);
      assert DeriveNonce(base, j)[4 + k] == Xor(base[4 + k], y[k]);
      assert Pow2(8) == 256;
      XorCancels(base[4 + k] as int, x[k] as int, y[k] as int, 8);
    }
    assert x == y;
    assert Pow256(8) == TWO_64 by {
      assert Pow256(2) == 0x1_0000;
      assert Pow256(4) == 0x1_0000_0000;
      assert Pow256(6) == 0x1_0000_0000_0000;
    }
    BigEndianInverts(i, 8);
    BigEndianInverts(j, 8);
  }

  /** Writes a per-chunk nonce in place over the base nonce. */
  method DeriveNonceInto(dst: array<Byte>, base: Nonce, idx: nat)
    requires dst.Length == NONCE_SIZE
    modifies dst
    ensures dst[..] == DeriveNonce(base, idx)
  {
    var i := 0;
    while i < NONCE_SIZE
      invariant 0 <= i <= NONCE_SIZE
      invariant dst[..i] == base[..i]
    {
      dst[i] := base[i];
      i := i + 1;
    }
    var idxBytes := BigEndian(idx, 8);
    i := 0;
    while i < 8
      invariant 0 <= i <= 8
      invariant forall k :: 0 <= k < 4 ==> dst[k] == base[k]
      invariant forall k :: 4 <= k < 4 + i ==> dst[k] == Xor(base[k], idxBytes[k - 4])
      invariant forall k :: 4 + i <= k < NONCE_SIZE ==> dst[k] == base[k]
    {
      dst[4 + i] := Xor(dst[4 + i], idxBytes[i]);
      i := i + 1;
    }
    ghost var nonce := DeriveNonce(base, idx);
    forall k | 0 <= k < NONCE_SIZE
      ensures dst[k] == nonce[k]
    {
      assert k >= 4 ==> nonce[k] == Xor(base[k], idxBytes[k - 4]);
    }
  }

  // ---------------------------------------------------------------------
  // Header
  // ---------------------------------------------------------------------

  const RESERVED: Bytes := [0, 0, 0, 0, 0, 0, 0, 0, 0, 0, 0]

  function Header(chunkSize: nat, base: Nonce): (h: Bytes)
    ensures |h| == HEADER_SIZE
  {
    MAGIC + [1] + BigEndian(chunkSize, 4) + base + RESERVED
  }

  predicate HasMagic(b: Bytes) {
    MAGIC <= b
  }

  datatype HeaderError = ShortHeader | BadMagic | BadVersion | BadChunkSize

  datatype HeaderInfo = HeaderInfo(chunkSize: nat, base: Nonce)

  function ParseHeader(h: Bytes): (r: Result<HeaderInfo, HeaderError>)
    ensures r.Ok? ==> 0 < r.value.chunkSize <= MAX_CHUNK_SIZE
  {
    if |h| < HEADER_SIZE then Err(ShortHeader)
    else if !HasMagic(h) then Err(BadMagic)
    else if h[4] != 1 then Err(BadVersion)
    else
      var cs := FromBigEndian(h[5..9]);
      if cs <= 0 || cs > MAX_CHUNK_SIZE then Err(BadChunkSize)
      else Ok(HeaderInfo(cs, h[9..21]))
  }

  /** A header reads back as what it was built from exactly when the chunk size
      is one the reader accepts, whatever follows it. */
  lemma HeaderInverts(chunkSize: nat, base: Nonce, body: Bytes)
    requires chunkSize < 0x1_0000_0000
    ensures ParseHeader(Header(chunkSize, base) + body) == Ok(HeaderInfo(chunkSize, base))
            <==> 0 < chunkSize <= MAX_CHUNK_SIZE
  {
    var h := Header(chunkSize, base) + body;
    assert h[..4] == MAGIC;
    assert h[5..9] == BigEndian(chunkSize, 4);
    assert h[9..21] == base;
    assert Pow256(2) == 0x1_0000;
    assert Pow256(4) == 0x1_0000_0000;
    BigEndianInverts(chunkSize, 4);
  }

  // ---------------------------------------------------------------------
  // Frames
  // ---------------------------------------------------------------------

  /** What fixes an object's frames: the cipher, the data key, the base nonce and
      the chunk size. */
  datatype Params = Params(cipher: Cipher, key: Bytes, base: Nonce, chunkSize: nat) {
    ghost predicate Valid() {
      Lawful(cipher) && chunkSize > 0
    }
  }

  /** One chunk's frame: its nonce, then its ciphertext and tag. */
  function Frame(ps: Params, idx: nat, chunk: Bytes): Bytes {
    var nonce := DeriveNonce(ps.base, idx);
    nonce + ps.cipher.seal(ps.key, nonce, chunk)
  }

  function Framer(ps: Params): (nat, Bytes) -> Bytes {
    (idx: nat, chunk: Bytes) => Frame(ps, idx, chunk)
  }

  function Frames(ps: Params, idx: nat, text: Bytes): Bytes
    requires ps.chunkSize > 0
  {
    Lay(Framer(ps), ps.chunkSize, idx, text)
  }

  function Envelop(ps: Params, text: Bytes): Bytes
    requires ps.chunkSize > 0
  {
    Header(ps.chunkSize, ps.base) + Frames(ps, 0, text)
  }

  lemma FrameSize(ps: Params, idx: nat, chunk: Bytes)
    requires ps.Valid()
    ensures |Frame(ps, idx, chunk)| == |chunk| + CHUNK_OVERHEAD
  {
  }

  lemma FramerAdds(ps: Params)
    requires ps.Valid()
    ensures Adds(Framer(ps), CHUNK_OVERHEAD)
  {
    forall i: nat, c: Bytes ensures |Framer(ps)(i, c)| == |c| + CHUNK_OVERHEAD {
      FrameSize(ps, i, c);
    }
  }

  /** A frame starts with the nonce of its chunk's index. */
  lemma FrameNonce(ps: Params, text: Bytes, i: nat)
    requires ps.Valid() && i < TWO_64 && Steps(i, ps.chunkSize) < |text|
    ensures
      var at := Steps(i, ps.chunkSize + CHUNK_OVERHEAD);
      && at + NONCE_SIZE <= |Frames(ps, 0, text)|
      && Frames(ps, 0, text)[at..at + NONCE_SIZE] == DeriveNonce(ps.base, i)
  {
    var cut := Steps(i, ps.chunkSize);
    var front, back := text[..cut], text[cut..];
    assert text == front + back;
    FramesSplit(ps, front, back, i);
    FirstNonce(ps, i, back);
    AfterFront(Frames(ps, 0, front), Frames(ps, i, back), NONCE_SIZE);
  }

  lemma FramesSplit(ps: Params, front: Bytes, back: Bytes, i: nat)
    requires ps.Valid() && i < TWO_64 && |front| == Steps(i, ps.chunkSize)
    ensures Frames(ps, 0, front + back) == Frames(ps, 0, front) + Frames(ps, i, back)
    ensures |Frames(ps, 0, front)| == Steps(i, ps.chunkSize + CHUNK_OVERHEAD)
  {
    FramerAdds(ps);
    LayAppend(Framer(ps), ps.chunkSize, 0, front, back, i);
    LaySize(Framer(ps), ps.chunkSize, CHUNK_OVERHEAD, 0, front, i);
  }

  lemma AfterFront<T>(front: seq<T>, back: seq<T>, n: nat)
    requires n <= |back|
    ensures (front + back)[|front|..|front| + n] == back[..n]
  {
  }

  lemma FirstNonce(ps: Params, i: nat, text: Bytes)
    requires ps.Valid() && text != []
    ensures NONCE_SIZE <= |Frames(ps, i, text)| && Frames(ps, i, text)[..NONCE_SIZE] == DeriveNonce(ps.base, i)
  {
    var chunk := if |text| <= ps.chunkSize then text else text[..ps.chunkSize];
    assert Frame(ps, i, chunk)[..NONCE_SIZE] == DeriveNonce(ps.base, i);
    assert Frame(ps, i, chunk) <= Frames(ps, i, text);
  }

  /** No two frames of one stream carry the same nonce. */
  lemma StreamNoncesDistinct(ps: Params, text: Bytes, i: nat, j: nat)
    requires ps.Valid() && i < TWO_64 && j < TWO_64 && i != j
    requires Steps(i, ps.chunkSize) < |text| && Steps(j, ps.chunkSize) < |text|
    ensures
      var f, a, b := Frames(ps, 0, text), Steps(i, ps.chunkSize + CHUNK_OVERHEAD), Steps(j, ps.chunkSize + CHUNK_OVERHEAD);
      && a + NONCE_SIZE <= |f| && b + NONCE_SIZE <= |f|
      && f[a..a + NONCE_SIZE] != f[b..b + NONCE_SIZE]
  {
    FrameNonce(ps, text, i);
    FrameNonce(ps, text, j);
    if DeriveNonce(ps.base, i) == DeriveNonce(ps.base, j) {
      NoncesDistinct(ps.base, i, j);
    }
  }
}
