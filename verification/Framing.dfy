/** Cutting a text into chunks and laying the chunks' frames end to end, for any
    way of framing one chunk that adds a fixed overhead. The facts here are what
    lets a ranged read pick out frames by arithmetic alone. */
module Framing {
  import opened Common

  /** Chunk indexes are unsigned 64-bit and wrap. */
  function NextIdx(idx: nat): nat {
    if idx + 1 == TWO_64 then 0 else idx + 1
  }

  /** The frames of a text's chunks from index idx on. */
  function Lay<T>(f: (nat, seq<T>) -> seq<T>, cs: nat, idx: nat, text: seq<T>): seq<T>
    requires cs > 0
    decreases |text|
  {
    if text == [] then []
    else if |text| <= cs then f(idx, text)
    else f(idx, text[..cs]) + Lay(f, cs, NextIdx(idx), text[cs..])
  }

  ghost predicate Adds<T(!new)>(f: (nat, seq<T>) -> seq<T>, overhead: nat) {
    forall i, c :: |f(i, c)| == |c| + overhead
  }

  /** k steps of m, kept apart from multiplication so that offsets stay linear. */
  function Steps(k: nat, m: nat): nat {
    if k == 0 then 0 else Steps(k - 1, m) + m
  }

  lemma {:induction false} StepsIsProduct(k: nat, m: nat)
    ensures Steps(k, m) == k * m
  {
    if k > 0 {
      StepsIsProduct(k - 1, m);
      assert (k - 1) * m + m == k * m;
    }
  }

  lemma {:induction false} StepsAdd(j: nat, k: nat, m: nat)
    ensures Steps(j + k, m) == Steps(j, m) + Steps(k, m)
  {
    if k > 0 {
      StepsAdd(j, k - 1, m);
    }
  }

  lemma {:induction false} StepsMonotone(j: nat, k: nat, m: nat)
    requires j <= k
    ensures Steps(j, m) <= Steps(k, m)
  {
    if j < k {
      StepsMonotone(j, k - 1, m);
    }
  }

  lemma Associate<T>(x: seq<T>, y: seq<T>, z: seq<T>)
    ensures x + y + z == x + (y + z)
  {
  }

  /** A full chunk in front puts its frame in front. */
  lemma LayCons<T>(f: (nat, seq<T>) -> seq<T>, cs: nat, idx: nat, chunk: seq<T>, rest: seq<T>)
    requires |chunk| == cs > 0
    ensures Lay(f, cs, idx, chunk + rest) == f(idx, chunk) + Lay(f, cs, NextIdx(idx), rest)
  {
    var text := chunk + rest;
    assert text[..cs] == chunk && text[cs..] == rest;
    if rest == [] {
      assert text == chunk;
    }
  }

  /** A text cut between chunks: the frames of the front, then the frames of the
      back under the indexes that follow. */
  lemma {:induction false} LayAppend<T>(f: (nat, seq<T>) -> seq<T>, cs: nat, idx: nat, front: seq<T>, back: seq<T>, k: nat)
    requires cs > 0 && idx + k < TWO_64 && |front| == Steps(k, cs)
    ensures Lay(f, cs, idx, front + back) == Lay(f, cs, idx, front) + Lay(f, cs, idx + k, back)
    decreases k
  {
    if k == 0 {
      assert front == [] && front + back == back;
    } else {
      var chunk, mid := front[..cs], front[cs..];
      assert front == chunk + mid;
      Associate(chunk, mid, back);
      LayCons(f, cs, idx, chunk, mid + back);
      LayCons(f, cs, idx, chunk, mid);
      LayAppend(f, cs, idx + 1, mid, back, k - 1);
      Associate(f(idx, chunk), Lay(f, cs, idx + 1, mid), Lay(f, cs, idx + k, back));
    }
  }

  /** k full chunks take k full frames. */
  lemma {:induction false} LaySize<T(!new)>(f: (nat, seq<T>) -> seq<T>, cs: nat, overhead: nat, idx: nat, text: seq<T>, k: nat)
    requires cs > 0 && Adds(f, overhead) && |text| == Steps(k, cs)
    ensures |Lay(f, cs, idx, text)| == Steps(k, cs + overhead)
    decreases k
  {
    if k > 0 {
      var chunk, rest := text[..cs], text[cs..];
      assert text == chunk + rest;
      LayCons(f, cs, idx, chunk, rest);
      LaySize(f, cs, overhead, NextIdx(idx), rest, k - 1);
    }
  }

  /** At most k chunks take at most k full frames. */
  lemma {:induction false} LayAtMost<T(!new)>(f: (nat, seq<T>) -> seq<T>, cs: nat, overhead: nat, idx: nat, text: seq<T>, k: nat)
    requires cs > 0 && Adds(f, overhead) && |text| <= Steps(k, cs)
    ensures |Lay(f, cs, idx, text)| <= Steps(k, cs + overhead)
    decreases k
  {
    if |text| > cs {
      LayAtMost(f, cs, overhead, NextIdx(idx), text[cs..], k - 1);
    }
  }

  // ---------------------------------------------------------------------
  // Picking out the frames of a stretch of chunks
  // ---------------------------------------------------------------------

  /** A stretch of chunks: the first and how many. */
  datatype Span = Span(first: nat, count: nat)

  /** A text cut around a span: what is before it, its own chunks, and what is
      after. The span's last chunk starts inside the text, so its own part is not
      empty, and is short only when nothing follows. */
  predicate Cuts<T>(s: Span, cs: nat, before: seq<T>, own: seq<T>, after: seq<T>) {
    && s.count > 0 && s.first + s.count < TWO_64
    && |before| == Steps(s.first, cs)
    && Steps(s.count - 1, cs) < |own| <= Steps(s.count, cs)
    && (|after| == 0 || |own| == Steps(s.count, cs))
  }

  /** The inclusive stretch of a stored object, its end clamped to the object. */
  function Clamped<T>(stored: seq<T>, from: nat, to: nat): seq<T>
    requires from <= to && from < |stored|
  {
    stored[from..Min(to, |stored| - 1) + 1]
  }

  lemma ClampedMiddle<T>(x: seq<T>, y: seq<T>, z: seq<T>, m: nat)
    requires y != [] && |y| <= m && (z == [] || |y| == m)
    ensures Clamped(x + y + z, |x|, |x| + m - 1) == y
  {
  }

  /** The frames of a text cut around a span. */
  lemma LayAround<T>(f: (nat, seq<T>) -> seq<T>, cs: nat, s: Span, before: seq<T>, own: seq<T>, after: seq<T>)
    requires cs > 0 && Cuts(s, cs, before, own, after)
    ensures Lay(f, cs, 0, before + own + after)
         == Lay(f, cs, 0, before) + Lay(f, cs, s.first, own) + Lay(f, cs, s.first + s.count, after)
  {
    Associate(before, own, after);
    LayAppend(f, cs, 0, before, own + after, s.first);
    if after == [] {
      assert own + after == own;
      assert Lay(f, cs, s.first + s.count, after) == [];
    } else {
      LayAppend(f, cs, s.first, own, after, s.count);
    }
  }

  /** A span's own frames: not empty, and within one frame of full. */
  lemma OwnFrames<T(!new)>(f: (nat, seq<T>) -> seq<T>, cs: nat, overhead: nat, s: Span, own: seq<T>)
    requires cs > 0 && Adds(f, overhead) && s.count > 0 && s.first + s.count < TWO_64
    requires Steps(s.count - 1, cs) < |own| <= Steps(s.count, cs)
    ensures 0 < |Lay(f, cs, s.first, own)| <= Steps(s.count, cs + overhead)
    ensures Steps(s.count, cs + overhead) < |Lay(f, cs, s.first, own)| + cs + overhead
  {
    var n := Steps(s.count - 1, cs);
    var full, last := own[..n], own[n..];
    assert own == full + last;
    LayAppend(f, cs, s.first, full, last, s.count - 1);
    LaySize(f, cs, overhead, s.first, full, s.count - 1);
    assert |Lay(f, cs, s.first + (s.count - 1), last)| > 0;
    LayAtMost(f, cs, overhead, s.first, own, s.count);
  }

  lemma StoredAround<T>(
      f: (nat, seq<T>) -> seq<T>, cs: nat, head: seq<T>, s: Span, before: seq<T>, own: seq<T>, after: seq<T>)
    requires cs > 0 && Cuts(s, cs, before, own, after)
    ensures head + Lay(f, cs, 0, before + own + after)
         == (head + Lay(f, cs, 0, before)) + Lay(f, cs, s.first, own) + Lay(f, cs, s.first + s.count, after)
  {
    LayAround(f, cs, s, before, own, after);
    Reassociate(head, Lay(f, cs, 0, before), Lay(f, cs, s.first, own), Lay(f, cs, s.first + s.count, after));
  }

  lemma SizesAround<T(!new)>(
      f: (nat, seq<T>) -> seq<T>, cs: nat, overhead: nat, s: Span, before: seq<T>, own: seq<T>, after: seq<T>)
    requires cs > 0 && Adds(f, overhead) && Cuts(s, cs, before, own, after)
    ensures |Lay(f, cs, 0, before)| == Steps(s.first, cs + overhead)
    ensures Lay(f, cs, s.first + s.count, after) == [] || |Lay(f, cs, s.first, own)| == Steps(s.count, cs + overhead)
  {
    LaySize(f, cs, overhead, 0, before, s.first);
    if after != [] {
      LaySize(f, cs, overhead, s.first, own, s.count);
    }
  }

  /** The stretch of stored bytes that arithmetic on the span names is exactly the
      frames of the span's chunks: none missing, none taken in vain. */
  lemma ClampedSpan<T(!new)>(
      f: (nat, seq<T>) -> seq<T>, cs: nat, overhead: nat, head: seq<T>, s: Span, before: seq<T>, own: seq<T>, after: seq<T>)
    requires cs > 0 && Adds(f, overhead) && Cuts(s, cs, before, own, after)
    ensures
      var stored := head + Lay(f, cs, 0, before + own + after);
      var from := |head| + Steps(s.first, cs + overhead);
      var to := |head| + Steps(s.first + s.count, cs + overhead) - 1;
      && from <= to < |stored| + cs + overhead && from < |stored|
      && Clamped(stored, from, to) == Lay(f, cs, s.first, own)
  {
    var x, z := PartsOf(f, cs, overhead, head, s, before, own, after);
    StepsAdd(s.first, s.count, cs + overhead);
    ClampedBetween(head, x, Lay(f, cs, s.first, own), z, Steps(s.count, cs + overhead), cs + overhead);
  }

  lemma PartsOf<T(!new)>(
      f: (nat, seq<T>) -> seq<T>, cs: nat, overhead: nat, head: seq<T>, s: Span, before: seq<T>, own: seq<T>, after: seq<T>)
    returns (x: seq<T>, z: seq<T>)
    requires cs > 0 && Adds(f, overhead) && Cuts(s, cs, before, own, after)
    ensures
      var y, size := Lay(f, cs, s.first, own), Steps(s.count, cs + overhead);
      && head + Lay(f, cs, 0, before + own + after) == (head + x) + y + z && |x| == Steps(s.first, cs + overhead)
      && 0 < |y| <= size < |y| + cs + overhead && (z == [] || |y| == size)
  {
    x, z := Lay(f, cs, 0, before), Lay(f, cs, s.first + s.count, after);
    StoredAround(f, cs, head, s, before, own, after);
    SizesAround(f, cs, overhead, s, before, own, after);
    OwnFrames(f, cs, overhead, s, own);
  }

  lemma ClampedBetween<T>(head: seq<T>, x: seq<T>, y: seq<T>, z: seq<T>, size: nat, slack: nat)
    requires 0 < |y| <= size < |y| + slack && (z == [] || |y| == size)
    ensures
      var stored, from, to := (head + x) + y + z, |head| + |x|, |head| + (|x| + size) - 1;
      from <= to < |stored| + slack && from < |stored| && Clamped(stored, from, to) == y
  {
    ClampedMiddle(head + x, y, z, size);
  }

  lemma Reassociate<T>(w: seq<T>, x: seq<T>, y: seq<T>, z: seq<T>)
    ensures w + (x + y + z) == (w + x) + y + z
  {
  }

  /** Cutting a range out of a span's own part. */
  lemma CutOut<T>(before: seq<T>, own: seq<T>, after: seq<T>, start: nat, end: nat)
    requires |before| <= start <= end < |before| + |own|
    ensures own[start - |before|..end - |before| + 1] == (before + own + after)[start..end + 1]
  {
  }

  // ---------------------------------------------------------------------
  // The span of a range
  // ---------------------------------------------------------------------

  lemma ChunkStart(x: nat, cs: nat, q: nat)
    requires cs > 0 && q == x / cs
    ensures Steps(q, cs) == x - x % cs
    ensures x < Steps(q, cs) + cs
    ensures q <= x
  {
    StepsIsProduct(q, cs);
    StepsAtLeast(q, cs);
  }

  lemma {:induction false} StepsAtLeast(k: nat, m: nat)
    requires m > 0
    ensures k <= Steps(k, m)
  {
    if k > 0 {
      StepsAtLeast(k - 1, m);
    }
  }

  lemma QuotientOrder(start: nat, end: nat, cs: nat)
    requires cs > 0 && start <= end
    ensures start / cs <= end / cs
  {
    ChunkStart(start, cs, start / cs);
    ChunkStart(end, cs, end / cs);
    if start / cs > end / cs {
      StepsMonotone(end / cs + 1, start / cs, cs);
    }
  }

  /** The text cut around the span of the range start through end. */
  lemma CutAround<T>(text: seq<T>, cs: nat, start: nat, end: nat)
      returns (s: Span, before: seq<T>, own: seq<T>, after: seq<T>)
    requires cs > 0 && start <= end < |text| && |text| + 1 < TWO_64
    ensures s.first == start / cs && s.first + s.count == end / cs + 1
    ensures Cuts(s, cs, before, own, after) && text == before + own + after
    ensures |before| <= start <= end < |before| + |own| && start % cs == start - |before|
  {
    ChunkStart(start, cs, start / cs);
    ChunkStart(end, cs, end / cs);
    QuotientOrder(start, end, cs);
    s := Span(start / cs, end / cs + 1 - start / cs);
    before, own, after := CutAt(text, cs, s, start, end);
  }

  lemma CutAt<T>(text: seq<T>, cs: nat, s: Span, start: nat, end: nat)
      returns (before: seq<T>, own: seq<T>, after: seq<T>)
    requires cs > 0 && s.count > 0 && s.first + s.count < TWO_64
    requires Steps(s.first, cs) <= start <= end < |text|
    requires Steps(s.first + s.count - 1, cs) <= end < Steps(s.first + s.count, cs)
    ensures Cuts(s, cs, before, own, after) && text == before + own + after
    ensures |before| == Steps(s.first, cs) && end < |before| + |own|
  {
    var a, b := Steps(s.first, cs), Min(Steps(s.first + s.count, cs), |text|);
    StepsAdd(s.first, s.count, cs);
    StepsAdd(s.first, s.count - 1, cs);
    before, own, after := text[..a], text[a..b], text[b..];
  }
}
