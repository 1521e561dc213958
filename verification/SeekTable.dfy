/** Reads a seek table asks for, through a prefetched tail:
    internal/compression/ranged.go. Sizes and offsets are 64-bit; where the
    source may wrap, the wrap is written out. */
module SeekTable {
  import opened Common

  const TAIL_PREFETCH_SIZE: int := 8192

  /** The 64-bit signed value of an integer. */
  function Wrap64(x: int): int {
    (x - MIN_INT64) % TWO_64 + MIN_INT64
  }

  predicate Int64(x: int) {
    MIN_INT64 <= x <= MAX_INT64
  }

  datatype ReadError = RangeBounds | CorruptObject | FetchFailed | ShortRange

  /** What the source of the stored object answers for the bytes [start, end]. */
  type Fetcher = (int, int) -> Option<Bytes>

  /** A fetcher whose answers of the right length are the right bytes. */
  ghost predicate Truthful(fetch: Fetcher, stored: Bytes) {
    forall start, end :: 0 <= start <= end && fetch(start, end).Some? && |fetch(start, end).value| == end - start + 1 ==>
      end < |stored| && fetch(start, end).value == stored[start..end + 1]
  }

  /** Whether n bytes at off are the stored object's. */
  predicate Slice(stored: Bytes, off: int, n: int, got: Bytes) {
    0 <= off && 0 <= n && off + n <= |stored| && got == stored[off..off + n]
  }

  lemma SliceOfSlice(stored: Bytes, start: int, end: int, off: int, n: int)
    requires 0 <= start <= off && 0 <= n && off + n <= end <= |stored|
    ensures stored[start..end][off - start..off - start + n] == stored[off..off + n]
  {
    var a := off - start;
    var left, right := stored[start..end][a..a + n], stored[off..off + n];
    forall i | 0 <= i < |left|
      ensures left[i] == right[i]
    {
      assert stored[start..end][a + i] == stored[off + i];
    }
  }

  class RangeEnv {
    const fetch: Fetcher
    const size: int
    var tail: Bytes

    /** tail is the end of the stored object, as far as it was prefetched. */
    ghost predicate Valid(stored: Bytes)
      reads this
    {
      && 0 < size <= MAX_INT64 && |tail| <= size
      && (tail == [] || Slice(stored, size - |tail|, |tail|, tail))
    }

    constructor (fetch: Fetcher, size: int)
      ensures this.fetch == fetch && this.size == size && tail == []
    {
      this.fetch, this.size, tail := fetch, size, [];
    }

    /** Whether a range lies in the object. */
    predicate Inside(off: int, n: int) {
      0 <= off && 0 < n && off <= size - n
    }

    predicate Answered(off: int, n: int) {
      fetch(off, off + n - 1).Some? && |fetch(off, off + n - 1).value| == n
    }

    /** Exactly n bytes at off, or the reason there are none. */
    method FetchAt(ghost stored: Bytes, off: int, n: int) returns (r: Result<Bytes, ReadError>)
      requires Int64(off) && Int64(n) && 0 < size <= MAX_INT64 && Truthful(fetch, stored)
      ensures r.Ok? <==> Inside(off, n) && Answered(off, n)
      ensures r.Ok? ==> Slice(stored, off, n, r.value)
      ensures r.Err? ==> r.error == if !Inside(off, n) then CorruptObject
                                    else if fetch(off, off + n - 1).None? then FetchFailed else ShortRange
    {
      if off < 0 || n <= 0 || off > Wrap64(size - n) {
        return Err(CorruptObject);
      }
      var answer := fetch(off, Wrap64(off + n - 1));
      if answer.None? {
        return Err(FetchFailed);
      }
      if |answer.value| != n {
        return Err(ShortRange);
      }
      return Ok(answer.value);
    }

    /** A tail of the stream, kept for the reads after it. */
    method ReadFooter(ghost stored: Bytes) returns (r: Result<Bytes, ReadError>)
      requires Valid(stored) && Truthful(fetch, stored)
      modifies this`tail
      ensures Valid(stored)
      ensures var n := Min(TAIL_PREFETCH_SIZE, size);
              if Answered(size - n, n)
              then r.Ok? && tail == r.value && Slice(stored, size - n, n, tail)
              else r.Err? && tail == old(tail)
    {
      var n := Min(TAIL_PREFETCH_SIZE, size);
      r := FetchAt(stored, size - n, n);
      if r.Ok? {
        tail := r.value;
      }
    }

    /** The last offset bytes of the stream, whatever offset a footer names. */
    method ReadSkipFrame(ghost stored: Bytes, offset: int) returns (r: Result<Bytes, ReadError>)
      requires Valid(stored) && Truthful(fetch, stored) && Int64(offset)
      ensures r.Ok? <==> 0 < offset <= size && (offset <= |tail| || Answered(size - offset, offset))
      ensures r.Ok? ==> Slice(stored, size - offset, offset, r.value)
    {
      if 0 < offset <= |tail| {
        assert tail[|tail| - offset..] == stored[size - offset..size];
        return Ok(tail[|tail| - offset..]);
      }
      r := FetchAt(stored, Wrap64(size - offset), offset);
    }

    /** Whether the tail holds a range's bytes. */
    predicate InTail(off: int)
      reads this
    {
      tail != [] && off >= size - |tail|
    }

    /** One compressed frame, at whatever unsigned offset and size the seek table
        names. */
    method GetFrameByIndex(ghost stored: Bytes, offset: int, n: int) returns (r: Result<Bytes, ReadError>)
      requires Valid(stored) && Truthful(fetch, stored)
      requires 0 <= offset < TWO_64 && 0 <= n < 0x1_0000_0000
      ensures r.Ok? <==> offset + n <= size && (InTail(offset) || (n > 0 && Answered(offset, n)))
      ensures r.Ok? ==> Slice(stored, offset, n, r.value)
      ensures r == Err(RangeBounds) <==> offset + n > size
    {
      assert offset <= size ==> (size - offset) % TWO_64 == size - offset;
      if offset > size || n > (size - offset) % TWO_64 {
        return Err(RangeBounds);
      }
      if InTail(offset) {
        var start := size - |tail|;
        SliceOfSlice(stored, start, size, offset, n);
        return Ok(tail[offset - start..offset - start + n]);
      }
      r := FetchAt(stored, offset, n);
    }
  }
}
