/**
 * The C bootstrap's bump allocator (`bump_ptr`, `bump_alloc`, `bump_new`,
 * written identically in `src/util.c` and `src/util.h`).  A bucket list is
 * a chain of buckets, each a 24-byte header followed by `len` bytes; an
 * allocation is carved from the first bucket with room, and only the last
 * bucket of the chain grows a successor.
 *
 * Addresses are numbers below 2^64, 0 standing for NULL.  A bucket is
 * described by the address of its first byte (`list + 1`), its bump
 * pointer and its length; the chain is the sequence of buckets in `next`
 * order.  `malloc` is a parameter: the address it returns.
 */
module BumpAlloc {
  import opened Bytes

  /** `sizeof(BucketList)`: three 8-byte fields before a bucket's bytes. */
  const HEADER: nat := 24

  /** The length of the bucket `bump_new` creates. */
  const FIRST_LEN: nat := 1024

  /** `((((size_t)bump_ - 1) >> 3) + 1) << 3`, in 64-bit unsigned arithmetic. */
  function AlignUp(b: nat): (r: nat)
    requires b < TWO_64
    ensures r < TWO_64
  {
    Wrap((Wrap(b - 1, TWO_64) / 8 + 1) * 8, TWO_64)
  }

  /**
   * Rounding up to a multiple of 8: a non-NULL result is the least multiple
   * of 8 not below `b`, and an aligned address is left as it is.  NULL stays
   * NULL, and so does an unaligned address in the last 8 bytes of the
   * address space, where the rounding wraps around.
   */
  lemma AlignUpRounds(b: nat)
    requires b < TWO_64
    ensures AlignUp(b) != 0 ==> AlignUp(b) % 8 == 0 && b <= AlignUp(b) < b + 8
    ensures 0 < b && b % 8 == 0 ==> AlignUp(b) == b
    ensures 0 < b <= TWO_64 - 8 ==> AlignUp(b) != 0
    ensures b == 0 ==> AlignUp(b) == 0
  {
    if b == 0 {
      assert Wrap(b - 1, TWO_64) == TWO_64 - 1;
      assert (TWO_64 - 1) / 8 + 1 == TWO_64 / 8;
    } else {
      var q := (b - 1) / 8;
      assert Wrap(b - 1, TWO_64) == b - 1;
      assert 8 * q <= b - 1 < 8 * q + 8;
      assert (q + 1) * 8 == 8 * q + 8;
      if b <= TWO_64 - 8 {
        assert Wrap((q + 1) * 8, TWO_64) == (q + 1) * 8;
      }
      if b % 8 == 0 {
        assert b - 1 == 8 * (b / 8 - 1) + 7;
        assert q == b / 8 - 1;
      }
    }
  }

  /** `Bump`: the aligned address to hand out (0 when it does not fit) and the next bump pointer. */
  datatype BumpResult = BumpResult(ptr: nat, nextBump: nat)

  /** `bump_ptr`: align the bump pointer, and succeed when `size` bytes fit before `end`. */
  function BumpPtr(bump: nat, end: nat, size: nat): (r: BumpResult)
    requires bump < TWO_64
    ensures r.ptr != 0 <==> AlignUp(bump) != 0 && AlignUp(bump) + size <= end
    ensures r.ptr != 0 ==> r.ptr == AlignUp(bump) && r.nextBump == r.ptr + size
    ensures r.ptr == 0 ==> r.nextBump == 0 || r.nextBump == size
  {
    var aligned := AlignUp(bump);
    if aligned + size > end then BumpResult(0, 0) else BumpResult(aligned, aligned + size)
  }

  /**
   * A successful bump hands out an 8-aligned block that starts at or after
   * the bump pointer and ends at the new bump pointer, before `end`.
   */
  lemma BumpPtrFits(bump: nat, end: nat, size: nat)
    requires bump < TWO_64 && BumpPtr(bump, end, size).ptr != 0
    ensures var r := BumpPtr(bump, end, size);
            r.ptr % 8 == 0 && bump <= r.ptr < bump + 8 && r.nextBump == r.ptr + size <= end
  {
    AlignUpRounds(bump);
  }

  /** One bucket: the address of its first byte, its bump pointer, its length. */
  datatype Bucket = Bucket(start: nat, bump: nat, len: nat)
  {
    /** `array_begin + len`: one past the bucket's last byte. */
    function End(): nat { start + len }

    /** The bump pointer lies inside the bucket, which lies inside the address space. */
    predicate Valid()
    {
      0 < start <= bump <= End() < TWO_64
    }
  }

  /** `max(len / 2 + len, size)`: the length of the bucket grown after one of length `len`. */
  function GrowLen(len: nat, size: nat): (n: nat)
    ensures n >= size && n >= len + len / 2
    ensures n == size || n == len + len / 2
  {
    var next := len / 2 + len;
    if next < size then size else next
  }

  /** What `bump_alloc` hands out and the chain after it. */
  datatype Allocation = Allocation(ptr: nat, buckets: seq<Bucket>)

  predicate ValidChain(bs: seq<Bucket>)
  {
    |bs| > 0 && forall i :: 0 <= i < |bs| ==> bs[i].Valid()
  }

  /**
   * `bump_alloc` on the bucket at index `i` of the chain: bump inside it,
   * else try its successor, else link a new bucket at `block` (what
   * `malloc` returned) and hand out its first byte.
   */
  function Alloc(bs: seq<Bucket>, i: nat, size: nat, block: nat): (r: Allocation)
    requires i < |bs| && ValidChain(bs)
    decreases |bs| - i
  {
    var b := bs[i];
    var result := BumpPtr(b.bump, b.End(), size);
    if result.ptr != 0 then Allocation(result.ptr, bs[i := b.(bump := result.nextBump)])
    else if i + 1 < |bs| then Alloc(bs, i + 1, size, block)
    else
      var start := block + HEADER;
      Allocation(start, bs + [Bucket(start, start + size, GrowLen(b.len, size))])
  }

  /** Whether bucket `k` has room for `size` more bytes. */
  predicate Fits(bs: seq<Bucket>, k: nat, size: nat)
    requires k < |bs| && ValidChain(bs)
  {
    BumpPtr(bs[k].bump, bs[k].End(), size).ptr != 0
  }

  /** The first bucket from index `i` on with room for `size` bytes, or `|bs|` when there is none. */
  function FirstFit(bs: seq<Bucket>, i: nat, size: nat): (j: nat)
    requires i <= |bs| && ValidChain(bs)
    ensures i <= j <= |bs|
    ensures j < |bs| ==> Fits(bs, j, size)
    ensures forall k :: i <= k < j ==> !Fits(bs, k, size)
    decreases |bs| - i
  {
    if i == |bs| || Fits(bs, i, size) then i else FirstFit(bs, i + 1, size)
  }

  /**
   * `bump_alloc` bumps the first bucket with room, changing only that
   * bucket's bump pointer to the end of the block it hands out; when no
   * bucket has room it appends one bucket of length `max(len + len/2, size)`
   * after the last, its bump pointer `size` past its start, and hands out
   * that start.
   */
  lemma {:induction false} AllocOutcome(bs: seq<Bucket>, i: nat, size: nat, block: nat)
    requires i < |bs| && ValidChain(bs)
    ensures var j := FirstFit(bs, i, size);
            var r := Alloc(bs, i, size, block);
            if j < |bs| then
              var ptr := BumpPtr(bs[j].bump, bs[j].End(), size).ptr;
              r == Allocation(ptr, bs[j := bs[j].(bump := ptr + size)])
            else
              var start := block + HEADER;
              r == Allocation(start, bs + [Bucket(start, start + size, GrowLen(bs[|bs| - 1].len, size))])
    decreases |bs| - i
  {
    if !Fits(bs, i, size) && i + 1 < |bs| {
      AllocOutcome(bs, i + 1, size, block);
    }
  }

  /**
   * The block handed out is fresh: it starts at or after the bump pointer of
   * the bucket it came from (so it overlaps nothing handed out before) and
   * is 8-aligned, or it is the start of the new bucket; either way it ends
   * at that bucket's new bump pointer, inside the bucket.  Every bucket
   * stays valid.
   */
  lemma AllocFresh(bs: seq<Bucket>, size: nat, block: nat)
    requires ValidChain(bs)
    requires block + HEADER + GrowLen(bs[|bs| - 1].len, size) < TWO_64
    ensures var j := FirstFit(bs, 0, size);
            var r := Alloc(bs, 0, size, block);
            ValidChain(r.buckets) && j < |r.buckets|
            && r.buckets[j].start <= r.ptr && r.ptr + size == r.buckets[j].bump
            && (j < |bs| ==> r.ptr % 8 == 0 && bs[j].bump <= r.ptr && r.buckets[j].start == bs[j].start
                             && r.buckets[j].len == bs[j].len)
  {
    AllocOutcome(bs, 0, size, block);
    var j := FirstFit(bs, 0, size);
    var r := Alloc(bs, 0, size, block);
    if j < |bs| {
      BumpPtrFits(bs[j].bump, bs[j].End(), size);
      assert r.buckets[j].Valid();
    } else {
      assert r.buckets[j].Valid();
    }
    assert forall k :: 0 <= k < |r.buckets| ==> r.buckets[k].Valid();
  }

  /** The allocator behind a `BucketList *`: the chain of buckets it heads. */
  class BucketList {
    var buckets: seq<Bucket>

    ghost predicate Valid()
      reads this
    {
      ValidChain(buckets)
    }

    /** `bump_new`: one empty bucket of 1024 bytes after the header `malloc` placed at `block`. */
    constructor (block: nat)
      requires block + HEADER + FIRST_LEN < TWO_64
      ensures Valid()
      ensures buckets == [Bucket(block + HEADER, block + HEADER, FIRST_LEN)]
    {
      buckets := [Bucket(block + HEADER, block + HEADER, FIRST_LEN)];
    }

    /**
     * `bump_alloc` from the head of the chain.  `block` is what `malloc`
     * returns if a bucket has to be added.
     */
    method BumpAlloc(size: nat, block: nat) returns (ptr: nat)
      requires Valid()
      requires block + HEADER + GrowLen(buckets[|buckets| - 1].len, size) < TWO_64
      modifies this
      ensures Valid()
      ensures Allocation(ptr, buckets) == Alloc(old(buckets), 0, size, block)
    {
      ghost var expected := Alloc(buckets, 0, size, block);
      AllocOutcome(buckets, 0, size, block);
      AllocFresh(buckets, size, block);
      var i := FindBucket(size);
      if i < |buckets| {
        var b := buckets[i];
        var result := BumpPtr(b.bump, b.End(), size);
        buckets := buckets[i := b.(bump := result.nextBump)];
        ptr := result.ptr;
      } else {
        var last := buckets[|buckets| - 1];
        var nextLen := last.len / 2 + last.len;
        if nextLen < size {
          nextLen := size;
        }
        ptr := block + HEADER;
        buckets := buckets + [Bucket(ptr, ptr + size, nextLen)];
      }
      assert Allocation(ptr, buckets) == expected;
    }

    /** The recursion of `bump_alloc` into `next`: walk the chain to the first bucket with room. */
    method FindBucket(size: nat) returns (i: nat)
      requires Valid()
      ensures i == FirstFit(buckets, 0, size)
    {
      i := 0;
      while i < |buckets|
        invariant 0 <= i <= |buckets|
        invariant FirstFit(buckets, 0, size) == FirstFit(buckets, i, size)
      {
        var b := buckets[i];
        if BumpPtr(b.bump, b.End(), size).ptr != 0 {
          return;
        }
        i := i + 1;
      }
    }
  }
}
