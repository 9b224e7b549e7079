/**
 * The C bootstrap's growable byte array (`StringDynArray` with
 * `char_array_add` and `char_array_finalize` in `src/util.c`).  The buffer
 * `begin` is NULL until the first addition; the bytes `begin[0..end)` are
 * the contents, and `capacity` bytes are allocated.  `realloc` keeps the
 * contents, so only the contents and the capacity are modelled, not the
 * addresses.
 */
module CharArray {
  import opened Bytes

  /** The largest value of the C `int` loop counter of `char_array_add`. */
  const INT_MAX: nat := 0x7FFF_FFFF

  /** The capacity the first addition allocates. */
  const FIRST_CAPACITY: nat := 256

  /** The capacity `char_array_add` leaves: the first allocation, then growth by half plus `len` when full. */
  function AddCapacity(hasBuffer: bool, capacity: nat, end: nat, len: nat): (c: nat)
    requires end <= capacity && (hasBuffer || end == 0)
    ensures c >= end + len
    ensures !hasBuffer ==> c >= FIRST_CAPACITY
    ensures hasBuffer && capacity - end >= len ==> c == capacity
  {
    var cap := if hasBuffer then capacity else FIRST_CAPACITY;
    if cap - end < len then cap / 2 + cap + len else cap
  }

  /** The first addition allocates 256 bytes, or more when the bytes added do not fit in them. */
  lemma FirstAddCapacity(len: nat)
    ensures len <= FIRST_CAPACITY ==> AddCapacity(false, 0, 0, len) == FIRST_CAPACITY
    ensures len > FIRST_CAPACITY ==> AddCapacity(false, 0, 0, len) == FIRST_CAPACITY / 2 + FIRST_CAPACITY + len
  {
  }

  class StringDynArray {
    /** `begin != NULL`. */
    var hasBuffer: bool
    /** `begin[0..end)`. */
    var bytes: seq<u8>
    var end: nat
    var capacity: nat

    ghost predicate Valid()
      reads this
    {
      end == |bytes| <= capacity && (!hasBuffer ==> capacity == 0 && end == 0)
    }

    /** `{NULL, 0, 0}`: the empty array, nothing allocated. */
    constructor ()
      ensures Valid() && !hasBuffer && bytes == [] && capacity == 0
    {
      hasBuffer, bytes, end, capacity := false, [], 0, 0;
    }

    /**
     * `char_array_add`: allocate or grow if needed, then copy `len` bytes of
     * `buf` one at a time.  The `int` counter would overflow, which C leaves
     * undefined, on a `len` above `INT_MAX`.
     */
    method Add(buf: seq<u8>, len: nat)
      requires Valid() && len <= |buf| && len <= INT_MAX
      modifies this
      ensures Valid() && hasBuffer
      ensures bytes == old(bytes) + buf[..len] && end == old(end) + len
      ensures capacity == AddCapacity(old(hasBuffer), old(capacity), old(end), len)
    {
      if !hasBuffer {
        hasBuffer := true;
        capacity := FIRST_CAPACITY;
      }
      if capacity - end < len {
        capacity := capacity / 2 + capacity + len;
      }
      ghost var before := bytes;
      var i := 0;
      while i < len
        invariant 0 <= i <= len
        invariant bytes == before + buf[..i] && end == |bytes| && before == old(bytes)
        invariant hasBuffer && capacity == AddCapacity(old(hasBuffer), old(capacity), old(end), len)
        invariant end + (len - i) <= capacity
      {
        bytes := bytes + [buf[i]];
        assert buf[..i + 1] == buf[..i] + [buf[i]];
        end := end + 1;
        i := i + 1;
      }
    }

    /** `char_array_finalize`: one more byte of room only when full, then a terminating 0. */
    method Finalize()
      requires Valid()
      modifies this
      ensures Valid() && hasBuffer
      ensures bytes == old(bytes) + [0] && end == old(end) + 1
      ensures capacity == old(capacity) + (if old(capacity) == old(end) then 1 else 0)
    {
      if capacity == end {
        capacity := capacity + 1;
        hasBuffer := true;
      }
      bytes := bytes + [0];
      end := end + 1;
    }
  }
}
