/**
 * The small numeric helpers of util.rs: rounding a size up to an
 * alignment, splitting a u32, and the non-null 32-bit index `n32`.
 * Unsigned machine arithmetic wraps (release-build semantics); a
 * division by zero panics, which is `None` here.
 */
module Numeric {
  import opened Wrappers
  import opened Bytes

  /**
   * `align_usize` (full = 2^64) and `align_u32` (full = 2^32): zero stays
   * zero, otherwise `(size - 1) / align * align + align` in the word.
   */
  function AlignUp(size: nat, align: nat, full: nat): (r: Option<nat>)
    requires full > 0 && size < full && align < full
    ensures size == 0 ==> r == Some(0)
    ensures size > 0 ==> (r.None? <==> align == 0)
    ensures r.Some? ==> r.value < full
  {
    if size == 0 then Some(0)
    else if align == 0 then None
    else
      var q := (size - 1) / align;
      Some(Wrap(q * align + align, full))
  }

  /** Without overflow the rounded size is the least multiple of align at or above size. */
  lemma AlignUpBounds(size: nat, align: nat, full: nat)
    requires full > 0 && 0 < size < full && 0 < align < full
    requires ((size - 1) / align + 1) * align < full
    ensures AlignUp(size, align, full).Some?
    ensures var r := AlignUp(size, align, full).value;
      r % align == 0 && size <= r < size + align
  {
    var q := (size - 1) / align;
    assert (q + 1) * align == q * align + align;
    assert size - 1 == q * align + (size - 1) % align;
    ModUnique(q * align + align, align, q + 1, 0);
  }

  /** An already aligned size is unchanged. */
  lemma AlignUpIdempotent(k: nat, align: nat, full: nat)
    requires full > 0 && 0 < align < full && 0 < k * align < full
    ensures AlignUp(k * align, align, full) == Some(k * align)
  {
    var size := k * align;
    assert k >= 1;
    assert size - 1 == (k - 1) * align + (align - 1);
    ModUnique(size - 1, align, k - 1, align - 1);
    assert (k - 1) * align + align == size;
  }

  /** `u32_to_u32_tup`: the high half of the word, and the whole word (not its low half). */
  function U32ToU32Tup(value: nat): (r: (nat, nat))
    requires value < TWO_32
    ensures r.0 < TWO_16 && r.1 == value
    ensures r.0 * TWO_16 <= value < (r.0 + 1) * TWO_16
  {
    (value / TWO_16, value)
  }

  /** The index type `n32`: a u32 in which all ones means null. */
  datatype N32 = N32(data: nat)

  const NULL_DATA: nat := TWO_32 - 1
  const NULL: N32 := N32(NULL_DATA)

  /** `n32::new`: panics (None) exactly on the null pattern. */
  function NewN32(data: nat): (r: Option<N32>)
    requires data < TWO_32
    ensures r.None? <==> data == NULL_DATA
    ensures r.Some? ==> r.value.data == data && r.value != NULL
  {
    if data == NULL_DATA then None else Some(N32(data))
  }

  /** `Into<u32>`: the stored word, or a panic for null. */
  function IntoU32(n: N32): (r: Option<nat>)
    ensures r.None? <==> n == NULL
    ensures r.Some? ==> r.value == n.data
  {
    if n == NULL then None else Some(n.data)
  }

  /** `n32 + u32`: the wrapped sum, or a panic when the sum is the null pattern. */
  function AddN32(n: N32, rhs: nat): (r: Option<N32>)
    requires n.data < TWO_32 && rhs < TWO_32
    ensures r.None? <==> (n.data + rhs) % TWO_32 == NULL_DATA
    ensures r.Some? ==> r.value.data < TWO_32 && r.value != NULL
    ensures r.Some? && n.data + rhs < TWO_32 ==> r.value.data == n.data + rhs
  {
    var sum := Wrap(n.data + rhs, TWO_32);
    if N32(sum) == NULL then None else Some(N32(sum))
  }

  /** Building an index and reading it back gives the word, for every non-null word. */
  lemma IntoNewRoundTrip(data: nat)
    requires data < TWO_32 && data != NULL_DATA
    ensures NewN32(data).Some? && IntoU32(NewN32(data).value) == Some(data)
  {
  }

  /** Offsetting a valid index without reaching null adds the offset. */
  lemma AddThenInto(data: nat, rhs: nat)
    requires data + rhs < NULL_DATA
    ensures NewN32(data).Some?
    ensures AddN32(NewN32(data).value, rhs).Some?
    ensures IntoU32(AddN32(NewN32(data).value, rhs).value) == Some(data + rhs)
  {
  }
}
