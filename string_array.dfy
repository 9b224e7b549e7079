/**
 * `StringArray`: many strings stored back to back in one byte buffer,
 * with the byte range of each string kept in a second list.
 */
module StringArrays {
  import opened Wrappers
  import opened Bytes

  class StringArray {
    var bytes: seq<u8>
    var indices: seq<(nat, nat)>
    /** The strings pushed so far, in order. */
    ghost var strings: seq<seq<u8>>

    /** Range i covers exactly string i, and the ranges tile the buffer in order. */
    ghost predicate Valid()
      reads this
    {
      |indices| == |strings|
      && (forall i :: 0 <= i < |indices| ==>
            indices[i].0 <= indices[i].1 <= |bytes| && bytes[indices[i].0..indices[i].1] == strings[i])
      && (forall i :: 0 <= i < |indices| ==> indices[i].1 == End(indices, i + 1))
      && (|indices| == 0 ==> |bytes| == 0)
      && (|indices| > 0 ==> indices[|indices| - 1].1 == |bytes|)
    }

    /** Where the i-th range has to start: the end of the range before it. */
    static function End(ranges: seq<(nat, nat)>, i: nat): nat
      requires i <= |ranges|
    {
      if i == 0 then 0 else ranges[i - 1].1
    }

    constructor ()
      ensures Valid() && strings == [] && Len() == 0
    {
      bytes, indices, strings := [], [], [];
    }

    /** `len`: the number of strings. */
    function Len(): (n: nat)
      reads this
      requires Valid()
      ensures n == |strings|
    {
      |indices|
    }

    /** `index`: string `idx`, or a panic (None) when idx is out of range. */
    function Index(idx: nat): (r: Option<seq<u8>>)
      reads this
      requires Valid()
      ensures r.None? <==> idx >= |strings|
      ensures r.Some? ==> r.value == strings[idx]
    {
      if idx < |indices| then Some(bytes[indices[idx].0..indices[idx].1]) else None
    }

    /** `push`: store the bytes at the end of the buffer and record their range. */
    method Push(s: seq<u8>)
      requires Valid()
      modifies this
      ensures Valid()
      ensures strings == old(strings) + [s]
      ensures Len() == old(Len()) + 1 && Index(Len() - 1) == Some(s)
      ensures forall i :: 0 <= i < old(Len()) ==> Index(i) == old(Index(i))
      ensures bytes == old(bytes) + s
      ensures indices == old(indices) + [(|old(bytes)|, |bytes|)]
    {
      var begin := |bytes|;
      bytes := bytes + s;
      var end := |bytes|;
      indices := indices + [(begin, end)];
      strings := strings + [s];
      assert bytes[begin..end] == s;
      forall i | 0 <= i < |indices| - 1
        ensures bytes[indices[i].0..indices[i].1] == strings[i]
      {
        assert bytes[indices[i].0..indices[i].1] == old(bytes)[indices[i].0..indices[i].1];
      }
    }
  }
}
