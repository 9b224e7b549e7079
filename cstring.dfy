/**
 * The C bootstrap's length-carrying strings (`String`, `string_new`,
 * `string_from_parts`, `streq` in `src/util.h`).  Memory from a pointer on
 * is the sequence of bytes readable there; a C string is such a sequence
 * holding a 0, its text being the bytes before the first 0.
 */
module CStrings {
  import opened Bytes

  /** `String`: the bytes from `str` on, and how many of them belong to the string. */
  datatype String = String(str: seq<u8>, len: nat)

  /** `strlen`: the index of the first 0. */
  function StrLen(val: seq<u8>): (n: nat)
    requires 0 in val
    ensures n < |val| && val[n] == 0
    ensures forall i :: 0 <= i < n ==> val[i] != 0
  {
    if val[0] == 0 then 0 else StrLen(val[1..]) + 1
  }

  /** The text of a C string: the bytes before its terminating 0. */
  function CText(val: seq<u8>): (t: seq<u8>)
    requires 0 in val
    ensures 0 !in t && t + [0] <= val
  {
    val[..StrLen(val)]
  }

  /** The text of a `String` whose bytes are readable. */
  function Text(s: String): seq<u8>
    requires s.len <= |s.str|
  {
    s.str[..s.len]
  }

  /** `string_new`: the C string's bytes, its length counted by `strlen`. */
  function StringNew(str: seq<u8>): (s: String)
    requires 0 in str
    ensures s.len <= |s.str| && Text(s) == CText(str)
  {
    String(str, StrLen(str))
  }

  /** `string_from_parts`: a pointer and a length, taken as they are. */
  function StringFromParts(str: seq<u8>, len: nat): (s: String)
    ensures s.str == str && s.len == len
  {
    String(str, len)
  }

  /** What `streq` decides: the `String`'s text is the C string's text. */
  predicate Equal(s: String, val: seq<u8>)
    requires 0 in val && s.len <= |s.str|
  {
    Text(s) == CText(val)
  }

  /** `streq`: compare the lengths, then the bytes one by one. */
  method StrEq(s: String, val: seq<u8>) returns (r: bool)
    requires 0 in val && s.len <= |s.str|
    ensures r <==> Equal(s, val)
  {
    var len := StrLen(val);
    if s.len != len {
      return false;
    }
    var i := 0;
    while i < len
      invariant 0 <= i <= len
      invariant s.str[..i] == val[..i]
    {
      if s.str[i] != val[i] {
        return false;
      }
      assert s.str[..i + 1] == s.str[..i] + [s.str[i]];
      assert val[..i + 1] == val[..i] + [val[i]];
      i := i + 1;
    }
    return true;
  }

  /** A string made from a C string equals it. */
  lemma StringNewEqual(val: seq<u8>)
    requires 0 in val
    ensures Equal(StringNew(val), val)
  {
  }

  /**
   * Strings of different lengths differ, whatever their bytes; a string built
   * from a pointer and `strlen` of the same C string equals it.
   */
  lemma EqualNeedsLength(s: String, val: seq<u8>)
    requires 0 in val && s.len <= |s.str|
    ensures s.len != StrLen(val) ==> !Equal(s, val)
    ensures StringFromParts(val, StrLen(val)) == StringNew(val)
  {
  }

  /** A prefix of a C string is not equal to it: the terminator is not part of the text. */
  lemma ProperPrefixUnequal(val: seq<u8>, n: nat)
    requires 0 in val && n < StrLen(val)
    ensures !Equal(StringFromParts(val, n), val)
  {
  }
}
