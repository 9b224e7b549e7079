/**
 * UTF-8 well-formedness as section 4 of RFC 3629 defines it, the lossy
 * decoder of util.rs (`Utf8LossyChunksIter`) that splits bytes into a
 * valid run and one broken sequence at a time, and the reference
 * meaning of a lossy conversion: every ill-formed sequence becomes
 * U+FFFD.
 */
module Utf8 {
  import opened Bytes

  /** UTF-8 of U+FFFD REPLACEMENT CHARACTER. */
  const REPLACEMENT: seq<u8> := [0xEF, 0xBF, 0xBD]

  /** A continuation byte, 10xxxxxx. */
  predicate Tail(b: u8) { 0x80 <= b <= 0xBF }

  /** The test util.rs uses: the top two bits are `10`. */
  predicate IsContTag(b: u8) { (b as bv8) & 192 == 128 }

  lemma ContTagIsTail(b: u8)
    ensures IsContTag(b) <==> Tail(b)
  {
  }

  /** `UTF8_CHAR_WIDTH`: the length of the character a lead byte starts, 0 if none. */
  function CharWidth(lead: u8): (w: nat)
    ensures w <= 4
    ensures w == 0 <==> (0x80 <= lead <= 0xC1 || lead >= 0xF5)
  {
    if lead <= 0x7F then 1
    else if lead <= 0xC1 then 0
    else if lead <= 0xDF then 2
    else if lead <= 0xEF then 3
    else if lead <= 0xF4 then 4
    else 0
  }

  /** Allowed second bytes after a lead byte (RFC 3629 section 4, the UTF8-3 and UTF8-4 rules). */
  predicate SecondOk(lead: u8, b: u8)
  {
    if lead == 0xE0 then 0xA0 <= b <= 0xBF
    else if lead == 0xED then 0x80 <= b <= 0x9F
    else if lead == 0xF0 then 0x90 <= b <= 0xBF
    else if lead == 0xF4 then 0x80 <= b <= 0x8F
    else Tail(b)
  }

  /** One well-formed character: UTF8-1, UTF8-2, UTF8-3 or UTF8-4. */
  predicate IsChar(c: seq<u8>)
  {
    if |c| == 1 then c[0] <= 0x7F
    else if |c| == 2 then 0xC2 <= c[0] <= 0xDF && Tail(c[1])
    else if |c| == 3 then 0xE0 <= c[0] <= 0xEF && SecondOk(c[0], c[1]) && Tail(c[2])
    else if |c| == 4 then 0xF0 <= c[0] <= 0xF4 && SecondOk(c[0], c[1]) && Tail(c[2]) && Tail(c[3])
    else false
  }

  /** A sequence of well-formed characters. */
  predicate ValidUtf8(s: seq<u8>)
    decreases |s|
  {
    s == [] ||
    (var w := CharWidth(s[0]);
     1 <= w <= |s| && IsChar(s[..w]) && ValidUtf8(s[w..]))
  }

  /** Length of the well-formed character `s` starts with, or 0 if it starts with none. */
  function CharAt(s: seq<u8>): (k: nat)
    ensures k <= |s| && k <= 4
    ensures k > 0 ==> IsChar(s[..k]) && k == CharWidth(s[0])
  {
    if s == [] then 0
    else
      var w := CharWidth(s[0]);
      if 1 <= w <= |s| && IsChar(s[..w]) then w else 0
  }

  /** How many leading bytes of `s` could still begin a well-formed character. */
  function GoodPrefix(s: seq<u8>): (k: nat)
    ensures k <= |s| && k <= 4
    ensures s != [] && CharWidth(s[0]) > 0 ==> 1 <= k <= CharWidth(s[0])
  {
    if s == [] || CharWidth(s[0]) == 0 then 0
    else if CharWidth(s[0]) == 1 then 1
    else if |s| < 2 || !SecondOk(s[0], s[1]) then 1
    else if CharWidth(s[0]) == 2 then 2
    else if |s| < 3 || !Tail(s[2]) then 2
    else if CharWidth(s[0]) == 3 then 3
    else if |s| < 4 || !Tail(s[3]) then 3
    else 4
  }

  /** The bytes replaced by one U+FFFD: the longest start of a character, at least one byte. */
  function BrokenLen(s: seq<u8>): (k: nat)
    requires s != []
    ensures 1 <= k <= |s|
    ensures CharAt(s) == 0 ==> k <= 3
  {
    if GoodPrefix(s) == 0 then 1 else GoodPrefix(s)
  }

  /** A character is complete exactly when every byte its lead asks for is acceptable. */
  lemma CharAtIffComplete(s: seq<u8>)
    requires s != []
    ensures CharAt(s) > 0 <==> (CharWidth(s[0]) > 0 && GoodPrefix(s) == CharWidth(s[0]))
  {
  }

  /** A byte that starts no character (0x80-0xC1, 0xF5-0xFF) is broken on its own. */
  lemma WidthZeroLeadBrokenAlone(s: seq<u8>)
    requires s != [] && CharWidth(s[0]) == 0
    ensures CharAt(s) == 0 && BrokenLen(s) == 1
  {
  }

  /** A lead byte whose second byte is outside its RFC 3629 range is broken on its own. */
  lemma BadSecondByteBrokenAlone(s: seq<u8>)
    requires |s| >= 2 && CharWidth(s[0]) >= 2 && !SecondOk(s[0], s[1])
    ensures CharAt(s) == 0 && BrokenLen(s) == 1
  {
  }

  /** Lossy decoding: well-formed characters are copied, every maximal broken sequence becomes U+FFFD. */
  function Lossy(s: seq<u8>): seq<u8>
    decreases |s|
  {
    if s == [] then []
    else if CharAt(s) > 0 then s[..CharAt(s)] + Lossy(s[CharAt(s)..])
    else REPLACEMENT + Lossy(s[BrokenLen(s)..])
  }

  lemma {:induction false} ValidAppendChar(v: seq<u8>, c: seq<u8>)
    requires ValidUtf8(v) && IsChar(c)
    ensures ValidUtf8(v + c)
    decreases |v|
  {
    if v == [] {
      assert v + c == c;
      assert c[..CharWidth(c[0])] == c;
      assert c[CharWidth(c[0])..] == [];
    } else {
      var w := CharWidth(v[0]);
      assert (v + c)[..w] == v[..w];
      assert (v + c)[w..] == v[w..] + c;
      ValidAppendChar(v[w..], c);
    }
  }

  /** Well-formed text stays well-formed when well-formed text is appended. */
  lemma {:induction false} ValidConcat(a: seq<u8>, b: seq<u8>)
    requires ValidUtf8(a) && ValidUtf8(b)
    ensures ValidUtf8(a + b)
    decreases |a|
  {
    if a != [] {
      var w := CharWidth(a[0]);
      assert (a + b)[..w] == a[..w];
      assert (a + b)[w..] == a[w..] + b;
      ValidConcat(a[w..], b);
    } else {
      assert a + b == b;
    }
  }

  lemma ReplacementIsValid()
    ensures ValidUtf8(REPLACEMENT)
  {
    assert REPLACEMENT[..3] == REPLACEMENT;
    assert REPLACEMENT[3..] == [];
  }

  lemma TakeAppend<T>(a: seq<T>, b: seq<T>, k: nat)
    requires k <= |a|
    ensures (a + b)[..k] == a[..k]
  {
  }

  lemma DropAppend<T>(a: seq<T>, b: seq<T>, k: nat)
    requires k <= |a|
    ensures (a + b)[k..] == a[k..] + b
  {
  }

  lemma TakeDrop<T>(a: seq<T>, k: nat)
    requires k <= |a|
    ensures a[..k] + a[k..] == a
  {
  }

  lemma AppendAssoc<T>(a: seq<T>, b: seq<T>, c: seq<T>)
    ensures a + (b + c) == (a + b) + c
  {
  }

  /** The first character of well-formed `v` is also the first character of `v + rest`. */
  lemma CharAtOfValid(v: seq<u8>, rest: seq<u8>)
    requires v != [] && ValidUtf8(v)
    ensures CharAt(v + rest) == CharWidth(v[0]) <= |v|
  {
    TakeAppend(v, rest, CharWidth(v[0]));
  }

  /** One lossy step over a well-formed character of `k` bytes. */
  lemma LossyCharStep(s: seq<u8>, k: nat)
    requires s != [] && CharAt(s) == k > 0
    ensures Lossy(s) == s[..k] + Lossy(s[k..])
  {
  }

  /** A well-formed prefix passes through lossy decoding unchanged. */
  lemma {:induction false} LossyValidPrefix(v: seq<u8>, rest: seq<u8>)
    requires ValidUtf8(v)
    ensures Lossy(v + rest) == v + Lossy(rest)
    decreases |v|
  {
    if v == [] {
      assert v + rest == rest;
    } else {
      var w := CharWidth(v[0]);
      CharAtOfValid(v, rest);
      LossyCharStep(v + rest, w);
      TakeAppend(v, rest, w);
      DropAppend(v, rest, w);
      LossyValidPrefix(v[w..], rest);
      AppendAssoc(v[..w], v[w..], Lossy(rest));
      TakeDrop(v, w);
    }
  }

  /** Well-formed input is its own lossy decoding. */
  lemma LossyOfValid(s: seq<u8>)
    requires ValidUtf8(s)
    ensures Lossy(s) == s
  {
    LossyValidPrefix(s, []);
    assert s + [] == s;
  }

  /** Lossy decoding always yields well-formed UTF-8. */
  lemma {:induction false} LossyIsValid(s: seq<u8>)
    ensures ValidUtf8(Lossy(s))
    decreases |s|
  {
    if s != [] {
      if CharAt(s) > 0 {
        var k := CharAt(s);
        LossyIsValid(s[k..]);
        ValidAppendChar([], s[..k]);
        assert [] + s[..k] == s[..k];
        ValidConcat(s[..k], Lossy(s[k..]));
      } else {
        LossyIsValid(s[BrokenLen(s)..]);
        ReplacementIsValid();
        ValidConcat(REPLACEMENT, Lossy(s[BrokenLen(s)..]));
      }
    }
  }

  /** An encoded surrogate (ED A0 80) and an overlong NUL (C0 80) are each three and two replacements. */
  lemma LossyRejectsSurrogateAndOverlong()
    ensures Lossy([0xED, 0xA0, 0x80]) == REPLACEMENT + REPLACEMENT + REPLACEMENT
    ensures Lossy([0xC0, 0x80]) == REPLACEMENT + REPLACEMENT
    ensures Lossy([0xE2, 0x82]) == REPLACEMENT
  {
    var a: seq<u8> := [0xED, 0xA0, 0x80];
    assert a[1..] == [0xA0, 0x80] && a[1..][1..] == [0x80] && a[1..][1..][1..] == [];
    var b: seq<u8> := [0xC0, 0x80];
    assert b[1..] == [0x80] && b[1..][1..] == [];
    var c: seq<u8> := [0xE2, 0x82];
    assert c[2..] == [];
  }

  /** Decoding twice changes nothing more. */
  lemma LossyIdempotent(s: seq<u8>)
    ensures Lossy(Lossy(s)) == Lossy(s)
  {
    LossyIsValid(s);
    LossyOfValid(Lossy(s));
  }

  lemma ValidExtend(s: seq<u8>, i0: nat, i: nat)
    requires i0 < i <= |s| && ValidUtf8(s[..i0]) && IsChar(s[i0..i])
    ensures ValidUtf8(s[..i])
  {
    ValidAppendChar(s[..i0], s[i0..i]);
    assert s[..i] == s[..i0] + s[i0..i];
  }

  /** One lossy step over the broken sequence `s[i0..i]`. */
  lemma LossyBrokenStep(s: seq<u8>, i0: nat, i: nat)
    requires i0 < i <= |s| && CharAt(s[i0..]) == 0 && i - i0 == BrokenLen(s[i0..])
    ensures Lossy(s[i0..]) == REPLACEMENT + Lossy(s[i..])
  {
    assert s[i0..][i - i0..] == s[i..];
  }

  lemma LossyAfterValid(s: seq<u8>, i0: nat)
    requires i0 <= |s| && ValidUtf8(s[..i0])
    ensures Lossy(s) == s[..i0] + Lossy(s[i0..])
  {
    assert s == s[..i0] + s[i0..];
    LossyValidPrefix(s[..i0], s[i0..]);
  }

  /** Lossy decoding of a valid run, one broken sequence, and the rest. */
  lemma LossySplitAt(s: seq<u8>, i0: nat, i: nat)
    requires i0 < i <= |s| && ValidUtf8(s[..i0])
    requires CharAt(s[i0..]) == 0 && i - i0 == BrokenLen(s[i0..])
    ensures Lossy(s) == s[..i0] + REPLACEMENT + Lossy(s[i..])
  {
    LossyAfterValid(s, i0);
    LossyBrokenStep(s, i0, i);
    AppendAssoc(s[..i0], REPLACEMENT, Lossy(s[i..]));
  }

  function SafeGet(xs: seq<u8>, i: nat): (b: u8)
    ensures i < |xs| ==> b == xs[i]
    ensures i >= |xs| ==> b == 0
  {
    if i < |xs| then xs[i] else 0
  }

  /** The lossy chunk iterator: the bytes not yet split. */
  class Utf8LossyChunksIter {
    var source: seq<u8>

    constructor (bytes: seq<u8>)
      ensures source == bytes
    {
      source := bytes;
    }

    /**
     * Split off the longest well-formed run and the broken sequence
     * after it (empty when the run reaches the end of the source).
     */
    method Next() returns (valid: seq<u8>, broken: seq<u8>)
      modifies this
      ensures valid + broken + source == old(source)
      ensures ValidUtf8(valid)
      ensures broken == [] ==> source == [] && valid == old(source)
      ensures broken != [] ==>
        1 <= |broken| <= 3 && CharAt(broken + source) == 0 && |broken| == BrokenLen(broken + source)
      ensures Lossy(old(source)) ==
        valid + (if broken == [] then [] else REPLACEMENT) + Lossy(source)
    {
      if source == [] {
        return [], [];
      }
      var s := source;
      var i := 0;
      while i < |s|
        invariant i <= |s| && source == s
        invariant ValidUtf8(s[..i])
      {
        var i0 := i;
        var ok;
        i, ok := ScanChar(s, i0);
        if !ok {
          valid, broken := SplitBroken(s, i0, i);
          return;
        }
        ValidExtend(s, i0, i);
      }
      assert s[..i] == s;
      LossyOfValid(s);
      valid, broken := s, [];
      source := [];
    }

    /** The error exit: everything before `i0` is valid, `s[i0..i]` is broken. */
    method SplitBroken(s: seq<u8>, i0: nat, i: nat) returns (valid: seq<u8>, broken: seq<u8>)
      requires i0 < i <= |s| && source == s
      requires ValidUtf8(s[..i0])
      requires CharAt(s[i0..]) == 0 && i - i0 == BrokenLen(s[i0..])
      modifies this
      ensures valid == s[..i0] && broken == s[i0..i] && source == s[i..]
      ensures valid + broken + source == s && ValidUtf8(valid)
      ensures 1 <= |broken| <= 3 && CharAt(broken + source) == 0
      ensures |broken| == BrokenLen(broken + source)
      ensures Lossy(s) == valid + REPLACEMENT + Lossy(source)
    {
      valid, broken, source := s[..i0], s[i0..i], s[i..];
      assert broken + source == s[i0..];
      assert valid + broken + source == s;
      LossySplitAt(s, i0, i);
    }
  }
  /**
   * The checks of one loop iteration of `next`, starting at the lead
   * byte `s[i0]`: the index after the character and whether it is
   * well formed.  Bytes past the end read as 0 (`safe_get`).
   */
  method ScanChar(s: seq<u8>, i0: nat) returns (i: nat, ok: bool)
    requires i0 < |s|
    ensures i0 < i <= |s|
    ensures ok ==> IsChar(s[i0..i])
    ensures !ok ==> CharAt(s[i0..]) == 0 && i - i0 == BrokenLen(s[i0..])
  {
    ghost var t := s[i0..];
    var b := s[i0];
    i := i0 + 1;
    if b < 128 {
      assert s[i0..i] == [b];
      return i, true;
    }
    var w := CharWidth(b);
    if w == 2 {
      ContTagIsTail(SafeGet(s, i));
      if !IsContTag(SafeGet(s, i)) {
        return i, false;
      }
      i := i + 1;
      assert s[i0..i] == t[..2];
      return i, true;
    } else if w == 3 {
      var second := SafeGet(s, i);
      if !((b == 0xE0 && 0xA0 <= second <= 0xBF) || (0xE1 <= b <= 0xEC && 0x80 <= second <= 0xBF)
           || (b == 0xED && 0x80 <= second <= 0x9F) || (0xEE <= b <= 0xEF && 0x80 <= second <= 0xBF)) {
        return i, false;
      }
      i := i + 1;
      ContTagIsTail(SafeGet(s, i));
      if !IsContTag(SafeGet(s, i)) {
        return i, false;
      }
      i := i + 1;
      assert s[i0..i] == t[..3];
      return i, true;
    } else if w == 4 {
      var second := SafeGet(s, i);
      if !((b == 0xF0 && 0x90 <= second <= 0xBF) || (0xF1 <= b <= 0xF3 && 0x80 <= second <= 0xBF)
           || (b == 0xF4 && 0x80 <= second <= 0x8F)) {
        return i, false;
      }
      i := i + 1;
      ContTagIsTail(SafeGet(s, i));
      if !IsContTag(SafeGet(s, i)) {
        return i, false;
      }
      i := i + 1;
      ContTagIsTail(SafeGet(s, i));
      if !IsContTag(SafeGet(s, i)) {
        return i, false;
      }
      i := i + 1;
      assert s[i0..i] == t[..4];
      return i, true;
    } else {
      return i, false;
    }
  }
}
