/**
 * Fixed-width machine words as the interpreter stores them: a word of
 * `n` bytes holds a value modulo 256^n, most significant byte first
 * (Rust's `to_be` / `from_be`).  Signed words are two's complement.
 */
module Bytes {
  type u8 = x: int | 0 <= x < 0x100

  const TWO_8: nat := 0x100
  const TWO_16: nat := 0x1_0000
  const TWO_32: nat := 0x1_0000_0000
  const TWO_64: nat := 0x1_0000_0000_0000_0000

  /** 256^n: the number of values an n-byte word can hold. */
  function Pow256(n: nat): (r: nat)
    ensures r >= 1
  {
    if n == 0 then 1 else 256 * Pow256(n - 1)
  }

  lemma Pow256Values()
    ensures Pow256(1) == TWO_8 && Pow256(2) == TWO_16
    ensures Pow256(4) == TWO_32 && Pow256(8) == TWO_64
  {
  }

  /** The low `n` bytes of `v`, most significant first. */
  function ToBE(v: nat, n: nat): (r: seq<u8>)
    ensures |r| == n
  {
    if n == 0 then [] else ToBE(v / 256, n - 1) + [v % 256]
  }

  /** The value of a big-endian byte sequence. */
  function FromBE(s: seq<u8>): (r: nat)
    ensures r < Pow256(|s|)
  {
    if s == [] then 0 else FromBE(s[..|s| - 1]) * 256 + s[|s| - 1]
  }

  lemma MulAtLeast(m: int, d: int)
    requires m > 0 && d >= 1
    ensures m * d >= m
  {
  }

  /** Division with remainder is unique. */
  lemma ModUnique(v: int, m: int, k: int, x: int)
    requires m > 0 && 0 <= x < m && v == m * k + x
    ensures v % m == x && v / m == k
  {
    var q, r := v / m, v % m;
    assert v == m * q + r;
    assert m * (k - q) == r - x;
    if k - q >= 1 {
      MulAtLeast(m, k - q);
    } else if q - k >= 1 {
      MulAtLeast(m, q - k);
    }
  }

  lemma ModOfMultiple(v: int, q: int, r: int, m: int)
    requires m > 0 && 0 <= r < 256 && v == 256 * q + r
    ensures v % (256 * m) == 256 * (q % m) + r
  {
    var k, b := q / m, q % m;
    assert q == m * k + b;
    assert v == (256 * m) * k + (256 * b + r);
    ModUnique(v, 256 * m, k, 256 * b + r);
  }

  /** Writing a value into n bytes and reading it back keeps it modulo 256^n. */
  lemma {:induction false} FromBEToBE(v: nat, n: nat)
    ensures FromBE(ToBE(v, n)) == v % Pow256(n)
  {
    if n > 0 {
      var s := ToBE(v, n);
      assert s[..n - 1] == ToBE(v / 256, n - 1);
      FromBEToBE(v / 256, n - 1);
      ModOfMultiple(v, v / 256, v % 256, Pow256(n - 1));
    }
  }

  /** Reading n bytes and writing the value back gives the same bytes. */
  lemma {:induction false} ToBEFromBE(s: seq<u8>)
    ensures ToBE(FromBE(s), |s|) == s
  {
    if s != [] {
      var init := s[..|s| - 1];
      ToBEFromBE(init);
      assert s == init + [s[|s| - 1]];
    }
  }

  lemma ToBEOfWord(v: nat, n: nat)
    requires v < Pow256(n)
    ensures FromBE(ToBE(v, n)) == v
  {
    FromBEToBE(v, n);
  }

  lemma ToBEMod(v: nat, n: nat)
    ensures ToBE(v, n) == ToBE(v % Pow256(n), n)
  {
    FromBEToBE(v, n);
    ToBEFromBE(ToBE(v, n));
    FromBEToBE(v % Pow256(n), n);
    ToBEFromBE(ToBE(v % Pow256(n), n));
  }

  /** Every byte is zero. */
  predicate AllZero(s: seq<u8>)
  {
    forall i :: 0 <= i < |s| ==> s[i] == 0
  }

  lemma {:induction false} AllZeroIffFromBEZero(s: seq<u8>)
    ensures AllZero(s) <==> FromBE(s) == 0
  {
    if s != [] {
      AllZeroIffFromBEZero(s[..|s| - 1]);
      if AllZero(s) {
        assert AllZero(s[..|s| - 1]);
      } else if FromBE(s) == 0 {
        assert AllZero(s[..|s| - 1]);
        assert s[|s| - 1] == 0;
        assert forall i | 0 <= i < |s| - 1 :: s[i] == s[..|s| - 1][i];
        assert false;
      }
    }
  }

  /** The two's complement reading of an unsigned pattern of a word with `full` values. */
  function ToSigned(u: int, full: nat): (r: int)
    requires full >= 2 && full % 2 == 0 && 0 <= u < full
    ensures -(full / 2) <= r < full / 2
    ensures r == u || r == u - full
  {
    if u >= full / 2 then u - full else u
  }

  /** The unsigned pattern of `v` in a word with `full` values (wrap-around). */
  function Wrap(v: int, full: nat): (r: nat)
    requires full > 0
    ensures r < full
    ensures 0 <= v < full ==> r == v
    ensures -(full as int) <= v < 0 ==> r == v + full
  {
    v % full
  }

  lemma WrapSigned(v: int, full: nat)
    requires full >= 2 && full % 2 == 0 && -(full / 2) <= v < full / 2
    ensures ToSigned(Wrap(v, full), full) == v
  {
  }

  /** Integer division rounding toward zero, as Rust's `/` on signed integers. */
  function TruncDiv(a: int, b: int): int
    requires b != 0
  {
    var q := Abs(a) / Abs(b);
    if (a >= 0) == (b > 0) then q else -q
  }

  /** Unlike Dafny's Euclidean `/`, the quotient rounds toward zero. */
  lemma TruncDivRoundsTowardZero()
    ensures TruncDiv(-7, 2) == -3 && -7 / 2 == -4
    ensures TruncDiv(7, -2) == -3 && TruncDiv(-7, -2) == 3
  {
  }

  function Abs(x: int): nat { if x < 0 then -x else x }
}
