/**
 * The UTF-8 text sinks of util.rs: `StringWriter`, which only accepts
 * well-formed UTF-8, and the two lossy writers that feed the chunk
 * iterator's output into a string, replacing every broken sequence by
 * U+FFFD.
 */
module Writers {
  import opened Wrappers
  import opened Bytes
  import opened Utf8

  /** `io::ErrorKind::InvalidInput`, the only error `StringWriter` reports. */
  datatype IoError = InvalidInput

  /** An in-memory writer whose buffer is always well-formed UTF-8. */
  class StringWriter {
    var buf: seq<u8>

    ghost predicate Valid()
      reads this
    {
      ValidUtf8(buf)
    }

    constructor ()
      ensures buf == [] && Valid()
    {
      buf := [];
      assert ValidUtf8([]);
    }

    /** `to_string`/`into_string`: the buffer, converted without re-checking. */
    function Text(): (s: seq<u8>)
      requires Valid()
      reads this
      ensures ValidUtf8(s) && |s| == |buf|
    {
      buf
    }

    /** `write`: append well-formed text; reject anything else and keep the buffer. */
    method Write(bytes: seq<u8>) returns (r: Result<nat, IoError>)
      requires Valid()
      modifies this
      ensures ValidUtf8(bytes) ==> r == Ok(|bytes|) && buf == old(buf) + bytes
      ensures !ValidUtf8(bytes) ==> r == Err(InvalidInput) && buf == old(buf)
      ensures Valid()
    {
      if !ValidUtf8(bytes) {
        return Err(InvalidInput);
      }
      ValidConcat(buf, bytes);
      buf := buf + bytes;
      return Ok(|bytes|);
    }

    /** `flush_string`: hand out the accumulated text and start over. */
    method FlushString() returns (s: seq<u8>)
      requires Valid()
      modifies this
      ensures s == old(buf) && buf == [] && Valid()
      ensures ValidUtf8(s)
    {
      s := buf;
      buf := [];
      assert ValidUtf8([]);
    }
  }

  /** `string_append_utf8_lossy`: append the lossy decoding of `bytes` to a string. */
  method AppendLossy(text: seq<u8>, bytes: seq<u8>) returns (out: seq<u8>)
    ensures out == text + Lossy(bytes)
    ensures ValidUtf8(text) ==> ValidUtf8(out)
  {
    var iter := new Utf8LossyChunksIter(bytes);
    out := text;
    while true
      invariant out + Lossy(iter.source) == text + Lossy(bytes)
      decreases |iter.source|
    {
      ghost var before := out;
      var valid, broken := iter.Next();
      ghost var tail: seq<u8> := if broken == [] then [] else REPLACEMENT;
      if broken != [] {
        out := out + valid + REPLACEMENT;
      } else {
        out := out + valid;
        assert out == before + valid + tail;
      }
      ConcatAssoc(before, valid, tail, Lossy(iter.source));
      if broken == [] {
        assert Lossy(iter.source) == [];
        assert out == text + Lossy(bytes);
        LossyIsValid(bytes);
        if ValidUtf8(text) {
          ValidConcat(text, Lossy(bytes));
        }
        return;
      }
    }
  }

  /**
   * `write_utf8_lossy` into a `StringWriter`: every chunk write succeeds
   * because the chunks are well formed, and the total is the number of
   * bytes written.
   */
  method WriteLossy(w: StringWriter, bytes: seq<u8>) returns (r: Result<nat, IoError>)
    requires w.Valid()
    modifies w
    ensures w.buf == old(w.buf) + Lossy(bytes)
    ensures r == Ok(|Lossy(bytes)|)
    ensures w.Valid()
  {
    var iter := new Utf8LossyChunksIter(bytes);
    var total := 0;
    while true
      invariant w.buf + Lossy(iter.source) == old(w.buf) + Lossy(bytes)
      invariant total == |w.buf| - |old(w.buf)|
      invariant w.Valid()
      decreases |iter.source|
    {
      var n, last := WriteNextChunk(w, iter);
      total := total + n;
      if last {
        return Ok(total);
      }
    }
  }

  /**
   * One loop iteration of `write_utf8_lossy`: take the next chunk, write
   * its valid run, then U+FFFD if something was broken; `last` when the
   * broken part is empty.
   */
  method WriteNextChunk(w: StringWriter, iter: Utf8LossyChunksIter) returns (n: nat, last: bool)
    requires w.Valid()
    modifies w, iter
    ensures w.Valid()
    ensures w.buf + Lossy(iter.source) == old(w.buf) + Lossy(old(iter.source))
    ensures n == |w.buf| - |old(w.buf)|
    ensures last ==> iter.source == []
    ensures !last ==> |iter.source| < |old(iter.source)|
  {
    ghost var before := w.buf;
    var valid, broken := iter.Next();
    ghost var tail := if broken == [] then [] else REPLACEMENT;
    var _ := w.Write(valid);
    n := |valid|;
    if broken != [] {
      ReplacementIsValid();
      var _ := w.Write(REPLACEMENT);
      n := n + |REPLACEMENT|;
    }
    last := broken == [];
    assert w.buf == before + valid + tail;
    ConcatAssoc(before, valid, tail, Lossy(iter.source));
  }

  lemma ConcatAssoc<T>(a: seq<T>, b: seq<T>, c: seq<T>, d: seq<T>)
    ensures (a + b + c) + d == a + (b + c + d)
  {
  }
}
