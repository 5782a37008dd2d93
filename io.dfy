/**
 * Byte sources and sinks, reduced to what the counter and the
 * reconstructor rely on: a read either yields a byte or fails, and a
 * sink accepts bytes until, possibly, it fails.
 */
module Io {

  datatype Option<T> = None | Some(value: T)

  /** The two I/O failures the core can surface. */
  datatype IoError = ReadFailure | WriteFailure

  /** The outcome of an operation that yields a value or fails with an I/O error. */
  datatype Result<T> = Ok(value: T) | Err(error: IoError)

  /** The outcome of an operation that yields nothing or fails with an I/O error. */
  datatype Outcome = Pass | Fail(error: IoError)

  /**
   * A sink with capacity `limit` accepts at most `limit` bytes in all;
   * one with no limit never fails.
   */
  predicate Fits(s: seq<bv8>, limit: Option<nat>)
  {
    limit.None? || |s| <= limit.value
  }

  /** What a sink with capacity `limit` holds after being offered `s`. */
  function Truncated(s: seq<bv8>, limit: Option<nat>): seq<bv8>
  {
    if Fits(s, limit) then s else s[..limit.value]
  }

  /**
   * Once a stream no longer fits, offering more bytes changes nothing:
   * the sink keeps exactly the prefix it had accepted.
   */
  lemma TruncatedExtend(a: seq<bv8>, b: seq<bv8>, limit: Option<nat>)
    requires !Fits(a, limit)
    ensures !Fits(a + b, limit)
    ensures Truncated(a + b, limit) == Truncated(a, limit)
  {
    assert (a + b)[..limit.value] == a[..limit.value];
  }

  /** What a sink already holds stays at the front of whatever it holds later. */
  lemma TruncatedKeepsPrefix(a: seq<bv8>, b: seq<bv8>, limit: Option<nat>)
    requires Fits(a, limit)
    ensures a <= Truncated(a + b, limit)
  {
  }

  /**
   * An append-only byte sink. `written` is everything the sink has
   * accepted so far; once `limit` bytes have been accepted, further
   * writes fail.
   */
  class Writer {
    var written: seq<bv8>
    const limit: Option<nat>

    ghost predicate Valid()
      reads this
    {
      Fits(written, limit)
    }

    constructor (limit: Option<nat>)
      ensures Valid()
      ensures written == [] && this.limit == limit
    {
      written := [];
      this.limit := limit;
    }

    /**
     * Offers all of `buf` to the sink. On failure the sink keeps the part
     * of `buf` that still fitted; nothing written before is altered.
     */
    method WriteAll(buf: seq<bv8>) returns (r: Outcome)
      requires Valid()
      modifies this
      ensures Valid()
      ensures written == Truncated(old(written) + buf, limit)
      ensures r == if Fits(old(written) + buf, limit) then Pass else Fail(WriteFailure)
    {
      var s := written + buf;
      if Fits(s, limit) {
        written := s;
        r := Pass;
      } else {
        written := s[..limit.value];
        r := Fail(WriteFailure);
      }
    }
  }
}
