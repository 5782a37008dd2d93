/**
 * The bit-level view of a byte stream. A stream of bytes is read as a
 * stream of bits, each byte most-significant bit first. This is the
 * reference against which both the bit counter and the stream
 * reconstructor are stated.
 */
module BitStream {

  /** `n` copies of `x`. */
  function Fill<T>(x: T, n: nat): seq<T>
  {
    seq(n, _ => x)
  }

  /** Bit `i` of `b`, counting from the most significant. */
  function BitAt(b: bv8, i: nat): bool
    requires i < 8
  {
    (b >> (7 - i)) & 1 == 1
  }

  /** The eight bits of `b`, most significant first. */
  function ByteBits(b: bv8): (bits: seq<bool>)
  {
    seq(8, i requires 0 <= i < 8 => BitAt(b, i))
  }

  /** The bits of a byte stream, in transmission order. */
  function Bits(data: seq<bv8>): (bits: seq<bool>)
    ensures |bits| == 8 * |data|
  {
    if data == [] then [] else Bits(data[..|data| - 1]) + ByteBits(data[|data| - 1])
  }

  /** The number of `true` entries of `bits`. */
  function CountTrue(bits: seq<bool>): (n: nat)
    ensures n <= |bits|
  {
    if bits == [] then 0 else (if bits[0] then 1 else 0) + CountTrue(bits[1..])
  }

  /** Bit `s` (counting from the least significant) sits at position `7 - s`. */
  lemma ByteBitsAt(b: bv8, s: nat)
    requires s < 8
    ensures ByteBits(b)[7 - s] == ((b >> s) % 2 == 1)
  {
  }

  lemma Fill0Bits()
    ensures ByteBits(0x00) == Fill(false, 8)
  {
  }

  lemma Fill1Bits()
    ensures ByteBits(0xFF) == Fill(true, 8)
  {
  }

  lemma ShiftedOnesBit(e: nat, i: nat)
    requires e < 8 && i < 8
    ensures BitAt(0xFF >> e, i) == (i >= e)
  {
  }

  /**
   * `0xFF >> e` has `e` leading zero bits followed by `8 - e` one bits.
   */
  lemma ShiftedOnesBits(e: nat)
    requires e < 8
    ensures ByteBits(0xFF >> e) == Fill(false, e) + Fill(true, 8 - e)
  {
    var b: bv8 := 0xFF >> e;
    forall i | 0 <= i < 8
      ensures ByteBits(b)[i] == (Fill(false, e) + Fill(true, 8 - e))[i]
    {
      ShiftedOnesBit(e, i);
    }
  }

  lemma {:induction false} FillAppend<T>(x: T, m: nat, n: nat)
    ensures Fill(x, m) + Fill(x, n) == Fill(x, m + n)
  {
    assert forall i :: 0 <= i < m + n ==> (Fill(x, m) + Fill(x, n))[i] == x;
  }

  /** The bits of a concatenation are the concatenation of the bits. */
  lemma {:induction false} BitsAppend(a: seq<bv8>, b: seq<bv8>)
    ensures Bits(a + b) == Bits(a) + Bits(b)
    decreases |b|
  {
    if b == [] {
      assert a + b == a;
    } else {
      var b' := b[..|b| - 1];
      assert (a + b)[..|a + b| - 1] == a + b';
      assert (a + b)[|a + b| - 1] == b[|b| - 1];
      BitsAppend(a, b');
      assert Bits(b) == Bits(b') + ByteBits(b[|b| - 1]);
    }
  }

  /** A run of `n` copies of a byte whose bits are all `x` is `8 * n` bits `x`. */
  lemma {:induction false} BitsFill(b: bv8, x: bool, n: nat)
    requires ByteBits(b) == Fill(x, 8)
    ensures Bits(Fill(b, n)) == Fill(x, 8 * n)
  {
    if n > 0 {
      assert Fill(b, n)[..n - 1] == Fill(b, n - 1);
      BitsFill(b, x, n - 1);
      FillAppend(x, 8 * (n - 1), 8);
    }
  }

  lemma {:induction false} CountTrueAppend(a: seq<bool>, b: seq<bool>)
    ensures CountTrue(a + b) == CountTrue(a) + CountTrue(b)
  {
    if a != [] {
      assert (a + b)[1..] == a[1..] + b;
      CountTrueAppend(a[1..], b);
    } else {
      assert a + b == b;
    }
  }

  /** Counting a suffix one entry at a time. */
  lemma CountTrueFrom(bits: seq<bool>, k: nat)
    requires k < |bits|
    ensures CountTrue(bits[k..]) == (if bits[k] then 1 else 0) + CountTrue(bits[k + 1..])
  {
    assert bits[k..][1..] == bits[k + 1..];
  }

  lemma {:induction false} CountTrueFill(x: bool, n: nat)
    ensures CountTrue(Fill(x, n)) == if x then n else 0
  {
    if n > 0 {
      assert Fill(x, n)[1..] == Fill(x, n - 1);
      CountTrueFill(x, n - 1);
    }
  }

  /**
   * `q0` zero bytes, a middle part holding `e0` zero bits then `e1` one
   * bits, and `q1` bytes 0xFF read as bits: `8 * q0 + e0` zero bits
   * followed by `e1 + 8 * q1` one bits.
   */
  lemma RunBits(q0: nat, e0: nat, middle: seq<bv8>, e1: nat, q1: nat)
    requires Bits(middle) == Fill(false, e0) + Fill(true, e1)
    ensures Bits(Fill(0x00, q0) + middle + Fill(0xFF, q1))
            == Fill(false, 8 * q0 + e0) + Fill(true, e1 + 8 * q1)
  {
    var zeros, ones := Fill(0x00 as bv8, q0), Fill(0xFF as bv8, q1);
    BitsAppend(zeros + middle, ones);
    BitsAppend(zeros, middle);
    Fill0Bits();
    BitsFill(0x00, false, q0);
    Fill1Bits();
    BitsFill(0xFF, true, q1);
    FillAppend(false, 8 * q0, e0);
    FillAppend(true, e1, 8 * q1);
    calc {
      Bits(zeros + middle + ones);
      Fill(false, 8 * q0) + (Fill(false, e0) + Fill(true, e1)) + Fill(true, 8 * q1);
      (Fill(false, 8 * q0) + Fill(false, e0)) + (Fill(true, e1) + Fill(true, 8 * q1));
    }
  }
}
