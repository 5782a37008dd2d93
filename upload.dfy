/**
 * The bit counter: reads a byte source to its end and returns how many
 * zero bits and one bits it held, using a 256-entry table of population
 * counts.
 */
module Upload {
  import opened Io
  import opened BitStream
  import opened Download

  /** The number of one bits of `b`. */
  function PopCount(b: bv8): (n: nat)
    ensures n <= 8
  {
    CountTrue(ByteBits(b))
  }

  /** The number of set bits among the `s` least significant bits of `x`. */
  function LowOnes(x: bv8, s: nat): (n: nat)
    requires s <= 8
    ensures n <= s
  {
    if s == 0 then 0 else LowOnes(x, s - 1) + (if (x >> (s - 1)) % 2 == 1 then 1 else 0)
  }

  /**
   * The low `s` bits of `x` are the last `s` bits of its most-significant-first
   * bit sequence, so they hold as many set bits.
   */
  lemma {:induction false} LowOnesSuffix(x: bv8, s: nat)
    requires s <= 8
    ensures LowOnes(x, s) == CountTrue(ByteBits(x)[8 - s..])
  {
    if s > 0 {
      LowOnesSuffix(x, s - 1);
      ByteBitsAt(x, s - 1);
      CountTrueFrom(ByteBits(x), 8 - s);
    }
  }

  /** All eight bits examined: the population count. */
  lemma LowOnesAll(x: bv8)
    ensures LowOnes(x, 8) == PopCount(x)
  {
    LowOnesSuffix(x, 8);
    assert ByteBits(x)[0..] == ByteBits(x);
  }

  /**
   * Counts the set bits of `x` by looking at bit `s` for each `s` in
   * 0..8, least significant first.
   */
  method CountSetBits(x: bv8) returns (cnt: nat)
    ensures cnt == PopCount(x)
  {
    cnt := 0;
    for s := 0 to 8
      invariant cnt == LowOnes(x, s)
    {
      if (x >> s) % 2 == 1 {
        cnt := cnt + 1;
      }
    }
    LowOnesAll(x);
  }

  /** Builds the population-count table: entry `b` is the number of set bits of `b`. */
  method OnesTable() returns (table: seq<nat>)
    ensures |table| == 256
    ensures forall b :: 0 <= b < 256 ==> table[b] == PopCount(b as bv8)
  {
    var ones := new nat[256];
    for b := 0 to 256
      invariant forall k :: 0 <= k < b ==> ones[k] == PopCount(k as bv8)
    {
      var cnt := CountSetBits(b as bv8);
      ones[b] := cnt;
    }
    table := ones[..];
  }

  /** The total number of one bits of `data`. */
  function Ones(data: seq<bv8>): (n: nat)
    ensures n <= 8 * |data|
  {
    if data == [] then 0 else Ones(data[..|data| - 1]) + PopCount(data[|data| - 1])
  }

  /** `Ones` counts exactly the one bits of the stream's bit sequence. */
  lemma {:induction false} OnesAreSetBits(data: seq<bv8>)
    ensures Ones(data) == CountTrue(Bits(data))
  {
    if data != [] {
      OnesAreSetBits(data[..|data| - 1]);
      CountTrueAppend(Bits(data[..|data| - 1]), ByteBits(data[|data| - 1]));
    }
  }

  /** The counts of zero and one bits of a byte stream. */
  function CountBits(data: seq<bv8>): (c: BitCounts)
    ensures c.cnt1 == CountTrue(Bits(data))
    ensures c.cnt0 + c.cnt1 == |Bits(data)|
  {
    OnesAreSetBits(data);
    BitCounts(8 * |data| - Ones(data), Ones(data))
  }

  /** Every read succeeded. */
  predicate SourceOk(source: seq<Result<bv8>>)
  {
    forall k :: 0 <= k < |source| ==> source[k].Ok?
  }

  /** The bytes delivered by a source whose reads all succeeded. */
  function Payload(source: seq<Result<bv8>>): (data: seq<bv8>)
    requires SourceOk(source)
    ensures |data| == |source|
    ensures forall k :: 0 <= k < |source| ==> source[k] == Ok(data[k])
  {
    seq(|source|, k requires 0 <= k < |source| => source[k].value)
  }

  /** One more successful read adds that byte's set bits to the count. */
  lemma PayloadStep(source: seq<Result<bv8>>, i: nat)
    requires i < |source| && SourceOk(source[..i]) && source[i].Ok?
    ensures SourceOk(source[..i + 1])
    ensures Ones(Payload(source[..i + 1])) == Ones(Payload(source[..i])) + PopCount(source[i].value)
  {
    assert source[..i + 1][..i] == source[..i];
    assert Payload(source[..i + 1])[..i] == Payload(source[..i]);
  }

  /**
   * Counts the bits of the bytes the source yields, one read at a time.
   * The first failed read aborts the scan with that read's error and no
   * counts; otherwise the result is the bit counts of all bytes read.
   */
  method Upload(source: seq<Result<bv8>>) returns (r: Result<BitCounts>)
    ensures r.Ok? <==> SourceOk(source)
    ensures r.Ok? ==> r.value == CountBits(Payload(source))
    ensures r.Err? ==> exists k :: 0 <= k < |source| && SourceOk(source[..k]) && source[k] == Err(r.error)
  {
    var onesTable := OnesTable();

    var size: nat := 0;
    var cnt1: nat := 0;

    for i := 0 to |source|
      invariant SourceOk(source[..i])
      invariant size == 8 * i
      invariant cnt1 == Ones(Payload(source[..i]))
      invariant cnt1 <= size
    {
      size := size + 8;
      match source[i]
      case Err(e) =>
        assert SourceOk(source[..i]) && source[i] == Err(e);
        return Err(e);
      case Ok(b) =>
        PayloadStep(source, i);
        cnt1 := cnt1 + onesTable[b as int];
    }

    assert source[..|source|] == source;
    r := Ok(BitCounts(size - cnt1, cnt1));
  }

  /** Table entries checked by upload.rs, test `ones_table`. */
  lemma OnesTableSamples()
    ensures PopCount(0x00) == 0 && PopCount(0x08) == 1 && PopCount(0x11) == 2
    ensures PopCount(0x70) == 3 && PopCount(0xC3) == 4 && PopCount(0xFF) == 8
  {
    LowOnesAll(0x00);
    LowOnesAll(0x08);
    LowOnesAll(0x11);
    LowOnesAll(0x70);
    LowOnesAll(0xC3);
    LowOnesAll(0xFF);
  }

  /** The empty stream has no bits. */
  lemma EmptyInput()
    ensures CountBits([]) == BitCounts(0, 0)
  {
  }

  /** `n` copies of byte `b` hold `PopCount(b) * n` one bits. */
  lemma {:induction false} SameOctets(b: bv8, n: nat)
    ensures CountBits(Fill(b, n)).cnt1 == PopCount(b) * n
    ensures CountBits(Fill(b, n)).cnt0 == 8 * n - PopCount(b) * n
  {
    if n > 0 {
      assert Fill(b, n)[..n - 1] == Fill(b, n - 1);
      SameOctets(b, n - 1);
      assert PopCount(b) * (n - 1) + PopCount(b) == PopCount(b) * n;
    }
  }
}
