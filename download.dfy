/**
 * The stream reconstructor: given a pair of bit counts, writes a byte
 * stream made of a run of zero bytes, at most one boundary byte and a run
 * of 0xFF bytes, in whole and partial pages of 1024 bytes.
 */
module Download {
  import opened Io
  import opened BitStream

  /** The number of zero bits and of one bits of a stream. */
  datatype BitCounts = BitCounts(cnt0: nat, cnt1: nat)

  /** Counts that come from whole bytes. */
  predicate Aligned(c: BitCounts)
  {
    (c.cnt0 + c.cnt1) % 8 == 0
  }

  const PAGESZ: nat := 1024
  const BUF0: seq<bv8> := Fill(0x00, PAGESZ)
  const BUF1: seq<bv8> := Fill(0xFF, PAGESZ)

  /** `bytes` split into whole pages and a remainder. */
  datatype PageSplit = PageSplit(pages: nat, rest: nat)

  function SplitPages(bytes: nat): (r: PageSplit)
    ensures r.pages * PAGESZ + r.rest == bytes
    ensures r.rest < PAGESZ
  {
    var pages := bytes / PAGESZ;
    PageSplit(pages, bytes - pages * PAGESZ)
  }

  /** A boundary byte is written when either count has leftover bits. */
  predicate HasBoundary(c: BitCounts)
  {
    c.cnt0 % 8 + c.cnt1 % 8 > 0
  }

  function BoundaryByte(c: BitCounts): bv8
  {
    0xFF >> (c.cnt0 % 8)
  }

  /** The bytes the reconstructor emits for `c`, in order. */
  function Layout(c: BitCounts): seq<bv8>
  {
    Fill(0x00, c.cnt0 / 8)
    + (if HasBoundary(c) then [BoundaryByte(c)] else [])
    + Fill(0xFF, c.cnt1 / 8)
  }

  /**
   * The shape of the output: `cnt0 / 8` zero bytes, then the boundary
   * byte `0xFF >> (cnt0 % 8)` exactly when there are leftover bits, then
   * `cnt1 / 8` bytes 0xFF.
   */
  lemma LayoutShape(c: BitCounts)
    ensures |Layout(c)| == c.cnt0 / 8 + (if HasBoundary(c) then 1 else 0) + c.cnt1 / 8
    ensures forall i :: 0 <= i < c.cnt0 / 8 ==> Layout(c)[i] == 0x00
    ensures HasBoundary(c) ==> Layout(c)[c.cnt0 / 8] == 0xFF >> (c.cnt0 % 8)
    ensures forall i :: |Layout(c)| - c.cnt1 / 8 <= i < |Layout(c)| ==> Layout(c)[i] == 0xFF
  {
  }

  /**
   * For counts that come from whole bytes, the boundary byte (if any)
   * carries the `cnt0 % 8` last zero bits and the `cnt1 % 8` first one
   * bits, because the two leftovers add up to 8.
   */
  lemma BoundaryBits(c: BitCounts)
    requires Aligned(c)
    ensures Bits(if HasBoundary(c) then [BoundaryByte(c)] else [])
            == Fill(false, c.cnt0 % 8) + Fill(true, c.cnt1 % 8)
  {
    if HasBoundary(c) {
      assert c.cnt0 % 8 + c.cnt1 % 8 == 8;
      assert Bits([BoundaryByte(c)]) == Bits([]) + ByteBits(BoundaryByte(c));
      ShiftedOnesBits(c.cnt0 % 8);
    } else {
      assert Fill(false, 0) + Fill(true, 0) == [];
    }
  }

  /**
   * For counts that come from whole bytes, the output read bit by bit is
   * exactly `cnt0` zero bits followed by `cnt1` one bits, and it is
   * `(cnt0 + cnt1) / 8` bytes long.
   */
  lemma LayoutBits(c: BitCounts)
    requires Aligned(c)
    ensures |Layout(c)| == (c.cnt0 + c.cnt1) / 8
    ensures Bits(Layout(c)) == Fill(false, c.cnt0) + Fill(true, c.cnt1)
  {
    var q0, e0, q1, e1 := c.cnt0 / 8, c.cnt0 % 8, c.cnt1 / 8, c.cnt1 % 8;
    assert c.cnt0 == 8 * q0 + e0 && c.cnt1 == e1 + 8 * q1;
    BoundaryBits(c);
    RunBits(q0, e0, if HasBoundary(c) then [BoundaryByte(c)] else [], e1, q1);
  }

  /** `n` copies of `page`, one after the other. */
  function Repeat(page: seq<bv8>, n: nat): (s: seq<bv8>)
  {
    if n == 0 then [] else Repeat(page, n - 1) + page
  }

  lemma {:induction false} RepeatSplit(page: seq<bv8>, i: nat, n: nat)
    requires i <= n
    ensures Repeat(page, n) == Repeat(page, i) + Repeat(page, n - i)
    decreases n - i
  {
    if i < n {
      RepeatSplit(page, i + 1, n);
      RepeatSplit(page, 1, n - i);
      assert Repeat(page, 1) == page;
    }
  }

  /** `n` pages of `m` bytes `b` are `n * m` bytes `b`. */
  lemma {:induction false} RepeatFill(b: bv8, m: nat, n: nat)
    ensures Repeat(Fill(b, m), n) == Fill(b, n * m)
  {
    if n > 0 {
      RepeatFill(b, m, n - 1);
      FillAppend(b, (n - 1) * m, m);
      assert (n - 1) * m + m == n * m;
    }
  }

  /**
   * Writes `page` to `w` `n` times, stopping at the first failed write.
   * The sink ends up holding its earlier contents followed by as much of
   * the `n` copies as it accepted.
   */
  method WritePages(w: Writer, page: seq<bv8>, n: nat) returns (r: Outcome)
    requires w.Valid()
    modifies w
    ensures w.Valid()
    ensures old(w.written) <= w.written
    ensures w.written == Truncated(old(w.written) + Repeat(page, n), w.limit)
    ensures r == if Fits(old(w.written) + Repeat(page, n), w.limit) then Pass else Fail(WriteFailure)
  {
    ghost var start := w.written;
    TruncatedKeepsPrefix(start, Repeat(page, n), w.limit);
    for i := 0 to n
      invariant w.Valid()
      invariant w.written == start + Repeat(page, i)
    {
      r := w.WriteAll(page);
      assert start + Repeat(page, i + 1) == start + Repeat(page, i) + page;
      if r.Fail? {
        RepeatSplit(page, i + 1, n);
        assert start + Repeat(page, n) == (start + Repeat(page, i + 1)) + Repeat(page, n - (i + 1));
        TruncatedExtend(start + Repeat(page, i + 1), Repeat(page, n - (i + 1)), w.limit);
        return;
      }
    }
    r := Pass;
  }

  /** The first two writes of Download emit the zero run. */
  lemma ZeroRun(bytes: nat)
    ensures Repeat(BUF0, SplitPages(bytes).pages) + Repeat(BUF0[..SplitPages(bytes).rest], 1)
            == Fill(0x00, bytes)
  {
    var split := SplitPages(bytes);
    RepeatFill(0x00, PAGESZ, split.pages);
    assert Repeat(BUF0[..split.rest], 1) == Fill(0x00, split.rest);
    FillAppend(0x00 as bv8, split.pages * PAGESZ, split.rest);
  }

  /** The last two writes of Download emit the 0xFF run. */
  lemma OneRun(bytes: nat)
    ensures Repeat(BUF1[..SplitPages(bytes).rest], 1) + Repeat(BUF1, SplitPages(bytes).pages)
            == Fill(0xFF, bytes)
  {
    var split := SplitPages(bytes);
    RepeatFill(0xFF, PAGESZ, split.pages);
    assert Repeat(BUF1[..split.rest], 1) == Fill(0xFF, split.rest);
    FillAppend(0xFF as bv8, split.rest, split.pages * PAGESZ);
  }

  /** The pieces Download writes, one after the other, make up the layout. */
  lemma LayoutPieces(c: BitCounts)
    ensures Layout(c)
            == Repeat(BUF0, SplitPages(c.cnt0 / 8).pages)
            + (Repeat(BUF0[..SplitPages(c.cnt0 / 8).rest], 1)
            + ((if HasBoundary(c) then [BoundaryByte(c)] else [])
            + (Repeat(BUF1[..SplitPages(c.cnt1 / 8).rest], 1)
            + Repeat(BUF1, SplitPages(c.cnt1 / 8).pages))))
  {
    ZeroRun(c.cnt0 / 8);
    OneRun(c.cnt1 / 8);
  }

  /**
   * One `write_pages` call of Download, stated against the whole output:
   * the sink holds `w.written`, and that followed by the `n` pages and
   * `rest` (what is still to be written after them) is `total`. On
   * success the pages have moved from what remains to what is written; on
   * failure the sink holds all it will ever accept of `total`. Bytes the
   * sink held before (`start`) stay in front.
   */
  method WriteRun(w: Writer, page: seq<bv8>, n: nat, ghost start: seq<bv8>, ghost rest: seq<bv8>, ghost total: seq<bv8>)
    returns (r: Outcome)
    requires w.Valid()
    requires start <= w.written
    requires w.written + (Repeat(page, n) + rest) == total
    modifies w
    ensures w.Valid()
    ensures start <= w.written
    ensures r.Pass? ==> w.written + rest == total
    ensures r.Fail? ==> r == Fail(WriteFailure) && !Fits(total, w.limit) && w.written == Truncated(total, w.limit)
  {
    ghost var sofar := w.written;
    r := WritePages(w, page, n);
    if r.Fail? {
      assert total == (sofar + Repeat(page, n)) + rest;
      TruncatedExtend(sofar + Repeat(page, n), rest, w.limit);
    }
  }

  /**
   * Writes the reconstruction of `counts` to `w`: the zero run as whole
   * pages then a partial page, the boundary byte if any, and the 0xFF run
   * as a partial page then whole pages. The first failed write stops it;
   * what the sink holds is then a prefix of the full output.
   */
  method Download(w: Writer, counts: BitCounts) returns (r: Outcome)
    requires w.Valid()
    modifies w
    ensures w.Valid()
    ensures old(w.written) <= w.written
    ensures w.written == Truncated(old(w.written) + Layout(counts), w.limit)
    ensures r == if Fits(old(w.written) + Layout(counts), w.limit) then Pass else Fail(WriteFailure)
  {
    var bytes0 := counts.cnt0 / 8;
    var bytes1 := counts.cnt1 / 8;
    var middle0 := counts.cnt0 % 8;
    var middle1 := counts.cnt1 % 8;
    var split0 := SplitPages(bytes0);
    var split1 := SplitPages(bytes1);

    ghost var p1 := Repeat(BUF0, split0.pages);
    ghost var p2 := Repeat(BUF0[..split0.rest], 1);
    ghost var p3: seq<bv8> := if middle0 + middle1 > 0 then [BoundaryByte(counts)] else [];
    ghost var p4 := Repeat(BUF1[..split1.rest], 1);
    ghost var p5 := Repeat(BUF1, split1.pages);
    LayoutPieces(counts);
    ghost var start := w.written;
    ghost var total := w.written + Layout(counts);

    r := WriteRun(w, BUF0, split0.pages, start, p2 + (p3 + (p4 + p5)), total);
    if r.Fail? {
      return;
    }
    r := WriteRun(w, BUF0[..split0.rest], 1, start, p3 + (p4 + p5), total);
    if r.Fail? {
      return;
    }
    if middle0 + middle1 > 0 {
      var b := [0xFF >> middle0];
      assert Repeat(b, 1) == p3;
      r := WriteRun(w, b, 1, start, p4 + p5, total);
      if r.Fail? {
        return;
      }
    } else {
      assert w.written + (p4 + p5) == total;
    }
    r := WriteRun(w, BUF1[..split1.rest], 1, start, p5, total);
    if r.Fail? {
      return;
    }
    assert w.written + (p5 + []) == total;
    r := WriteRun(w, BUF1, split1.pages, start, [], total);
  }

  /**
   * Reconstruction into a growable in-memory buffer, which never fails:
   * the buffer holds exactly the layout of `counts`.
   */
  method DownloadToVec(counts: BitCounts) returns (buf: seq<bv8>)
    ensures buf == Layout(counts)
  {
    var w := new Writer(None);
    var r := Download(w, counts);
    assert r == Pass;
    buf := w.written;
  }

  /** Whole pages on both sides: no boundary byte (download.rs, test `whole_pages`). */
  lemma WholePagesExample()
    ensures var out := Layout(BitCounts(3 * PAGESZ * 8, 2 * PAGESZ * 8));
      && |out| == 3 * PAGESZ + 2 * PAGESZ
      && (forall i :: 0 <= i < 3 * PAGESZ ==> out[i] == 0x00)
      && (forall i :: 3 * PAGESZ <= i < |out| ==> out[i] == 0xFF)
  {
    LayoutShape(BitCounts(3 * PAGESZ * 8, 2 * PAGESZ * 8));
  }

  /** Leftover bits on both sides: one boundary byte 0b00000011 (test `middle_bytes`). */
  lemma MiddleBytesExample()
    ensures var out := Layout(BitCounts((3 * PAGESZ + 5) * 8 + 6, 2 + (7 + 2 * PAGESZ) * 8));
      && |out| == 3 * PAGESZ + 5 + 1 + 7 + 2 * PAGESZ
      && (forall i :: 0 <= i < 3 * PAGESZ + 5 ==> out[i] == 0x00)
      && out[3 * PAGESZ + 5] == 0x03
      && (forall i :: 3 * PAGESZ + 5 + 1 <= i < |out| ==> out[i] == 0xFF)
  {
    LayoutShape(BitCounts((3 * PAGESZ + 5) * 8 + 6, 2 + (7 + 2 * PAGESZ) * 8));
  }

  /** The six bytes served for the locator `/12/1e/...`. */
  lemma SmallExample()
    ensures Layout(BitCounts(0x12, 0x1e)) == [0x00, 0x00, 0x3F, 0xFF, 0xFF, 0xFF]
  {
    LayoutShape(BitCounts(0x12, 0x1e));
  }
}
