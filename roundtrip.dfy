/**
 * Counting the bits of a reconstructed stream gives back the counts it
 * was reconstructed from, exactly when those counts come from whole bytes.
 */
module RoundTrip {
  import opened Io
  import opened BitStream
  import opened Download
  import opened Upload

  lemma CountLayout(c: BitCounts)
    requires Aligned(c)
    ensures CountBits(Layout(c)) == c
  {
    LayoutBits(c);
    CountTrueAppend(Fill(false, c.cnt0), Fill(true, c.cnt1));
    CountTrueFill(false, c.cnt0);
    CountTrueFill(true, c.cnt1);
  }

  /** Counts that are not byte-aligned never survive the round trip. */
  lemma CountLayoutOnlyIfAligned(c: BitCounts)
    ensures CountBits(Layout(c)) == c <==> Aligned(c)
  {
    if Aligned(c) {
      CountLayout(c);
    }
  }

  /**
   * Reconstructs the stream for `counts` into memory and counts its bits
   * again: the counts come back unchanged exactly when they are byte-aligned.
   */
  method DownloadThenUpload(counts: BitCounts) returns (r: Result<BitCounts>)
    ensures r == Ok(CountBits(Layout(counts)))
    ensures r == Ok(counts) <==> Aligned(counts)
  {
    var buf := DownloadToVec(counts);
    var source := seq(|buf|, i requires 0 <= i < |buf| => Ok(buf[i]));
    assert Payload(source) == buf;
    r := Upload.Upload(source);
    CountLayoutOnlyIfAligned(counts);
  }
}
