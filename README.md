# Deep Atlantic Storage: bit counting and stream reconstruction

summer-host-storage stores a file as nothing but the number of zero bits
and the number of one bits it contains. Uploading reads a byte stream and
counts its bits (`upload`, in `src/upload.rs`); downloading writes back a
stream with the same counts, all zero bits first and all one bits last
(`download`, in `src/download.rs`). For a file whose bits were sorted that
way to begin with, the download is the original; for any other file it
is a stream with the same number of zeros and ones.

This Dafny project models those two operations and proves:

- the reconstructor writes `cnt0 / 8` zero bytes, then the boundary byte
  `0xFF >> (cnt0 % 8)` exactly when `cnt0 % 8 + cnt1 % 8 > 0`, then
  `cnt1 / 8` bytes 0xFF, in whole 1024-byte pages and partial pages, and
  stops at the first failed write with a prefix of that output in the sink;
- the counter returns `8 * n - ones` zeros and `ones` ones for `n` bytes,
  the counts of the stream's bit sequence read most significant bit first,
  and aborts with the error of the first failed read;
- the 256-entry table of population counts is correct;
- counting the bits of a reconstruction gives back the counts exactly when
  they are byte-aligned (`(cnt0 + cnt1) % 8 == 0`).

Files:

- `bits.dfy` (module `BitStream`): the bit view of a byte stream (`Bits`,
  `ByteBits`, `CountTrue`, `Fill`) and lemmas about it.
- `io.dfy` (module `Io`): read and write results and an append-only sink
  `Writer` standing for `io::Write`.
- `download.dfy` (module `Download`): `BitCounts`, the page constants, the
  output `Layout`, `WritePages` and `Download`.
- `upload.dfy` (module `Upload`): the population-count table and `Upload`.
- `roundtrip.dfy` (module `RoundTrip`): upload after download.

Bytes are `bv8`. A sink is a `Writer` object whose `written` field grows
with every write; a sink with a capacity `limit` accepts that many bytes in
all and then fails, which is how a failing `write_all` is represented. A
reader is the sequence of results its byte iterator yields: `Ok(b)` for a
byte, `Err(e)` for a failed read. `Upload.SourceOk` says every read of a
reader succeeded, and `Upload.Payload` is then the bytes it delivered.

## Model

| member | source | states |
|---|---|---|
| Download.SplitPages | src/download.rs:13-20 | a byte count splits into whole pages of `PAGESZ` and a remainder below `PAGESZ` that add back up to it |
| Download.LayoutShape | src/download.rs:12-31 | the output is `cnt0/8` bytes 0x00, then `0xFF >> (cnt0 % 8)` exactly when `cnt0 % 8 + cnt1 % 8 > 0`, then `cnt1/8` bytes 0xFF, and has the matching length |
| Download.BoundaryBits | src/download.rs:24-27 | for byte-aligned counts the boundary byte holds the `cnt0 % 8` last zero bits followed by the `cnt1 % 8` first one bits |
| Download.LayoutBits | src/download.rs:12-31 | for byte-aligned counts the output is `(cnt0 + cnt1) / 8` bytes whose bits are `cnt0` zeros followed by `cnt1` ones |
| Download.RepeatSplit | src/download.rs:33-38 | `n` copies of a page are `i` copies followed by `n - i` copies |
| Download.RepeatFill | src/download.rs:22-29 | `n` pages of `m` equal bytes are `n * m` such bytes |
| Download.ZeroRun | src/download.rs:22-23 | the whole zero pages and the partial zero page together are exactly `cnt0 / 8` zero bytes |
| Download.OneRun | src/download.rs:28-29 | the partial 0xFF page and the whole 0xFF pages together are exactly `cnt1 / 8` bytes 0xFF |
| Download.LayoutPieces | src/download.rs:22-29 | the five writes of `download`, in order, concatenate to the output layout |
| Download.WritePages | src/download.rs:33-38 | writing a page `n` times appends `n` copies of it after the sink's earlier contents, which stay unchanged in front; on the first failed write it stops, the sink holding the prefix it accepted, and the error is returned |
| Download.Download | src/download.rs:12-31 | the sink receives exactly the layout of the counts after its earlier contents, which stay unchanged in front; on a failed write it holds a prefix of it and the write error is returned |
| Download.DownloadToVec | src/download.rs:44-51 | reconstructing into a growable buffer never fails and yields exactly the layout |
| Download.WholePagesExample | src/download.rs:44-57 | 3 pages of zero bits and 2 pages of one bits give `5 * PAGESZ` bytes, zeros then 0xFF, no boundary byte |
| Download.MiddleBytesExample | src/download.rs:59-73 | leftover bits 6 and 2 give the boundary byte 0b00000011 between `3 * PAGESZ + 5` zero bytes and `7 + 2 * PAGESZ` bytes 0xFF |
| Download.SmallExample | src/serve.rs:58-78 | counts 0x12 and 0x1e give the six bytes 00 00 3F FF FF FF |
| Io.TruncatedExtend | src/download.rs:35 | after a failed write the sink keeps what it had accepted whatever is offered later |
| Io.Writer.WriteAll | src/download.rs:35 | `write_all` appends the whole buffer or fails, keeping only the part that fitted |
| Upload.LowOnesSuffix | src/upload.rs:11-16 | the set bits among the `s` low bits of `x` are the one bits among the last `s` bits of its bit sequence |
| Upload.LowOnesAll | src/upload.rs:11-16 | examining the eight bits of `x` counts its population |
| Upload.CountSetBits | src/upload.rs:11-16 | the inner loop over `s in 0..8` counts the set bits of `b` |
| Upload.OnesTable | src/upload.rs:6-21 | the table has 256 entries and entry `b` is the number of set bits of `b` |
| Upload.OnesAreSetBits | src/upload.rs:30-33 | summing the table entries of the bytes read counts the one bits of the stream's bit sequence |
| Upload.CountBits | src/upload.rs:35-38 | `cnt1` is the number of one bits of the stream and `cnt0 + cnt1` its number of bits |
| Upload.PayloadStep | src/upload.rs:30-33 | one more successful read adds that byte's set bits to `cnt1` |
| Upload.Upload | src/upload.rs:23-39 | succeeds exactly when every read succeeds, then returns the bit counts of the bytes read; otherwise returns the error of the first failed read |
| Upload.OnesTableSamples | src/upload.rs:45-54 | table entries 0x00, 0x08, 0x11, 0x70, 0xC3, 0xFF are 0, 1, 2, 3, 4, 8 |
| Upload.EmptyInput | src/upload.rs:56-62 | an empty stream has zero zero bits and zero one bits |
| Upload.SameOctets | src/upload.rs:64-73 | `n` copies of byte `b` have `PopCount(b) * n` one bits and `8 * n` minus that zero bits |
| RoundTrip.CountLayout | src/download.rs:12-31 | counting the bits of the reconstruction of byte-aligned counts gives back those counts |
| RoundTrip.CountLayoutOnlyIfAligned | src/download.rs:12-31 | the counts come back unchanged if and only if they are byte-aligned |
| RoundTrip.DownloadThenUpload | src/upload.rs:23-39 | reconstructing into memory and counting again yields the counts of the reconstruction, equal to the original counts exactly when they are byte-aligned |
| BitStream.ShiftedOnesBits | src/download.rs:25 | `0xFF >> e` is `e` zero bits followed by `8 - e` one bits |
| BitStream.BitsAppend | src/upload.rs:30-33 | the bits of a concatenation are the concatenation of the bits |
| BitStream.RunBits | src/download.rs:22-29 | zero bytes, a middle part and 0xFF bytes read as bits are the zero bits followed by the one bits |

## Left out

- Integer widths: `usize` counters are unbounded `nat`s. `size += 8` in `upload` and the multiplications in `download` cannot overflow in the model, and a count too large for `usize` is not represented.
- The `OnceLock` in `get_ones_table`: the table is built on every call of `Upload`, not once per process; its contents are the same. Entries are `nat` rather than `u8`.
- `CountSetBits` is the inner loop of `get_ones_table` written as a method of its own; the behaviour is the same.
- `io::BufReader` and the `io::Read` / `io::Write` traits: a reader is the finite sequence of results of its byte iterator, a writer an append-only sink; a write failure is modelled as the sink reaching a capacity, so errors that do not depend on the amount written, and short writes that `write_all` retries, are not represented.
- Readers and writers share one error type, `Io.IoError`: a modelled reader may yield `Err(WriteFailure)`, and `Upload.Upload` passes any error through unchanged, as `b?` does; the model does not enforce that a reader fails only with `ReadFailure`.
- Unaligned counts (`(cnt0 + cnt1) % 8 != 0`) are not rejected by `download`; the model writes the same layout, and `RoundTrip.CountLayoutOnlyIfAligned` shows their counts do not survive a round trip.
- The asynchronous variants of `upload` and `download` called from `src/main.rs`, the locator encoding (`to_url`, `from_url`), the command-line front end and `to_basename` are not part of this model.
- The HTTP server of `src/serve.rs` (routing, headers, the in-memory pipe and the spawned writer task) is not part of this model; only the bytes of its test response are checked, by `Download.SmallExample`.
