/** Cutting a file into byte ranges and streaming one range to a node
    (convoy/data.py). */
module Ranges {
  import opened Common

  const MAX_READ_BLOCKSIZE_BYTES: nat := 4194304

  /** begin (inclusive) and end (exclusive) offsets of a piece */
  datatype Range = Range(begin: nat, end: nat)

  /** The source splits a file only when it is larger than the split size. */
  predicate IsSplit(fsize: nat, split: Option<nat>) {
    split.Some? && fsize > split.value
  }

  function RangeAt(fsize: nat, split: nat, k: nat): Range {
    Range(k * split, Min((k + 1) * split, fsize))
  }

  // ---- streaming a range -----------------------------------------------

  /** Where the read loop stops: it reads whole blocks until it has passed
      `end` or the file is exhausted. */
  function SentEnd(fsize: nat, r: Range): nat
    requires r.begin <= r.end <= fsize
  {
    Min(fsize, r.begin + MAX_READ_BLOCKSIZE_BYTES * CeilDiv(r.end - r.begin, MAX_READ_BLOCKSIZE_BYTES))
  }

  predicate RangeOk(file: Bytes, r: Range) {
    r.begin <= r.end <= |file|
  }

  /** The bytes a node receives for a range of a file. */
  function Sent(file: Bytes, r: Range): Bytes
    requires RangeOk(file, r)
  {
    var e := SentEnd(|file|, r);
    if e < r.begin then [] else file[r.begin..e]
  }

  /** The read loop. It does not clamp the last block to `end`, so what is sent
      is given by `Sent`, not by the range. */
  method SendRange(file: Bytes, r: Range) returns (sent: Bytes)
    requires RangeOk(file, r)
    ensures sent == Sent(file, r)
  {
    sent := [];
    var curr := r.begin;
    ghost var blocks := 0;
    while curr < r.end
      invariant r.begin <= curr <= |file| && sent == file[r.begin..curr]
      invariant curr == Min(|file|, r.begin + MAX_READ_BLOCKSIZE_BYTES * blocks)
      invariant blocks > 0 ==> r.begin + MAX_READ_BLOCKSIZE_BYTES * (blocks - 1) < r.end
      invariant blocks == 0 ==> curr == r.begin
    {
      var buf := file[curr..Min(curr + MAX_READ_BLOCKSIZE_BYTES, |file|)];
      if |buf| == 0 {
        break;
      }
      sent := sent + buf;
      curr := curr + |buf|;
      blocks := blocks + 1;
    }
    CeilDivUnique(r.end - r.begin, MAX_READ_BLOCKSIZE_BYTES, blocks);
  }

  // ---- reassembly ------------------------------------------------------

  lemma RangeInFile(file: Bytes, split: nat, k: nat)
    requires split > 0 && k < CeilDiv(|file|, split)
    ensures RangeOk(file, RangeAt(|file|, split, k))
    ensures k * split < |file|
    ensures k + 1 < CeilDiv(|file|, split) ==> (k + 1) * split < |file|
    ensures k + 1 == CeilDiv(|file|, split) ==> RangeAt(|file|, split, k).end == |file|
  {
    CeilDivBounds(|file|, split);
    MulMono(k, CeilDiv(|file|, split) - 1, split);
    assert (CeilDiv(|file|, split) - 1) * split == CeilDiv(|file|, split) * split - split;
    if k + 1 < CeilDiv(|file|, split) {
      MulMono(k + 1, CeilDiv(|file|, split) - 1, split);
    }
    MulMono(k, k + 1, split);
  }

  /** What the nodes receive for the pieces of a file, in order. */
  ghost function PieceContents(file: Bytes, split: nat): (cs: seq<Bytes>)
    requires split > 0
    ensures |cs| == CeilDiv(|file|, split)
  {
    seq(CeilDiv(|file|, split), (k: int) requires 0 <= k < CeilDiv(|file|, split) =>
      RangeInFile(file, split, k);
      Sent(file, RangeAt(|file|, split, k)))
  }

  /** A range that is a whole number of blocks long, or that ends with the
      file, is sent exactly. */
  lemma SentEndExact(fsize: nat, r: Range)
    requires r.begin <= r.end <= fsize
    requires (r.end - r.begin) % MAX_READ_BLOCKSIZE_BYTES == 0 || r.end == fsize
    ensures SentEnd(fsize, r) == r.end
  {
    var len := r.end - r.begin;
    CeilDivBounds(len, MAX_READ_BLOCKSIZE_BYTES);
    if len % MAX_READ_BLOCKSIZE_BYTES == 0 {
      CeilDivUnique(len, MAX_READ_BLOCKSIZE_BYTES, len / MAX_READ_BLOCKSIZE_BYTES);
    }
  }

  lemma SentWhenAligned(file: Bytes, split: nat, k: nat)
    requires split > 0 && k < CeilDiv(|file|, split)
    requires split % MAX_READ_BLOCKSIZE_BYTES == 0
    ensures RangeOk(file, RangeAt(|file|, split, k))
    ensures PieceContents(file, split)[k] == file[k * split..RangeAt(|file|, split, k).end]
  {
    RangeInFile(file, split, k);
    assert (k + 1) * split == k * split + split;
    SentEndExact(|file|, RangeAt(|file|, split, k));
  }

  lemma {:induction false} AlignedPrefix(file: Bytes, split: nat, n: nat)
    requires split > 0 && 0 < n <= CeilDiv(|file|, split)
    requires split % MAX_READ_BLOCKSIZE_BYTES == 0
    ensures RangeOk(file, RangeAt(|file|, split, n - 1))
    ensures Flatten(PieceContents(file, split)[..n]) == file[..RangeAt(|file|, split, n - 1).end]
  {
    var cs := PieceContents(file, split);
    RangeInFile(file, split, n - 1);
    SentWhenAligned(file, split, n - 1);
    assert cs[..n][..n - 1] == cs[..n - 1];
    if n > 1 {
      AlignedPrefix(file, split, n - 1);
      var m := (n - 1) * split;
      assert RangeAt(|file|, split, n - 2).end == m;
      assert file[..m] + file[m..RangeAt(|file|, split, n - 1).end] == file[..RangeAt(|file|, split, n - 1).end];
    }
  }

  /** Every piece is at least as long as its range, and a piece that is not the
      last is longer when the split size is not a whole number of blocks. */
  lemma SentLength(file: Bytes, split: nat, k: nat)
    requires split > 0 && k < CeilDiv(|file|, split)
    ensures |PieceContents(file, split)[k]| >= RangeAt(|file|, split, k).end - k * split
    ensures split % MAX_READ_BLOCKSIZE_BYTES != 0 && k + 1 < CeilDiv(|file|, split) ==>
      |PieceContents(file, split)[k]| > split
  {
    RangeInFile(file, split, k);
    var r := RangeAt(|file|, split, k);
    assert (k + 1) * split == k * split + split;
    CeilDivBounds(r.end - r.begin, MAX_READ_BLOCKSIZE_BYTES);
    if k + 1 < CeilDiv(|file|, split) {
      assert r.end - r.begin == split;
    }
  }

  lemma {:induction false} MisalignedIsLonger(file: Bytes, split: nat, n: nat)
    requires split > 0 && 0 < n <= CeilDiv(|file|, split) && CeilDiv(|file|, split) > 1
    requires split % MAX_READ_BLOCKSIZE_BYTES != 0
    ensures |Flatten(PieceContents(file, split)[..n])| > RangeAt(|file|, split, n - 1).end
  {
    var cs := PieceContents(file, split);
    RangeInFile(file, split, n - 1);
    SentLength(file, split, n - 1);
    assert cs[..n][..n - 1] == cs[..n - 1];
    if n > 1 {
      MisalignedIsLonger(file, split, n - 1);
      assert RangeAt(|file|, split, n - 2).end <= (n - 1) * split;
      RangeInFile(file, split, n - 2);
    }
  }

  /** A split file is reassembled exactly when the split size is a whole number
      of read blocks. */
  lemma ReassembledIffAligned(file: Bytes, split: nat)
    requires 0 < split < |file|
    ensures Flatten(PieceContents(file, split)) == file <==> split % MAX_READ_BLOCKSIZE_BYTES == 0
  {
    var n := CeilDiv(|file|, split);
    CeilDivBounds(|file|, split);
    var cs := PieceContents(file, split);
    assert cs[..n] == cs;
    RangeInFile(file, split, n - 1);
    if split % MAX_READ_BLOCKSIZE_BYTES == 0 {
      AlignedPrefix(file, split, n);
    } else {
      MisalignedIsLonger(file, split, n);
    }
  }

  /** What arrives is never shorter than the file. */
  lemma ReassembledLength(file: Bytes, split: nat)
    requires 0 < split < |file|
    ensures |Flatten(PieceContents(file, split))| >= |file|
  {
    ReassembledIffAligned(file, split);
    var n := CeilDiv(|file|, split);
    CeilDivBounds(|file|, split);
    if split % MAX_READ_BLOCKSIZE_BYTES != 0 {
      assert PieceContents(file, split)[..n] == PieceContents(file, split);
      RangeInFile(file, split, n - 1);
      MisalignedIsLonger(file, split, n);
    }
  }

  /** The setting is read in MiB and converted to bytes. */
  function SplitBytes(megabytes: nat): nat {
    megabytes * 1048576
  }

  /** In terms of the configuration: multiples of four MiB work, others do not. */
  lemma ReassembledIffMultipleOfFour(file: Bytes, megabytes: nat)
    requires 0 < SplitBytes(megabytes) < |file|
    ensures Flatten(PieceContents(file, SplitBytes(megabytes))) == file <==> megabytes % 4 == 0
  {
    var split := SplitBytes(megabytes);
    DivUnique(split, MAX_READ_BLOCKSIZE_BYTES, megabytes / 4, (megabytes % 4) * 1048576);
    ReassembledIffAligned(file, split);
  }

  /** A file of 6 MiB split every 5 MiB arrives longer than it is. */
  lemma FiveMegabyteSplitCorrupts(file: Bytes)
    requires |file| == 6 * 1048576
    ensures Flatten(PieceContents(file, SplitBytes(5))) != file
  {
    ReassembledIffMultipleOfFour(file, 5);
  }
}
