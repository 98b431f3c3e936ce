/**
 The ustar Interchange Format as a writer produces it (POSIX.1, pax utility; user/Makefile:46): each file a header
 block, its contents, and zeros up to the next multiple of 512; then two blocks of zeros. The reader of `Tar` reads all
 of them.
 */
module Archive {
  import opened Tar

  function Zeros(n: nat): (z: Bytes)
    ensures |z| == n
  { seq(n, _ => 0) }

  /** A file with the header fields that the kernel does not look at: mode, owner and group; and what follows the
      size. */
  datatype Entry = Entry(file: File, owner: Bytes, rest: Bytes)

  predicate GoodEntry(e: Entry) {
    && 0 < |e.file.name| < 100 && 0 !in e.file.name && |e.file.contents| < Pow8(11)
    && |e.owner| == 24 && |e.rest| == 377
  }

  /** The header block: 100 bytes of name, 24 bytes of mode, owner and group, 11 octal digits of size, and the rest. */
  function Header(e: Entry): Bytes
    requires GoodEntry(e)
  {
    e.file.name + Zeros(100 - |e.file.name|) + e.owner + ToOctal(|e.file.contents|, 11) + e.rest
  }

  /** Zeros up to the next multiple of 512. */
  function Padding(size: nat): nat { (512 - size % 512) % 512 }

  function EntryBytes(e: Entry): Bytes
    requires GoodEntry(e)
  { Header(e) + e.file.contents + Zeros(Padding(|e.file.contents|)) }

  function ArchiveOf(es: seq<Entry>): Bytes
    requires forall i | 0 <= i < |es| :: GoodEntry(es[i])
  { if |es| == 0 then Zeros(1024) else EntryBytes(es[0]) + ArchiveOf(es[1..]) }

  function FilesOf(es: seq<Entry>): seq<File> { if |es| == 0 then [] else [es[0].file] + FilesOf(es[1..]) }

  // ---- Where the reader looks -----------------------------------------------------------------------

  /** The next header is at the first multiple of 512 behind this file's header and contents. */
  lemma NextIsTight(pos: nat, f: File)
    ensures (Next(pos, f) - pos) % 512 == 0
    ensures 0 <= Next(pos, f) - (pos + 512 + |f.contents|) < 512
  {
    var n := (|f.contents| + 511) / 512;
    assert Next(pos, f) - pos == 512 * (1 + n);
    Multiple(Next(pos, f) - pos, 1 + n);
  }

  lemma Multiple(x: nat, k: nat)
    requires x == 512 * k
    ensures x % 512 == 0
  {}

  lemma PaddingFills(size: nat)
    ensures (size + Padding(size)) % 512 == 0 && Padding(size) < 512
  {}

  /** Both agree on the length of a file in the archive. */
  lemma EntryLength(e: Entry, pos: nat)
    requires GoodEntry(e)
    ensures |Header(e)| == 512 && pos + |EntryBytes(e)| == Next(pos, e.file)
  {
    hide Next, Padding, Zeros, ToOctal;
    var size := |e.file.contents|;
    LengthOfOctal(size, 11);
    PaddingFills(size);
    NextIsTight(pos, e.file);
    BlockMore(size + Padding(size));
    SameMultiple(512 + size + Padding(size), Next(pos, e.file) - pos, 512 + size);
  }

  lemma BlockMore(x: nat)
    requires x % 512 == 0
    ensures (512 + x) % 512 == 0
  {}

  /** Two multiples of 512 within 512 bytes behind the same place are the same. */
  lemma SameMultiple(x: nat, y: nat, from: nat)
    requires x % 512 == 0 && y % 512 == 0 && from <= x < from + 512 && from <= y < from + 512
    ensures x == y
  {}

  /** What the reader finds in one file of the archive. */
  lemma HoldsEntry(front: Bytes, e: Entry, back: Bytes)
    requires GoodEntry(e)
    ensures HoldsFile(front + EntryBytes(e) + back, |front|, e.file)
  {
    hide ToOctal;
    var disk, pos := front + EntryBytes(e) + back, |front|;
    var f, size := e.file, |e.file.contents|;
    EntryLength(e, pos);
    LengthOfOctal(size, 11);
    var h := Header(e);
    assert forall i | 0 <= i < 512 :: disk[pos + i] == h[i];
    assert disk[pos..pos + |f.name|] == f.name;
    assert disk[pos + |f.name|] == 0;
    assert disk[pos + 124..pos + 135] == ToOctal(size, 11);
    assert disk[pos + 512..pos + 512 + size] == f.contents;
  }

  lemma Regroup(a: Bytes, b: Bytes, c: Bytes)
    ensures a + (b + c) == a + b + c
  {}

  lemma EndOfArchive(front: Bytes)
    ensures Holds(front + Zeros(1024), |front|, [])
  {
    var disk := front + Zeros(1024);
    assert disk[|front|] == 0;
  }

  lemma ConsHolds(disk: Bytes, pos: nat, f: File, files: seq<File>)
    requires HoldsFile(disk, pos, f) && Holds(disk, Next(pos, f), files)
    ensures Holds(disk, pos, [f] + files)
  {
    hide HoldsFile;
    assert ([f] + files)[1..] == files;
  }

  /** Every archive a writer produces, wherever it begins, is one the reader reads. */
  lemma {:induction false} HoldsArchive(front: Bytes, es: seq<Entry>)
    requires forall i | 0 <= i < |es| :: GoodEntry(es[i])
    ensures Holds(front + ArchiveOf(es), |front|, FilesOf(es))
    decreases |es|
  {
    hide HoldsFile, GoodEntry, EntryBytes, Zeros, Holds, Next;
    if |es| == 0 { EndOfArchive(front); } else {
      var first, rest := EntryBytes(es[0]), ArchiveOf(es[1..]);
      Regroup(front, first, rest);
      EntryLength(es[0], |front|);
      HoldsEntry(front, es[0], rest);
      HoldsArchive(front + first, es[1..]);
      ConsHolds(front + first + rest, |front|, es[0].file, FilesOf(es[1..]));
    }
  }

  /** The ramdisk: reading starts at its first byte. */
  lemma ReaderReadsWriter(es: seq<Entry>)
    requires forall i | 0 <= i < |es| :: GoodEntry(es[i])
    ensures Holds(ArchiveOf(es), 0, FilesOf(es))
    ensures |FilesOf(es)| == |es|
  {
    HoldsArchive([], es);
    assert [] + ArchiveOf(es) == ArchiveOf(es);
    Count(es);
  }

  lemma {:induction false} Count(es: seq<Entry>)
    ensures |FilesOf(es)| == |es|
  { if |es| > 0 { Count(es[1..]); } }
}
