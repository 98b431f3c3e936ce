/** The ustar ramdisk reader (src/fs/tar.c). */
module Tar {
  import opened Common

  const BLOCK: nat := 512
  const SIZE_OFFSET: nat := 124
  const SIZE_LEN: nat := 11
  const NAME_LEN: nat := 100
  const MAX_INITRD_SIZE: nat := 0x800_0000      // 128 MB

  type Bytes = seq<nat>

  function Min(a: nat, b: nat): nat { if a <= b then a else b }

  // ---- Octal sizes --------------------------------------------------------------

  /** Character codes of the octal digits. */
  predicate OctalDigits(s: Bytes) { forall i | 0 <= i < |s| :: '0' as nat <= s[i] <= '7' as nat }

  /** The number written by octal digits, most significant first. */
  function OctalValue(s: Bytes): int {
    if |s| == 0 then 0 else OctalValue(s[..|s| - 1]) * 8 + (s[|s| - 1] - '0' as nat)
  }

  /** n written with exactly len octal digits. */
  function ToOctal(n: nat, len: nat): Bytes {
    if len == 0 then [] else ToOctal(n / 8, len - 1) + ['0' as nat + n % 8]
  }

  function Pow8(k: nat): nat { if k == 0 then 1 else 8 * Pow8(k - 1) }

  /** Parsing inverts printing, for every size that fits the field. */
  lemma {:induction false} OctalRoundTrip(n: nat, len: nat)
    requires n < Pow8(len)
    ensures |ToOctal(n, len)| == len && OctalDigits(ToOctal(n, len)) && OctalValue(ToOctal(n, len)) == n
  {
    if len > 0 {
      OctalRoundTrip(n / 8, len - 1);
      var s := ToOctal(n, len);
      assert s[..|s| - 1] == ToOctal(n / 8, len - 1);
    }
  }

  /** stoul_octal: None where an assertion of the source fails. The source's check lets '8' through. */
  method StoulOctal(s: Bytes) returns (r: Option<int>)
    ensures r.Some? <==> forall i | 0 <= i < |s| :: '0' as nat <= s[i] < '9' as nat
    ensures r.Some? ==> r.value == OctalValue(s)
  {
    var acc := 0;
    for i := 0 to |s|
      invariant forall j | 0 <= j < i :: '0' as nat <= s[j] < '9' as nat
      invariant acc == OctalValue(s[..i])
    {
      if !('0' as nat <= s[i] < '9' as nat) { return None; }
      assert s[..i + 1][..i] == s[..i];
      acc := acc * 8 + (s[i] - '0' as nat);
    }
    assert s[..|s|] == s;
    return Some(acc);
  }

  /** The source's check accepts '8', which is no octal digit: it reads "8" as it reads "10". */
  lemma EightAccepted()
    ensures !OctalDigits(['8' as nat]) && OctalValue(['8' as nat]) == 8 == OctalValue(['1' as nat, '0' as nat])
  {
    var eight, ten := ['8' as nat], ['1' as nat, '0' as nat];
    assert eight[0] == '8' as nat;
    assert eight[..|eight| - 1] == [] && OctalValue([]) == 0;
    assert ten[..|ten| - 1] == ['1' as nat];
    assert ['1' as nat][..|['1' as nat]| - 1] == [];
    assert OctalValue(['1' as nat]) == 1;
  }

  /** On octal digits the parse is right: printing the value gives the digits back. An accepted string that contains '8'
      is never given back. */
  lemma {:induction false} RightIffOctal(s: Bytes)
    requires forall i | 0 <= i < |s| :: '0' as nat <= s[i] < '9' as nat
    ensures OctalValue(s) >= 0
    ensures ToOctal(OctalValue(s), |s|) == s <==> OctalDigits(s)
  {
    hide ToOctal;
    if |s| == 0 {
      LengthOfOctal(OctalValue(s), 0);
      assert ToOctal(OctalValue(s), 0) == s;
    } else {
      var t, d := s[..|s| - 1], s[|s| - 1];
      assert s == t + [d];
      RightIffOctal(t);
      PrintStep(OctalValue(t), d, |t|);
      LastDigit(s);
      LengthOfOctal(OctalValue(t), |t|);
      LengthOfOctal(OctalValue(t) + 1, |t|);
      SameLast(ToOctal(OctalValue(t), |t|), d, t, d);
      SameLast(ToOctal(OctalValue(t) + 1, |t|), '0' as nat, t, d);
      assert OctalValue(s) == OctalValue(t) * 8 + (d - '0' as nat) && |s| == |t| + 1;
    }
  }

  /** How one more digit shows when the value is printed: an '8' carries. */
  lemma PrintStep(v: nat, d: nat, len: nat)
    requires '0' as nat <= d < '9' as nat
    ensures ToOctal(v * 8 + (d - '0' as nat), len + 1)
         == if d <= '7' as nat then ToOctal(v, len) + [d] else ToOctal(v + 1, len) + ['0' as nat]
  {
    var c := d - '0' as nat;
    if c < 8 { assert (v * 8 + c) / 8 == v && (v * 8 + c) % 8 == c; }
    else { assert (v * 8 + c) / 8 == v + 1 && (v * 8 + c) % 8 == 0; }
  }

  lemma SameLast(a: Bytes, x: nat, b: Bytes, y: nat)
    requires |a| == |b|
    ensures a + [x] == b + [y] <==> a == b && x == y
  {
    if a + [x] == b + [y] {
      assert (a + [x])[|a|] == x && (b + [y])[|b|] == y;
      assert (a + [x])[..|a|] == a && (b + [y])[..|b|] == b;
    }
  }

  lemma LastDigit(s: Bytes)
    requires |s| > 0
    ensures OctalDigits(s) <==> OctalDigits(s[..|s| - 1]) && '0' as nat <= s[|s| - 1] <= '7' as nat
  {
    var t := s[..|s| - 1];
    if OctalDigits(t) && '0' as nat <= s[|s| - 1] <= '7' as nat {
      forall i | 0 <= i < |s| ensures '0' as nat <= s[i] <= '7' as nat { if i < |t| { assert s[i] == t[i]; } }
    }
  }

  lemma {:induction false} LengthOfOctal(n: nat, len: nat)
    ensures |ToOctal(n, len)| == len
  { if len > 0 { LengthOfOctal(n / 8, len - 1); } }

  // ---- The archive ----------------------------------------------------------------

  /** A file of the archive. */
  datatype File = File(name: Bytes, contents: Bytes)

  /** tar_num_blocks_for_file for a file of the given size. */
  function Blocks(size: nat): nat { 1 + (size + (BLOCK - 1)) / BLOCK }

  /** The disk holds, from pos on, a ustar header for f followed by its contents. */
  predicate HoldsFile(disk: Bytes, pos: nat, f: File) {
    && pos + BLOCK * Blocks(|f.contents|) <= |disk|
    && 0 < |f.name| < NAME_LEN && 0 !in f.name
    && disk[pos..pos + |f.name|] == f.name && disk[pos + |f.name|] == 0
    && |f.contents| < Pow8(SIZE_LEN)
    && disk[pos + SIZE_OFFSET..pos + SIZE_OFFSET + SIZE_LEN] == ToOctal(|f.contents|, SIZE_LEN)
    && disk[pos + BLOCK..pos + BLOCK + |f.contents|] == f.contents
  }

  function Next(pos: nat, f: File): nat { pos + BLOCK * Blocks(|f.contents|) }

  /** From pos on the disk is the archive of the given files, ended by a block that starts with a zero byte. */
  predicate Holds(disk: Bytes, pos: nat, files: seq<File>)
    decreases |files|
  {
    if |files| == 0 then pos < |disk| && disk[pos] == 0
    else HoldsFile(disk, pos, files[0]) && Holds(disk, Next(pos, files[0]), files[1..])
  }

  /** Where the k-th file's header lies. */
  function HeaderAt(pos: nat, files: seq<File>, k: nat): nat
    requires k <= |files|
    decreases k
  {
    if k == 0 then pos else HeaderAt(Next(pos, files[0]), files[1..], k - 1)
  }

  lemma {:induction false} HeaderStep(disk: Bytes, pos: nat, files: seq<File>, k: nat)
    requires Holds(disk, pos, files) && k <= |files|
    ensures Holds(disk, HeaderAt(pos, files, k), files[k..])
    ensures k < |files| ==> HoldsFile(disk, HeaderAt(pos, files, k), files[k])
    ensures k < |files| ==> HeaderAt(pos, files, k + 1) == Next(HeaderAt(pos, files, k), files[k])
    decreases k
  {
    if k == 0 {
      assert files[0..] == files;
    } else {
      HeaderStep(disk, Next(pos, files[0]), files[1..], k - 1);
      assert files[1..][k - 1..] == files[k..];
    }
  }

  /** The size tar_filesize reads from a header of the archive. */
  method Filesize(disk: Bytes, pos: nat, ghost f: File) returns (size: nat)
    requires HoldsFile(disk, pos, f)
    ensures size == |f.contents|
  {
    OctalRoundTrip(|f.contents|, SIZE_LEN);
    var r := StoulOctal(disk[pos + SIZE_OFFSET..pos + SIZE_OFFSET + SIZE_LEN]);
    assert r.Some?;
    size := r.value;
  }

  /** tar_to_next. */
  method ToNext(disk: Bytes, pos: nat, ghost f: File) returns (next: nat)
    requires HoldsFile(disk, pos, f)
    ensures next == Next(pos, f)
  {
    var size := Filesize(disk, pos, f);
    next := pos + BLOCK * (1 + (size + (BLOCK - 1)) / BLOCK);
  }

  /** strequal(path, header name): path has no zero byte and ends where the C string would. */
  method NameIs(disk: Bytes, pos: nat, path: Bytes, ghost f: File) returns (eq: bool)
    requires HoldsFile(disk, pos, f) && 0 !in path
    ensures eq <==> path == f.name
  {
    hide HoldsFile;
    var i := 0;
    AtName(disk, pos, f, 0);
    while i < |path| && disk[pos + i] != 0
      invariant i <= |path| && i <= |f.name| && pos + i < |disk|
      invariant path[..i] == f.name[..i]
      decreases |path| - i
    {
      AtName(disk, pos, f, i);
      if path[i] != disk[pos + i] { return false; }
      i := i + 1;
      AtName(disk, pos, f, i);
    }
    AtName(disk, pos, f, i);
    return i == |path| && disk[pos + i] == 0;
  }

  lemma AtName(disk: Bytes, pos: nat, f: File, i: nat)
    requires HoldsFile(disk, pos, f) && i <= |f.name|
    ensures pos + i < |disk|
    ensures disk[pos + i] == if i < |f.name| then f.name[i] else 0
    ensures i < |f.name| ==> f.name[i] != 0
  {
    if i < |f.name| { assert disk[pos..pos + |f.name|][i] == f.name[i]; }
  }

  /** The index of the first file of a name, or the number of files. */
  function FirstNamed(files: seq<File>, path: Bytes): (k: nat)
    ensures k <= |files|
    ensures forall j | 0 <= j < k :: files[j].name != path
    ensures k < |files| ==> files[k].name == path
  {
    if |files| == 0 || files[0].name == path then 0 else 1 + FirstNamed(files[1..], path)
  }

  lemma FirstHeader(files: seq<File>)
    ensures HeaderAt(0, files, 0) == 0
  {}

  lemma FirstNamedIs(files: seq<File>, path: Bytes, k: nat)
    requires k <= |files| && (forall j | 0 <= j < k :: files[j].name != path) && (k < |files| ==> files[k].name == path)
    ensures FirstNamed(files, path) == k
  {}

  const ROOT: Bytes := ['/' as nat]

  /** An open file: file_t with inode (the header's position) and pos. */
  datatype OpenFile = Regular(inode: nat, pos: nat) | Directory(pos: nat)

  /** tar_open: the first entry of that name, else the root directory for "/", else nothing. */
  method Open(disk: Bytes, path: Bytes, ghost files: seq<File>) returns (r: Option<OpenFile>)
    requires Holds(disk, 0, files) && 0 !in path
    ensures var k := FirstNamed(files, path);
      r == if k < |files| then Some(Regular(HeaderAt(0, files, k), 0))
           else if path == ['/' as nat] then Some(Directory(0)) else None
  {
    hide HoldsFile, Holds, FirstNamed, Next, HeaderAt;
    var cursor := 0;
    FirstHeader(files);
    ghost var k := 0;
    HeaderStep(disk, 0, files, 0);
    HoldsInside(disk, 0, files[0..]);
    while disk[cursor] != 0
      invariant k <= |files| && cursor == HeaderAt(0, files, k) && cursor < |disk|
      invariant disk[cursor] == 0 <==> k == |files|
      invariant forall j | 0 <= j < k :: files[j].name != path
      decreases |files| - k
    {
      HeaderStep(disk, 0, files, k);
      var eq := NameIs(disk, cursor, path, files[k]);
      if eq {
        FirstNamedIs(files, path, k);
        return Some(Regular(cursor, 0));
      }
      HeaderStep(disk, 0, files, k + 1);
      cursor := ToNext(disk, cursor, files[k]);
      k := k + 1;
      HoldsInside(disk, cursor, files[k..]);
    }
    FirstNamedIs(files, path, k);
    if path == ROOT { return Some(Directory(0)); }
    return None;
  }

  lemma HoldsInside(disk: Bytes, pos: nat, files: seq<File>)
    requires Holds(disk, pos, files)
    ensures pos < |disk| && (disk[pos] == 0 <==> |files| == 0)
  {
    if |files| > 0 { AtName(disk, pos, files[0], 0); }
  }

  // ---- Reading ---------------------------------------------------------------------

  /** What _tar_read copies out: nothing for an empty file or past the end, else up to len bytes. */
  function ReadAt(contents: Bytes, len: nat, offset: nat): Bytes {
    if |contents| == 0 || offset > |contents| then []
    else contents[offset..offset + Min(len, |contents| - offset)]
  }

  lemma SliceOfSlice(s: Bytes, a: nat, len: nat, off: nat, n: nat)
    requires a + len <= |s| && off + n <= len
    ensures s[a..a + len][off..off + n] == s[a + off..a + off + n]
  {
    var x, y := s[a..a + len][off..off + n], s[a + off..a + off + n];
    assert |x| == |y| && forall i | 0 <= i < n :: x[i] == y[i];
  }

  lemma ContentsPart(disk: Bytes, inode: nat, f: File, off: nat, n: nat)
    requires HoldsFile(disk, inode, f) && off + n <= |f.contents|
    ensures inode + BLOCK + off + n <= |disk|
    ensures disk[inode + BLOCK + off..inode + BLOCK + off + n] == f.contents[off..off + n]
  {
    hide ToOctal, Pow8;
    SliceOfSlice(disk, inode + BLOCK, |f.contents|, off, n);
  }

  /** _tar_read (src/fs/tar.c:78-96). None where the assertion on the header's place fails. */
  method TarRead(disk: Bytes, inode: nat, len: nat, offset: nat, ghost f: File) returns (out: Option<Bytes>)
    requires HoldsFile(disk, inode, f)
    ensures out == if inode < 0x800_0000 then Some(ReadAt(f.contents, len, offset)) else None
  {
    if inode >= MAX_INITRD_SIZE { return None; }
    var size := Filesize(disk, inode, f);
    if size == 0 { return Some([]); }
    if offset > size { return Some([]); }
    var n := Min(len, size - offset);
    var start := inode + BLOCK + offset;
    ContentsPart(disk, inode, f, offset, n);
    hide HoldsFile;
    return Some(disk[start..start + n]);
  }

  /** The offsets after successive reads, and the bytes they return in all. */
  function ReadAll(contents: Bytes, pos: nat, lens: seq<nat>): (r: (Bytes, nat))
    decreases |lens|
  {
    if |lens| == 0 then ([], pos)
    else
      var out := ReadAt(contents, lens[0], pos);
      var rest := ReadAll(contents, pos + |out|, lens[1..]);
      (out + rest.0, rest.1)
  }

  /** One read takes the next bytes, and some unless it is at the end. */
  lemma ReadTakes(contents: Bytes, len: nat, pos: nat)
    requires pos <= |contents|
    ensures var n := |ReadAt(contents, len, pos)|;
      && pos + n <= |contents| && ReadAt(contents, len, pos) == contents[pos..pos + n]
      && (len > 0 && pos < |contents| ==> n > 0)
  {}

  lemma Adjacent(contents: Bytes, a: nat, b: nat, c: nat)
    requires a <= b <= c <= |contents|
    ensures contents[a..b] + contents[b..c] == contents[a..c]
  {}

  /** Successive reads concatenate to exactly the contents from the start position on, and stop at the end. */
  lemma {:induction false} ReadsConcatenate(contents: Bytes, pos: nat, lens: seq<nat>)
    requires pos <= |contents|
    ensures var r := ReadAll(contents, pos, lens); pos <= r.1 <= |contents| && r.0 == contents[pos..r.1]
    decreases |lens|
  {
    hide ReadAt;
    if |lens| > 0 {
      ReadTakes(contents, lens[0], pos);
      var n := |ReadAt(contents, lens[0], pos)|;
      ReadsConcatenate(contents, pos + n, lens[1..]);
      Adjacent(contents, pos, pos + n, ReadAll(contents, pos + n, lens[1..]).1);
    }
  }

  /** Reads of positive lengths reach the end once they ask for enough: a read returns nothing only at the end. */
  lemma {:induction false} ReadsReachTheEnd(contents: Bytes, pos: nat, lens: seq<nat>)
    requires pos <= |contents| && |lens| >= |contents| - pos && forall i | 0 <= i < |lens| :: lens[i] > 0
    ensures ReadAll(contents, pos, lens) == (contents[pos..], |contents|)
    decreases |lens|
  {
    hide ReadAt;
    ReadsConcatenate(contents, pos, lens);
    if |lens| > 0 {
      ReadTakes(contents, lens[0], pos);
      forall i | 0 <= i < |lens[1..]| ensures lens[1..][i] > 0 { assert lens[1..][i] == lens[i + 1]; }
      ReadsReachTheEnd(contents, pos + |ReadAt(contents, lens[0], pos)|, lens[1..]);
    }
    assert contents[pos..|contents|] == contents[pos..];
  }

  /** tar_read and tar_getdents advance the open file's position. */
  method Read(disk: Bytes, file: OpenFile, len: nat, ghost f: File) returns (file': OpenFile, out: Option<Bytes>)
    requires file.Regular? ==> HoldsFile(disk, file.inode, f)
    ensures file.Directory? ==> file' == file && out == Some([])
    ensures file.Regular? ==> (out.Some? <==> file.inode < 0x800_0000)
    ensures file.Regular? && out.Some? ==>
      out.value == ReadAt(f.contents, len, file.pos) && file' == Regular(file.inode, file.pos + |out.value|)
  {
    if !file.Regular? { return file, Some([]); }
    out := TarRead(disk, file.inode, len, file.pos, f);
    if out.None? { return file, None; }
    return file.(pos := file.pos + |out.value|), out;
  }

  /** tar_getdents: the name of entry number pos, and the position after it. */
  method Getdents(disk: Bytes, file: OpenFile, ghost files: seq<File>) returns (file': OpenFile, name: Option<Bytes>)
    requires Holds(disk, 0, files)
    ensures file.Regular? || file.pos >= |files| ==> file' == file && name == None
    ensures file.Directory? && file.pos < |files| ==>
      file' == Directory(file.pos + 1) && name == Some(files[file.pos].name)
  {
    hide HoldsFile, Holds, Next, HeaderAt;
    FirstHeader(files);
    if !file.Directory? { return file, None; }
    var cursor, idx := 0, 0;
    HeaderStep(disk, 0, files, 0);
    HoldsInside(disk, 0, files[0..]);
    while disk[cursor] != 0
      invariant idx <= |files| && idx <= file.pos && cursor == HeaderAt(0, files, idx) && cursor < |disk|
      invariant disk[cursor] == 0 <==> idx == |files|
      decreases |files| - idx
    {
      HeaderStep(disk, 0, files, idx);
      if idx == file.pos {
        var n := CopyName(disk, cursor, files[idx]);
        return Directory(file.pos + 1), Some(n);
      }
      HeaderStep(disk, 0, files, idx + 1);
      cursor := ToNext(disk, cursor, files[idx]);
      idx := idx + 1;
      HoldsInside(disk, cursor, files[idx..]);
    }
    return file, None;
  }

  /** strncpy of the header's name. */
  method CopyName(disk: Bytes, pos: nat, ghost f: File) returns (name: Bytes)
    requires HoldsFile(disk, pos, f)
    ensures name == f.name
  {
    name := [];
    AtName(disk, pos, f, 0);
    while disk[pos + |name|] != 0
      invariant |name| <= |f.name| && name == f.name[..|name|] && pos + |name| < |disk|
      decreases |f.name| - |name|
    {
      AtName(disk, pos, f, |name|);
      AtName(disk, pos, f, |name| + 1);
      name := name + [disk[pos + |name|]];
    }
    AtName(disk, pos, f, |name|);
  }

  /** Repeated getdents on "/" list each entry once, in order. */
  method ListRoot(disk: Bytes, ghost files: seq<File>) returns (names: seq<Bytes>)
    requires Holds(disk, 0, files)
    ensures |names| == |files| && forall i | 0 <= i < |files| :: names[i] == files[i].name
  {
    hide Holds;
    var dir := Directory(0);
    names := [];
    while true
      invariant dir == Directory(|names|) && |names| <= |files|
      invariant forall i | 0 <= i < |names| :: names[i] == files[i].name
      decreases |files| - |names|
    {
      var name;
      dir, name := Getdents(disk, dir, files);
      if name.None? { return; }
      names := names + [name.value];
    }
  }
}
