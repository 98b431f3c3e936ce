/** The argument page of a new task (src/kernel/arg.c). */
module Args {
  import opened Common

  const MAX_ARGS: nat := 32
  const ARG_LEN: nat := 128
  const WORD_SIZE: nat := 8

  /** ROUND_UP_POW2(x, 8). */
  function RoundUp8(x: nat): (r: nat)
    ensures x <= r < x + 8 && r % 8 == 0
  { (x + 7) / 8 * 8 }

  /** The bytes before the first zero. */
  function CString(bytes: seq<nat>): (s: seq<nat>)
    ensures |s| <= |bytes| && s == bytes[..|s|] && 0 !in s
    ensures |s| < |bytes| ==> bytes[|s|] == 0
  {
    if |bytes| == 0 || bytes[0] == 0 then [] else [bytes[0]] + CString(bytes[1..])
  }

  /** The memory behind one argument pointer: the bytes copyin reads, or None if the user may not access them. */
  type Arg = Option<seq<nat>>

  /** A string shorter than 128 bytes in readable memory. */
  predicate GoodArg(a: Arg) { a.Some? ==> |a.value| == ARG_LEN && |CString(a.value)| < ARG_LEN }

  function Text(a: Arg): seq<nat>
    requires a.Some?
  { CString(a.value) }

  /** Where the i-th string is put: after the pointer table and the strings before it, 8-aligned. */
  function Offset(args: seq<Arg>, i: nat): (o: nat)
    requires i <= |args|
    ensures o % WORD_SIZE == 0 && o >= WORD_SIZE * MAX_ARGS
  {
    if i == 0 then WORD_SIZE * MAX_ARGS
    else RoundUp8(Offset(args, i - 1) + (if args[i - 1].Some? then |Text(args[i - 1])| else 0) + 1)
  }

  /** The first string is at 256, behind 32 pointers; each further one at the first multiple of 8 behind the zero that
      ends the one before. */
  lemma OffsetsTight(args: seq<Arg>, i: nat)
    requires i < |args| && args[i].Some?
    ensures Offset(args, 0) == 256
    ensures Offset(args, i + 1) % 8 == 0
    ensures var end := Offset(args, i) + |Text(args[i])| + 1; end <= Offset(args, i + 1) < end + 8
  { hide CString; }

  /** At most 31 arguments, each a string shorter than 128 bytes where readable, whose copies fit the page. */
  predicate Fits(args: seq<Arg>) {
    |args| < MAX_ARGS && forall i | 0 <= i < |args| :: GoodArg(args[i]) && Offset(args, i) + ARG_LEN <= SMALL
  }

  /** The limits in numbers: at most 31 arguments; 128 bytes are copied of each, and hold its end; a page holds the
      copies. */
  lemma FitsMeans(args: seq<Arg>)
    ensures Fits(args) <==>
      && |args| <= 31
      && forall i | 0 <= i < |args| ::
           && (args[i].Some? ==> |args[i].value| == 128 && |CString(args[i].value)| < 128)
           && Offset(args, i) + 128 <= 4096
  { hide CString, Offset; }

  /** The page with bytes copied to offset at. */
  function Copied(page: seq<nat>, at: nat, bytes: seq<nat>): (r: seq<nat>)
    requires at + |bytes| <= |page|
    ensures |r| == |page|
  { page[..at] + bytes + page[at + |bytes|..] }

  // ---- Pointers as bytes --------------------------------------------------------------------------

  /** The little-endian bytes of a word. */
  function Bytes(v: nat, n: nat): (r: seq<nat>)
    ensures |r| == n
  { if n == 0 then [] else [v % 256] + Bytes(v / 256, n - 1) }

  function Value(bytes: seq<nat>): nat { if |bytes| == 0 then 0 else bytes[0] + 256 * Value(bytes[1..]) }

  function Pow256(n: nat): nat { if n == 0 then 1 else 256 * Pow256(n - 1) }

  lemma {:induction false} ValueOfBytes(v: nat, n: nat)
    requires v < Pow256(n)
    ensures Value(Bytes(v, n)) == v
  {
    if n > 0 {
      assert Bytes(v, n)[1..] == Bytes(v / 256, n - 1);
      ValueOfBytes(v / 256, n - 1);
    }
  }

  /** argv_out[i], as the child reads it. */
  function Pointer(page: seq<nat>, i: nat): nat
    requires |page| == SMALL && i < MAX_ARGS
  { Value(page[WORD_SIZE * i..][..WORD_SIZE]) }

  /** The page after v is stored in argv_out[i]. */
  function WithPointer(page: seq<nat>, i: nat, v: nat): (r: seq<nat>)
    requires |page| == SMALL && i < MAX_ARGS
    ensures |r| == SMALL
  { Copied(page, WORD_SIZE * i, Bytes(v, WORD_SIZE)) }

  /** A pointer that is stored is read back, and the other pointers stay. */
  lemma PointerStored(page: seq<nat>, i: nat, v: nat, j: nat)
    requires |page| == SMALL && i < MAX_ARGS && j < MAX_ARGS && v < Pow256(WORD_SIZE)
    ensures Pointer(WithPointer(page, i, v), j) == if i == j then v else Pointer(page, j)
  {
    var page' := WithPointer(page, i, v);
    if i == j {
      assert page'[WORD_SIZE * i..][..WORD_SIZE] == Bytes(v, WORD_SIZE);
      ValueOfBytes(v, WORD_SIZE);
    } else {
      assert page'[WORD_SIZE * j..][..WORD_SIZE] == page[WORD_SIZE * j..][..WORD_SIZE];
    }
  }

  lemma BehindTable(page: seq<nat>, i: nat, v: nat)
    requires |page| == SMALL && i < MAX_ARGS
    ensures forall k | WORD_SIZE * MAX_ARGS <= k < SMALL :: WithPointer(page, i, v)[k] == page[k]
  { hide Bytes; }

  /** Copying behind the table changes no pointer. */
  lemma PointersKept(page: seq<nat>, at: nat, bytes: seq<nat>, j: nat)
    requires |page| == SMALL && WORD_SIZE * MAX_ARGS <= at && at + |bytes| <= SMALL && j < MAX_ARGS
    ensures Pointer(Copied(page, at, bytes), j) == Pointer(page, j)
  {
    assert Copied(page, at, bytes)[WORD_SIZE * j..][..WORD_SIZE] == page[WORD_SIZE * j..][..WORD_SIZE];
  }

  /** Pointers are stored lowest byte first. */
  lemma PointerBytes(o: nat)
    requires o < 256
    ensures Bytes(0x7000_0100 + o, 8) == [o, 0x01, 0x00, 0x70, 0, 0, 0, 0]
  {
    hide Bytes;
    NextByte(o, 0x70_0001, 7);
    NextByte(0x01, 0x7000, 6);
    NextByte(0x00, 0x70, 5);
    NextByte(0x70, 0, 4);
    NextByte(0, 0, 3); NextByte(0, 0, 2); NextByte(0, 0, 1); NextByte(0, 0, 0);
    assert Bytes(0, 0) == [];
  }

  lemma NextByte(low: nat, high: nat, n: nat)
    requires low < 256
    ensures Bytes(256 * high + low, n + 1) == [low] + Bytes(high, n)
  {
    hide Bytes;
    SplitWord(low, high);
    UnfoldBytes(256 * high + low, n);
  }

  lemma SplitWord(low: nat, high: nat)
    requires low < 256
    ensures (256 * high + low) % 256 == low && (256 * high + low) / 256 == high
  {}

  lemma UnfoldBytes(v: nat, n: nat)
    ensures Bytes(v, n + 1) == [v % 256] + Bytes(v / 256, n)
  {}

  // ---- Strings ---------------------------------------------------------------------------------------

  /** The string the child finds behind a pointer into its argument page. */
  function StringAt(page: seq<nat>, ptr: nat): seq<nat>
    requires DEFAULT_ARG_LOCATION <= ptr <= DEFAULT_ARG_LOCATION + |page|
  { CString(page[ptr - DEFAULT_ARG_LOCATION..]) }

  /** argv_out[i] is an 8-aligned pointer into the page, and behind it is argument i, ended within the page. */
  ghost predicate ReadableAt(page: seq<nat>, args: seq<Arg>, i: nat)
    requires i < |args| && |page| == SMALL
  {
    && args[i].Some? && i < MAX_ARGS
    && var ptr := Pointer(page, i);
    && ptr == DEFAULT_ARG_LOCATION + Offset(args, i) && ptr % WORD_SIZE == 0
    && ptr + |Text(args[i])| < DEFAULT_ARG_LOCATION + SMALL
    && StringAt(page, ptr) == Text(args[i])
  }

  /** The first n arguments can be read back through their pointers, and the other pointers are NULL. */
  ghost predicate Readable(page: seq<nat>, args: seq<Arg>, n: nat) {
    && |page| == SMALL && n <= |args|
    && (forall i | 0 <= i < n :: ReadableAt(page, args, i))
    && forall i | n <= i < MAX_ARGS :: Pointer(page, i) == 0
  }

  /** A C string is decided by its bytes and the zero that ends it. */
  lemma {:induction false} SameCString(a: seq<nat>, b: seq<nat>)
    requires |CString(a)| < |a| && |CString(a)| < |b| && forall i | 0 <= i <= |CString(a)| :: b[i] == a[i]
    ensures CString(b) == CString(a)
  {
    if a[0] != 0 {
      assert CString(a) == [a[0]] + CString(a[1..]);
      forall i | 0 <= i <= |CString(a[1..])| ensures b[1..][i] == a[1..][i] { assert b[i + 1] == a[i + 1]; }
      SameCString(a[1..], b[1..]);
    } else {
      assert b[0] == a[0];
    }
  }

  lemma {:induction false} OffsetsGrow(args: seq<Arg>, i: nat, j: nat)
    requires i < j <= |args| && args[i].Some?
    ensures Offset(args, i) + |Text(args[i])| < Offset(args, j)
    decreases j
  {
    if i + 1 < j {
      OffsetsGrow(args, i, j - 1);
      assert Offset(args, j - 1) < Offset(args, j);
    }
  }

  /** What one turn of the loop makes of the page. */
  function Turn(page: seq<nat>, args: seq<Arg>, n: nat): (r: seq<nat>)
    requires |page| == SMALL && Fits(args) && n < |args| && args[n].Some?
    ensures |r| == SMALL
  {
    assert GoodArg(args[n]);
    WithPointer(Copied(page, Offset(args, n), args[n].value), n, DEFAULT_ARG_LOCATION + Offset(args, n))
  }

  /** Where the turn's two writes leave the page alone, and what the copy puts there. */
  lemma TurnBytes(page: seq<nat>, args: seq<Arg>, n: nat, k: nat)
    requires |page| == SMALL && Fits(args) && n < |args| && args[n].Some? && WORD_SIZE * MAX_ARGS <= k < SMALL
    ensures !(Offset(args, n) <= k < Offset(args, n) + ARG_LEN) ==> Turn(page, args, n)[k] == page[k]
    ensures Offset(args, n) <= k < Offset(args, n) + ARG_LEN ==>
      k - Offset(args, n) < |args[n].value| && Turn(page, args, n)[k] == args[n].value[k - Offset(args, n)]
  {
    hide CString, Offset, Bytes;
    assert GoodArg(args[n]);
  }

  lemma TurnPointers(page: seq<nat>, args: seq<Arg>, n: nat, j: nat)
    requires |page| == SMALL && Fits(args) && n < |args| && args[n].Some? && j < MAX_ARGS
    ensures Pointer(Turn(page, args, n), j)
         == if j == n then DEFAULT_ARG_LOCATION + Offset(args, n) else Pointer(page, j)
  {
    hide CString, Offset, Bytes, Copied, Pointer;
    assert GoodArg(args[n]);
    assert Pow256(WORD_SIZE) == 256 * 256 * 256 * 256 * Pow256(4) && Pow256(4) > 0;
    PointersKept(page, Offset(args, n), args[n].value, j);
    PointerStored(Copied(page, Offset(args, n), args[n].value), n, DEFAULT_ARG_LOCATION + Offset(args, n), j);
  }

  /** A later copy, although it is of fixed length, leaves the earlier strings alone. */
  lemma EarlierKept(page: seq<nat>, args: seq<Arg>, n: nat, i: nat)
    requires Fits(args) && i < n < |args| && args[n].Some? && Readable(page, args, n)
    ensures ReadableAt(Turn(page, args, n), args, i)
  {
    hide CString, Offset, Pointer, Turn, Fits;
    var page' := Turn(page, args, n);
    assert ReadableAt(page, args, i);
    TurnPointers(page, args, n, i);
    OffsetsGrow(args, i, n);
    var o := Offset(args, i);
    forall k | 0 <= k <= |Text(args[i])| ensures page'[o..][k] == page[o..][k] { TurnBytes(page, args, n, o + k); }
    SameCString(page[o..], page'[o..]);
  }

  lemma NewReadable(page: seq<nat>, args: seq<Arg>, n: nat)
    requires Fits(args) && n < |args| && args[n].Some? && |page| == SMALL
    ensures ReadableAt(Turn(page, args, n), args, n)
  {
    hide CString, Offset, Pointer, Turn;
    var page' := Turn(page, args, n);
    var at := Offset(args, n);
    assert GoodArg(args[n]) && at + ARG_LEN <= SMALL;
    TurnPointers(page, args, n, n);
    forall k | 0 <= k < ARG_LEN ensures page'[at..][k] == args[n].value[k] { TurnBytes(page, args, n, at + k); }
    SameCString(args[n].value, page'[at..]);
  }

  lemma TurnReadable(page: seq<nat>, args: seq<Arg>, n: nat)
    requires Fits(args) && n < |args| && args[n].Some? && Readable(page, args, n)
    ensures Readable(Turn(page, args, n), args, n + 1)
  {
    hide ReadableAt, Turn, Pointer, Fits;
    forall i | 0 <= i <= n ensures ReadableAt(Turn(page, args, n), args, i) {
      if i < n { EarlierKept(page, args, n, i); } else { NewReadable(page, args, n); }
    }
    forall i | n < i < MAX_ARGS ensures Pointer(Turn(page, args, n), i) == 0 { TurnPointers(page, args, n, i); }
  }

  /** Byte k of the page lies in one of the first n fixed-length copies. */
  predicate InCopies(args: seq<Arg>, n: nat, k: nat) {
    exists i | 0 <= i < n <= |args| :: Offset(args, i) <= k < Offset(args, i) + ARG_LEN
  }

  /** Behind the pointer table, the bytes outside the first n copies are old. */
  ghost predicate OldBytes(before: seq<nat>, page: seq<nat>, args: seq<Arg>, n: nat) {
    |before| == |page| && n <= |args|
    && forall k | WORD_SIZE * MAX_ARGS <= k < |page| && !InCopies(args, n, k) :: page[k] == before[k]
  }

  lemma OldBytesTurn(before: seq<nat>, page: seq<nat>, args: seq<Arg>, n: nat)
    requires Fits(args) && n < |args| && args[n].Some? && |page| == SMALL && OldBytes(before, page, args, n)
    ensures OldBytes(before, Turn(page, args, n), args, n + 1)
  {
    hide Turn, Offset, Fits;
    forall k | WORD_SIZE * MAX_ARGS <= k < SMALL && !InCopies(args, n + 1, k)
      ensures Turn(page, args, n)[k] == before[k]
    {
      forall i | 0 <= i < n ensures !(Offset(args, i) <= k < Offset(args, i) + ARG_LEN) {
        assert 0 <= i < n + 1 <= |args|;
      }
      assert !InCopies(args, n, k);
      TurnBytes(page, args, n, k);
    }
  }

  // ---- copyin_args ------------------------------------------------------------------------------------

  lemma CopiedAt(page: seq<nat>, at: nat, bytes: seq<nat>)
    requires at + |bytes| <= |page|
    ensures forall j | 0 <= j < |page| ::
      Copied(page, at, bytes)[j] == if at <= j < at + |bytes| then bytes[j - at] else page[j]
  {}

  /** memcpy into the page. */
  method CopyTo(page: array<nat>, at: nat, bytes: seq<nat>)
    requires at + |bytes| <= page.Length
    modifies page
    ensures page[..] == Copied(old(page[..]), at, bytes)
  {
    for k := 0 to |bytes|
      invariant forall j | 0 <= j < page.Length :: page[j] == if at <= j < at + k then bytes[j - at] else old(page[j])
    {
      page[at + k] := bytes[k];
    }
    CopiedAt(old(page[..]), at, bytes);
    assert forall j | 0 <= j < page.Length :: page[..][j] == page[j] && old(page[..])[j] == old(page[j]);
  }

  /** Stores argv_out[i]. */
  method StorePointer(page: array<nat>, i: nat, v: nat)
    requires page.Length == SMALL && i < MAX_ARGS
    modifies page
    ensures page[..] == WithPointer(old(page[..]), i, v)
  {
    CopyTo(page, WORD_SIZE * i, Bytes(v, WORD_SIZE));
  }

  /** Clears the pointer table. */
  method ClearPointers(page: array<nat>)
    requires page.Length == SMALL
    modifies page
    ensures forall i | 0 <= i < MAX_ARGS :: Pointer(page[..], i) == 0
    ensures forall k | WORD_SIZE * MAX_ARGS <= k < SMALL :: page[k] == old(page[k])
  {
    hide WithPointer, Pointer;
    for n := 0 to MAX_ARGS
      invariant forall i | 0 <= i < n :: Pointer(page[..], i) == 0
      invariant forall k | WORD_SIZE * MAX_ARGS <= k < SMALL :: page[k] == old(page[k])
    {
      ghost var was := page[..];
      StorePointer(page, n, 0);
      BehindTable(was, n, 0);
      assert forall k | 0 <= k < SMALL :: page[..][k] == page[k] && was[k] == was[..][k];
      forall i | 0 <= i <= n ensures Pointer(page[..], i) == 0 { PointerStored(was, n, 0, i); }
    }
  }

  /** copyin_args on the argument page, whatever it held before: argc, or None where a copy fails. What the child can
      read of the page's old bytes is exactly what lies behind the pointer table and outside the copies. */
  method CopyinArgs(page: array<nat>, args: seq<Arg>) returns (r: Option<nat>)
    requires page.Length == SMALL && Fits(args)
    modifies page
    ensures r.None? <==> exists i | 0 <= i < |args| :: args[i].None?
    ensures r.Some? ==> r.value == |args| && Readable(page[..], args, |args|)
    ensures r.Some? ==> OldBytes(old(page[..]), page[..], args, |args|)
  {
    hide CString, Offset, Pointer, ReadableAt, Copied, Bytes, InCopies;
    ClearPointers(page);
    var cursor := WORD_SIZE * MAX_ARGS;
    var argc := 0;
    assert OldBytes(old(page[..]), page[..], args, 0) by {
      assert forall k | 0 <= k < SMALL :: page[..][k] == page[k] && old(page[..])[k] == old(page[k]);
    }
    FirstOffset(args);
    while argc < |args|
      invariant argc <= |args| && cursor == Offset(args, argc) && Readable(page[..], args, argc)
      invariant OldBytes(old(page[..]), page[..], args, argc)
      invariant forall i | 0 <= i < argc :: args[i].Some?
    {
      if args[argc].None? { return None; }
      var bytes := args[argc].value;
      assert GoodArg(args[argc]);
      TurnReadable(page[..], args, argc);
      OldBytesTurn(old(page[..]), page[..], args, argc);
      CopyTo(page, cursor, bytes);
      StorePointer(page, argc, DEFAULT_ARG_LOCATION + cursor);
      NextOffset(args, argc);
      cursor := RoundUp8(cursor + |CString(bytes)| + 1);
      argc := argc + 1;
    }
    return Some(argc);
  }

  lemma FirstOffset(args: seq<Arg>)
    ensures Offset(args, 0) == WORD_SIZE * MAX_ARGS
  {}

  lemma NextOffset(args: seq<Arg>, i: nat)
    requires i < |args| && args[i].Some?
    ensures Offset(args, i + 1) == RoundUp8(Offset(args, i) + |Text(args[i])| + 1)
  {}
}
