/** User-memory access checks (src/kernel/copyio.c). */
module CopyIo {
  import opened Common
  import opened Addr
  import opened Pte
  import opened PageTable
  import opened Vm
  import opened Windows
  import opened TaskMemory

  /** What access_ok checks of byte va: it is mapped, and below 2^48 for a user task. */
  ghost predicate ByteOk(ops: PteOps, mem: Mem, root: nat, mode: Mode, va: nat) {
    (mode == User ==> IsUserVa(va)) && Lookup(ops, mem, root, Split(va)).Mapped?
  }

  ghost predicate BytesOk(ops: PteOps, mem: Mem, root: nat, mode: Mode, start: nat, end: nat) {
    forall b | start <= b < end :: ByteOk(ops, mem, root, mode, b)
  }

  /** A page found usable at one address is usable to its end. */
  lemma PageOk(ops: PteOps, mem: Mem, T: Tables, root: nat, mode: Mode, va: nat)
    requires TreeInv(ops, mem, T) && IsRoot(T, root) && ByteOk(ops, mem, root, mode, va)
    ensures var l := Lookup(ops, mem, root, Split(va)).level;
      l <= TOP && BytesOk(ops, mem, root, mode, va, PageEnd(va, l))
  {
    hide TreeInv, Lookup, Split;
    var v := Split(va);
    var l := Lookup(ops, mem, root, v).level;
    LookupInPage(ops, mem, T, root, v, v);
    forall b | va <= b < PageEnd(va, l) ensures ByteOk(ops, mem, root, mode, b) {
      RestOfPage(va, b, l);
      SameBlockIsSamePrefix(va, b, l);
      LookupInPage(ops, mem, T, root, v, Split(b));
    }
  }

  /** The ranges access_ok accepts: those whose bytes are all mapped and in bounds, and those that wrap around 64
      bits. */
  ghost predicate Accepts(ops: PteOps, mem: Mem, root: nat, mode: Mode, va: nat, len: nat) {
    va + len >= WORD || BytesOk(ops, mem, root, mode, va, va + len)
  }

  /** One turn of access_ok's loop: whether the page of the cursor passes, and the cursor for the next page. */
  method CheckPage(vm: AddressSpaces, root: nat, mode: Mode, cursor: nat) returns (ok: bool, next: nat)
    requires vm.Valid() && IsRoot(vm.tables, root) && cursor < WORD
    requires mode == Kern ==> Lookup(vm.ops, vm.mem, root, Split((WORD - 1) as nat)).Unmapped?
    ensures ok <==> ByteOk(vm.ops, vm.mem, root, mode, cursor)
    ensures ok ==> cursor < next < WORD && BytesOk(vm.ops, vm.mem, root, mode, cursor, next)
  {
    hide TreeInv, AllWritten, Lookup, Split, Lawful, Size, BytesOk, ByteOk, PageEnd;
    next := cursor;
    var pgsize := vm.GetPageSize(root, cursor);
    ByteOkIs(vm.ops, vm.mem, root, mode, cursor);
    if mode == User && !IsUserVa(cursor) { return false, cursor; }
    var mapped := vm.IsPageMapped(root, cursor);
    if !mapped { return false, cursor; }
    PageOk(vm.ops, vm.mem, vm.tables, root, mode, cursor);
    PageEndFits(vm.ops, vm.mem, root, mode, cursor);
    NextCursor(cursor, Lookup(vm.ops, vm.mem, root, Split(cursor)).level);
    next := (cursor + (pgsize - cursor % pgsize)) % WORD;
    ok := true;
  }

  /** access_ok, strode page by page. The sum va + len is a u64 sum, as is the cursor. Kernel-mode callers are checked
      in tables that leave the last page of the 64-bit space unmapped, as every task's does (LastPageFree). */
  method AccessOk(vm: AddressSpaces, root: nat, mode: Mode, va: nat, len: nat) returns (ok: bool)
    requires vm.Valid() && IsRoot(vm.tables, root) && va < WORD && len < WORD
    requires mode == Kern ==> Lookup(vm.ops, vm.mem, root, Split((WORD - 1) as nat)).Unmapped?
    ensures ok <==> Accepts(vm.ops, vm.mem, root, mode, va, len)
  {
    hide TreeInv, AllWritten, Lookup, Split, Lawful, BytesOk, ByteOk;
    EmptyRange(vm.ops, vm.mem, root, mode, va);
    var end := (va + len) % WORD;
    var cursor := va;
    while cursor < end
      invariant va <= cursor < WORD
      invariant BytesOk(vm.ops, vm.mem, root, mode, va, cursor)
      decreases end - cursor
    {
      var next;
      ok, next := CheckPage(vm, root, mode, cursor);
      if !ok {
        BadByte(vm.ops, vm.mem, root, mode, va, cursor, va + len);
        return false;
      }
      JoinRanges(vm.ops, vm.mem, root, mode, va, cursor, next);
      cursor := next;
    }
    if va + len < WORD { PartOfRange(vm.ops, vm.mem, root, mode, va, va + len, cursor); }
    return true;
  }

  lemma ByteOkIs(ops: PteOps, mem: Mem, root: nat, mode: Mode, va: nat)
    ensures ByteOk(ops, mem, root, mode, va) <==>
      (mode == User ==> IsUserVa(va)) && Lookup(ops, mem, root, Split(va)).Mapped?
  {}

  /** The step of the cursor leads to the end of its page. */
  lemma NextCursor(va: nat, level: nat)
    requires level <= TOP && PageEnd(va, level) < WORD
    ensures Size(level) > 0 && va < PageEnd(va, level)
    ensures (va + (Size(level) - va % Size(level))) % WORD == PageEnd(va, level)
  {}

  lemma EmptyRange(ops: PteOps, mem: Mem, root: nat, mode: Mode, va: nat)
    ensures BytesOk(ops, mem, root, mode, va, va)
  {}

  lemma BadByte(ops: PteOps, mem: Mem, root: nat, mode: Mode, start: nat, va: nat, end: nat)
    requires start <= va < end && !ByteOk(ops, mem, root, mode, va)
    ensures !BytesOk(ops, mem, root, mode, start, end)
  {}

  lemma JoinRanges(ops: PteOps, mem: Mem, root: nat, mode: Mode, a: nat, b: nat, c: nat)
    requires BytesOk(ops, mem, root, mode, a, b) && BytesOk(ops, mem, root, mode, b, c)
    ensures BytesOk(ops, mem, root, mode, a, c)
  { hide ByteOk; }

  lemma PartOfRange(ops: PteOps, mem: Mem, root: nat, mode: Mode, start: nat, end: nat, end': nat)
    requires BytesOk(ops, mem, root, mode, start, end') && end <= end'
    ensures BytesOk(ops, mem, root, mode, start, end)
  { hide ByteOk; }

  /** The end of a usable page is a 64-bit address. */
  lemma PageEndFits(ops: PteOps, mem: Mem, root: nat, mode: Mode, va: nat)
    requires va < WORD && ByteOk(ops, mem, root, mode, va)
    requires var l := Lookup(ops, mem, root, Split(va)).level;
      l <= TOP && BytesOk(ops, mem, root, mode, va, PageEnd(va, l))
    requires mode == Kern ==> Lookup(ops, mem, root, Split((WORD - 1) as nat)).Unmapped?
    ensures PageEnd(va, Lookup(ops, mem, root, Split(va)).level) < WORD
  {
    hide Lookup, Split;
    var end := PageEnd(va, Lookup(ops, mem, root, Split(va)).level);
    var last: nat := WORD - 1;
    assert va <= last < end ==> ByteOk(ops, mem, root, mode, last);
  }

  // ---- What acceptance means for a task ------------------------------------------------------------

  /** Every task's table leaves the last page of the 64-bit space unmapped. */
  lemma LastPageFree(ops: PteOps, mem: Mem, T: Tables, tasks: Tasks, id: nat)
    requires TasksOk(ops, mem, T, tasks) && id in tasks
    ensures Lookup(ops, mem, tasks[id].root, Split((WORD - 1) as nat)).Unmapped?
  {
    hide Lookup;
    TaskFacts(ops, mem, T, tasks, id);
    assert Split((WORD - 1) as nat) == Vpn(511, 511, 511, 511);
  }

  /** A wrapping range is accepted although its bytes are not in bounds: the last byte of the address space, for a
      user. */
  lemma WrapAccepted(ops: PteOps, mem: Mem, root: nat)
    ensures Accepts(ops, mem, root, User, WORD - 1, 1) && !ByteOk(ops, mem, root, User, WORD - 1)
  {
    hide Lookup;
  }

  /** For a user task the answer is wrong exactly for the ranges that wrap. */
  lemma WrongExactlyIfWrapped(ops: PteOps, mem: Mem, root: nat, va: nat, len: nat)
    requires va < WORD && len < WORD
    ensures !(Accepts(ops, mem, root, User, va, len) <==> BytesOk(ops, mem, root, User, va, va + len)) <==>
      va + len >= WORD
  {
    hide Lookup;
    if va + len >= WORD { assert !ByteOk(ops, mem, root, User, va + len - 1); }
  }

  /** The addresses below 2^48 that share their indices with window k, since the indices ignore bits 48 to 63. */
  function AliasBase(k: nat): nat { TopIndex(k) * SUPER }

  predicate InAlias(va: nat) {
    || AliasBase(0) <= va < AliasBase(0) + SUPER
    || AliasBase(1) <= va < AliasBase(1) + SUPER
    || AliasBase(2) <= va < AliasBase(2) + SUPER
  }

  /** The range misses the three aliases. */
  predicate MissesAliases(start: nat, end: nat) {
    forall k | 0 <= k < 3 :: end <= AliasBase(k) || AliasBase(k) + SUPER <= start
  }

  lemma AliasIsWindow(va: nat)
    requires va < VA_SPACE
    ensures InAlias(va) <==> InSomeWindow(Split(va))
  { assert va / SUPER < ENTRIES; }

  /** The byte is in a user page. */
  ghost predicate UserByte(ops: PteOps, mem: Mem, root: nat, va: nat) {
    var m := Lookup(ops, mem, root, Split(va)); m.Mapped? && m.priv == User
  }

  /** The aliases in numbers. */
  lemma AliasAddresses(va: nat)
    ensures InAlias(va) <==>
      || 0xFF00_0000_0000 <= va < 0xFF80_0000_0000
      || 0xDD00_0000_0000 <= va < 0xDD80_0000_0000
      || 0xCC00_0000_0000 <= va < 0xCC80_0000_0000
  {}

  /** From 2^48 on nothing passes for a user task; below, whatever is mapped. */
  lemma UserBound(ops: PteOps, mem: Mem, root: nat, va: nat)
    ensures ByteOk(ops, mem, root, User, va) <==>
      va < 0x1_0000_0000_0000 && Lookup(ops, mem, root, Split(va)).Mapped?
  { hide Lookup, Split; }

  /** For a user task, access_ok lets exactly two kinds of bytes through: those of its own user pages, and the low
      aliases of the kernel's windows. */
  lemma WhatUsersPass(ops: PteOps, mem: Mem, T: Tables, tasks: Tasks, id: nat, va: nat)
    requires TasksOk(ops, mem, T, tasks) && id in tasks && va < VA_SPACE
    ensures ByteOk(ops, mem, tasks[id].root, User, va) <==> UserByte(ops, mem, tasks[id].root, va) || InAlias(va)
    ensures UserByte(ops, mem, tasks[id].root, va) ==> !InAlias(va)
  {
    hide Lookup, Split, InAlias, InSomeWindow, AliasBase;
    TaskFacts(ops, mem, T, tasks, id);
    AliasIsWindow(va);
  }

  /** An accepted range of a user task that does not wrap lies in user pages if and only if it misses the aliases. */
  lemma AcceptedIsUserMemory(ops: PteOps, mem: Mem, T: Tables, tasks: Tasks, id: nat, va: nat, len: nat)
    requires TasksOk(ops, mem, T, tasks) && id in tasks && len > 0 && va + len < WORD
    requires Accepts(ops, mem, tasks[id].root, User, va, len)
    ensures (forall b | va <= b < va + len :: UserByte(ops, mem, tasks[id].root, b)) <==> MissesAliases(va, va + len)
    ensures va + len <= VA_SPACE / 2 ==> MissesAliases(va, va + len)
  {
    hide TasksOk, UserByte;
    var root := tasks[id].root;
    forall b | va <= b < va + len ensures b < VA_SPACE && (UserByte(ops, mem, root, b) <==> !InAlias(b)) {
      assert ByteOk(ops, mem, root, User, b);
      WhatUsersPass(ops, mem, T, tasks, id, b);
    }
    if !MissesAliases(va, va + len) {
      var k :| 0 <= k < 3 && va + len > AliasBase(k) && AliasBase(k) + SUPER > va;
      var b := if va <= AliasBase(k) then AliasBase(k) else va;
      assert InAlias(b);
    }
  }

  /** At this address access_ok lets a user task name kernel memory; the processor faults on it, as it is not
      canonical. */
  lemma AliasAccepted(ops: PteOps, mem: Mem, T: Tables, tasks: Tasks, id: nat)
    requires TasksOk(ops, mem, T, tasks) && id in tasks
    ensures Accepts(ops, mem, tasks[id].root, User, 0xFF00_0000_0000, 1)
    ensures var m := Lookup(ops, mem, tasks[id].root, Split(0xFF00_0000_0000)); m.Mapped? && m.priv == Kern
  {
    hide Lookup;
    var va: nat := 0xFF00_0000_0000;
    TaskFacts(ops, mem, T, tasks, id);
    assert Split(va) == Vpn(510, 0, 0, 0);
    assert ByteOk(ops, mem, tasks[id].root, User, va);
  }
}
