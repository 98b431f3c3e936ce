/** The circular doubly linked list (inc/list.h). */
module RingList {

  /** struct listlink. Its owner is the number of the structure that it is part of, which container_of finds. */
  class Link {
    const owner: nat
    var next: Link?
    var prev: Link?
    constructor (owner: nat)
      ensures this.owner == owner && next == null && prev == null
    {
      this.owner := owner;
      next, prev := null, null;
    }
  }

  /** s is a ring: its links, each once, in the order of next, closed at both ends. The first is the list head. */
  ghost predicate Ring(s: seq<Link>)
    reads s
  {
    && |s| > 0
    && (forall i, j | 0 <= i < j < |s| :: s[i] != s[j])
    && (forall i | 0 <= i < |s| - 1 :: s[i].next == s[i + 1])
    && (forall i | 0 < i < |s| :: s[i].prev == s[i - 1])
    && s[|s| - 1].next == s[0] && s[0].prev == s[|s| - 1]
  }

  /** list_init. */
  method Init(l: Link)
    modifies l
    ensures Ring([l])
  {
    l.next := l;
    l.prev := l;
  }

  /** list_add: the new element comes right after the head. */
  method Add(e: Link, head: Link, ghost s: seq<Link>)
    requires Ring(s) && s[0] == head && e !in s
    modifies s, e
    ensures Ring([head, e] + s[1..])
  {
    assert head.next == if |s| > 1 then s[1] else head;
    head.next.prev := e;
    e.next := head.next;
    e.prev := head;
    head.next := e;
    ghost var r := [head, e] + s[1..];
    assert forall i | 2 <= i < |r| :: r[i] == s[i - 1];
  }

  /** list_del: the element leaves the ring; its own pointers are cleared. */
  method Del(e: Link, ghost s: seq<Link>, ghost i: nat)
    requires Ring(s) && 0 < i < |s| && s[i] == e
    modifies s
    ensures Ring(s[..i] + s[i + 1..]) && e.next == null && e.prev == null
  {
    assert e.prev == s[i - 1] && e.next == if i + 1 < |s| then s[i + 1] else s[0];
    e.next.prev := e.prev;
    e.prev.next := e.next;
    e.next := null;
    e.prev := null;
    ghost var r := s[..i] + s[i + 1..];
    assert forall j | 0 <= j < |r| :: r[j] == if j < i then s[j] else s[j + 1];
  }

  /** list_for_each: visits every element once, in order, and stops. */
  method ForEach(head: Link, ghost s: seq<Link>) returns (visited: seq<Link>)
    requires Ring(s) && s[0] == head
    ensures visited == s[1..]
  {
    visited := [];
    var pos := head.next;
    while pos != head
      invariant |visited| < |s| && visited == s[1..|visited| + 1]
      invariant pos == if |visited| + 1 < |s| then s[|visited| + 1] else head
      decreases |s| - |visited|
    {
      visited := visited + [pos];
      pos := pos.next;
    }
  }

  /** The elements not in gone. */
  ghost function Rest(s: seq<Link>, gone: set<Link>): seq<Link> {
    if |s| == 0 then [] else Rest(s[..|s| - 1], gone) + (if s[|s| - 1] in gone then [] else [s[|s| - 1]])
  }

  /** list_for_each_safe with list_del in the body: removes exactly the elements of gone, and keeps the order of the
      others. */
  method RemoveAll(head: Link, gone: set<Link>, ghost s: seq<Link>)
    requires Ring(s) && s[0] == head && head !in gone
    modifies s
    ensures Ring([head] + Rest(s[1..], gone))
  {
    hide Ring, Rest, Walked;
    HeadOnce(s);
    NextInRing(s, 0);
    var pos := head.next;
    ghost var n := 1;
    ghost var r := s;
    WalkStart(s, gone);
    while pos != head
      invariant 1 <= n <= |s| && Walked(s, gone, n, r) && Ring(r)
      invariant pos == if n < |s| then s[n] else head
      decreases |s| - n
    {
      ghost var i := |r| - (|s| - n);
      WalkFacts(s, gone, n, r);
      NextInRing(r, i);
      var tmp := pos.next;
      if pos in gone {
        Del(pos, r, i);
        r := r[..i] + r[i + 1..];
      }
      n := n + 1;
      pos := tmp;
    }
    WalkDone(s, gone, n, r);
  }

  /** The first n links of s are walked, and r is what is left of the ring. */
  ghost predicate Walked(s: seq<Link>, gone: set<Link>, n: nat, r: seq<Link>) {
    1 <= n <= |s| && r == [s[0]] + Rest(s[1..n], gone) + s[n..] && forall x | x in r :: x in s
  }

  lemma WalkStart(s: seq<Link>, gone: set<Link>)
    requires |s| > 0
    ensures Walked(s, gone, 1, s)
  { assert s == [s[0]] + Rest([], gone) + s[1..] && s[1..1] == []; }

  lemma WalkFacts(s: seq<Link>, gone: set<Link>, n: nat, r: seq<Link>)
    requires Walked(s, gone, n, r) && n < |s|
    ensures var i := |r| - (|s| - n);
      && 0 < i < |r| && r[i] == s[n] && r[0] == s[0]
      && (if n + 1 < |s| then i + 1 < |r| && r[i + 1] == s[n + 1] else i + 1 == |r|)
      && (forall j | 0 <= j < |r| :: r[j] in s)
      && Walked(s, gone, n + 1, if s[n] in gone then r[..i] + r[i + 1..] else r)
  {
    var kept := Rest(s[1..n], gone);
    var i := 1 + |kept|;
    assert s[1..n + 1][..n - 1] == s[1..n] && s[1..n + 1][n - 1] == s[n];
    assert s[n..] == [s[n]] + s[n + 1..];
    var r' := if s[n] in gone then r[..i] + r[i + 1..] else r;
    assert r' == [s[0]] + Rest(s[1..n + 1], gone) + s[n + 1..];
    forall x | x in r' ensures x in s { assert x in r; }
  }

  lemma WalkDone(s: seq<Link>, gone: set<Link>, n: nat, r: seq<Link>)
    requires Walked(s, gone, n, r) && n == |s|
    ensures r == [s[0]] + Rest(s[1..], gone)
  { assert s[1..n] == s[1..]; }

  lemma HeadOnce(s: seq<Link>)
    requires Ring(s)
    ensures |s| > 0 && forall i | 0 < i < |s| :: s[i] != s[0]
  {}

  lemma NextInRing(r: seq<Link>, i: nat)
    requires Ring(r) && i < |r|
    ensures |r| > 0
    ensures r[i].next == if i + 1 < |r| then r[i + 1] else r[0]
  {}
}
