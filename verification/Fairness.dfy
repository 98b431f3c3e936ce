/** find_runnable_thread as cyclic search, and freedom from starvation (src/kernel/scheduler.c:63-107). */
module Fairness {
  import opened Common
  import opened Sched
  import opened Runs

  // ---- Cyclic order ---------------------------------------------------------------------------

  /** The first runnable thread of a list. */
  function FirstRunnable(k: Kernel, ts: seq<Tid>): Option<Tid> {
    if |ts| == 0 then None else if Runnable(k, ts[0]) then Some(ts[0]) else FirstRunnable(k, ts[1..])
  }

  lemma {:induction false} FirstOfConcat(k: Kernel, a: seq<Tid>, b: seq<Tid>)
    ensures FirstRunnable(k, a + b) == if FirstRunnable(k, a).Some? then FirstRunnable(k, a) else FirstRunnable(k, b)
  {
    if |a| == 0 { assert a + b == b; } else {
      assert (a + b)[1..] == a[1..] + b;
      FirstOfConcat(k, a[1..], b);
    }
  }

  lemma {:induction false} FirstFromIsFirst(k: Kernel, i: nat)
    requires i <= |k.ring|
    ensures FirstRunnable(k, k.ring[i..]) == if FirstFrom(k, i) < |k.ring| then Some(k.ring[FirstFrom(k, i)]) else None
    decreases |k.ring| - i
  {
    if i < |k.ring| {
      assert k.ring[i..][1..] == k.ring[i + 1..];
      if !Runnable(k, k.ring[i]) { FirstFromIsFirst(k, i + 1); }
    }
  }

  /** The two-pass search picks the first runnable thread in cyclic order after the current one (which comes last),
      and the idle thread if there is none. */
  lemma PickIsCyclic(k: Kernel)
    requires k.cur in k.ring
    ensures var p := Pos(k.ring, k.cur);
      var first := FirstRunnable(k, k.ring[p + 1..] + k.ring[..p + 1]);
      Pick(k) == if first.Some? then first.value else k.idle
  {
    hide FirstRunnable, FirstFrom, Pos, Runnable, Pick;
    var p := Pos(k.ring, k.cur);
    var a, b := k.ring[..p + 1], k.ring[p + 1..];
    assert a + b == k.ring && k.ring[0..] == k.ring;
    FirstFromIsFirst(k, p + 1);
    FirstFromIsFirst(k, 0);
    FirstOfConcat(k, b, a);
    FirstOfConcat(k, a, b);
    var i, j := FirstFrom(k, p + 1), FirstFrom(k, 0);
    assert FirstRunnable(k, b + a) ==
      if i < |k.ring| then Some(k.ring[i]) else if j < |k.ring| then Some(k.ring[j]) else None;
    PickByCases(k);
  }

  lemma PickByCases(k: Kernel)
    requires k.cur in k.ring
    ensures var i, j := FirstFrom(k, Pos(k.ring, k.cur) + 1), FirstFrom(k, 0);
      Pick(k) == if i < |k.ring| then k.ring[i] else if j < |k.ring| then k.ring[j] else k.idle
  { hide FirstFrom, Pos; }

  // ---- Positions under insertion and removal ------------------------------------------------------

  lemma {:induction false} WithoutConcat(a: seq<Tid>, b: seq<Tid>, dead: set<Tid>)
    ensures Without(a + b, dead) == Without(a, dead) + Without(b, dead)
  {
    if |a| == 0 { assert a + b == b; } else {
      assert (a + b)[1..] == a[1..] + b;
      WithoutConcat(a[1..], b, dead);
    }
  }

  lemma {:induction false} WithoutShorter(a: seq<Tid>, dead: set<Tid>)
    ensures |Without(a, dead)| <= |a|
  { if |a| > 0 { WithoutShorter(a[1..], dead); } }

  lemma {:induction false} PosSplit(a: seq<Tid>, c: Tid, b: seq<Tid>)
    requires c !in a
    ensures c in a + [c] + b && Pos(a + [c] + b, c) == |a|
  {
    var r := a + [c] + b;
    assert r[|a|] == c;
    if |a| > 0 {
      assert r[1..] == a[1..] + [c] + b && r[0] == a[0];
      PosSplit(a[1..], c, b);
    }
  }

  /** The ring around c. */
  lemma SplitAt(ring: seq<Tid>, c: Tid)
    requires NoDups(ring) && c in ring
    ensures var p := Pos(ring, c); ring == ring[..p] + [c] + ring[p + 1..] && c !in ring[..p]
  {}

  /** Removing others moves c towards the front by those removed before it. */
  lemma PosWithout(ring: seq<Tid>, dead: set<Tid>, c: Tid)
    requires NoDups(ring) && c in ring && c !in dead
    ensures var p, r := Pos(ring, c), Without(ring, dead);
      c in r && Pos(r, c) == |Without(ring[..p], dead)| && |r| - Pos(r, c) == 1 + |Without(ring[p + 1..], dead)|
  {
    var p := Pos(ring, c);
    SplitAt(ring, c);
    WithoutConcat(ring[..p] + [c], ring[p + 1..], dead);
    WithoutConcat(ring[..p], [c], dead);
    assert Without([c], dead) == [c] by { assert [c][1..] == []; }
    PosSplit(Without(ring[..p], dead), c, Without(ring[p + 1..], dead));
  }

  /** How long until t is reached from c: the flag says that the search has to wrap around first. */
  datatype Rank = Rank(wrap: nat, left: nat)

  function RankOf(ring: seq<Tid>, c: Tid, t: Tid): Rank
    requires c in ring && t in ring
  {
    var pc, pt := Pos(ring, c), Pos(ring, t);
    if pc < pt then Rank(0, pt - pc) else Rank(1, |ring| - pc)
  }

  predicate NotAbove(a: Rank, b: Rank) { a.wrap < b.wrap || (a.wrap == b.wrap && a.left <= b.left) }
  predicate Lower(a: Rank, b: Rank) { a.wrap < b.wrap || (a.wrap == b.wrap && a.left < b.left) }

  /** Removal keeps the order of what stays, and brings it closer together. */
  lemma GapWithout(ring: seq<Tid>, dead: set<Tid>, i: nat, j: nat)
    requires i < j <= |ring| && ring[i] !in dead
    ensures 0 < |Without(ring[..j], dead)| - |Without(ring[..i], dead)| <= j - i
  {
    assert ring[..j] == ring[..i] + ring[i..j];
    WithoutConcat(ring[..i], ring[i..j], dead);
    WithoutShorter(ring[i..j], dead);
    assert ring[i] == ring[i..j][0] && ring[i] in Without(ring[i..j], dead);
  }

  /** Reaping others does not raise the rank. */
  lemma RankWithout(ring: seq<Tid>, dead: set<Tid>, c: Tid, t: Tid)
    requires NoDups(ring) && c in ring && t in ring && c !in dead && t !in dead && c != t
    ensures c in Without(ring, dead) && t in Without(ring, dead)
    ensures NotAbove(RankOf(Without(ring, dead), c, t), RankOf(ring, c, t))
  {
    hide Without, Pos;
    var pc, pt := Pos(ring, c), Pos(ring, t);
    PosWithout(ring, dead, c);
    PosWithout(ring, dead, t);
    WithoutShorter(ring[pc + 1..], dead);
    if pc < pt { GapWithout(ring, dead, pc, pt); } else { GapWithout(ring, dead, pt, pc); }
  }

  /** A task spawned at the head does not raise the rank. */
  lemma RankSpawn(ring: seq<Tid>, s: Tid, c: Tid, t: Tid)
    requires c in ring && t in ring && s != c && s != t
    ensures c in [s] + ring && t in [s] + ring && RankOf([s] + ring, c, t) == RankOf(ring, c, t)
  {
    assert ([s] + ring)[1..] == ring;
  }

  /** The search either picks t or lowers its rank. */
  lemma PickLowers(k: Kernel, t: Tid)
    requires NoDups(k.ring) && k.cur in k.ring && t in k.ring && t != k.cur && Runnable(k, t)
    ensures Pick(k) in k.ring && (Pick(k) == t || Lower(RankOf(k.ring, Pick(k), t), RankOf(k.ring, k.cur, t)))
  {
    var pc, pt := Pos(k.ring, k.cur), Pos(k.ring, t);
    var i, j := FirstFrom(k, pc + 1), FirstFrom(k, 0);
    assert Runnable(k, k.ring[pt]);
    if i < |k.ring| { PosOfIndex(k.ring, i); }
    if j < |k.ring| { PosOfIndex(k.ring, j); }
  }

  lemma PosOfIndex(ring: seq<Tid>, i: nat)
    requires NoDups(ring) && i < |ring|
    ensures Pos(ring, ring[i]) == i
  {}

  // ---- Steps that call scheduler() -------------------------------------------------------------------

  predicate CallsScheduler(k: Kernel, e: Event) {
    k.cur in k.tasks &&
    match e
    case Timer => true
    case ExitEvent(_) => true
    case SpawnFails => false
    case SpawnEvent(_, _) => true
    case Read(tty) => !DataReady(k, tty)
    case RedrawDone => true
    case Resume =>
      var x := k.tasks[k.cur];
      x.pc != Fresh &&
      (|| x.pending || (x.pc == Ticked && k.cur == k.idle)
       || (x.pc.InRead? && x.state == Ready && x.reason == Awake && !DataReady(k, x.pc.tty)))
    case _ => k.cur == k.idle
  }

  /** The state in which a step calls scheduler(). */
  function Before(k: Kernel, e: Event): Kernel
    requires Enabled(k, e)
  {
    var x := k.tasks[k.cur];
    match e
    case ExitEvent(code) => Exited(k, code)
    case SpawnEvent(slot, mode) => Forked(k, slot, if mode == Wait then WaitingParent(k, slot) else x.(pc := Yielded))
    case Read(tty) => SetTask(k, k.cur, x.(state := Sleeping, reason := OnTty(tty), pc := InRead(tty)))
    case RedrawDone => SetTask(k, k.cur, x.(state := Sleeping, reason := OnDisplay, pc := InRedraw))
    case Resume =>
      if x.pending then Exited(k, 0)
      else if x.pc.InRead? then
        SetTask(k, k.cur, x.(state := Sleeping, reason := OnTty(x.pc.tty), pc := InRead(x.pc.tty)))
      else SetTask(k, k.cur, x.(pc := Yielded))
    case Timer => SetTask(k, k.cur, x.(pc := Ticked))
    case LineEnd(tty, redraw) =>
      var k1 := EndLine(Redraw(k, redraw), tty);
      SetTask(k1, k.cur, k1.tasks[k.cur].(pc := Yielded))
    case OtherByte(redraw) => var k1 := Redraw(k, redraw); SetTask(k1, k.cur, k1.tasks[k.cur].(pc := Yielded))
    case InterruptKey(tty) => var k1 := Interrupt(k, tty); SetTask(k1, k.cur, k1.tasks[k.cur].(pc := Yielded))
    case WakeDisplay => var k1 := Wakeup(k, OnDisplay); SetTask(k1, k.cur, k1.tasks[k.cur].(pc := Yielded))
    case _ => SetTask(k, k.cur, x.(pc := Yielded))
  }

  lemma StepIsSchedule(k: Kernel, e: Event)
    requires Enabled(k, e) && CallsScheduler(k, e)
    ensures Step(k, e) == Schedule(Before(k, e))
  {
    hide Schedule, Exit, SpawnUser, Exited, Forked;
    match e
    case ExitEvent(code) => ExitIsSchedule(k, code);
    case SpawnEvent(slot, mode) => SpawnIsSchedule(k, slot, mode);
    case Resume => ExitIsSchedule(k, 0);
    case _ =>
  }

  lemma BeforeRing(k: Kernel, e: Event)
    requires Enabled(k, e)
    ensures var m := Before(k, e);
      && m.cur == k.cur && m.idle == k.idle && k.tasks.Keys <= m.tasks.Keys
      && m.ring == if e.SpawnEvent? then [e.slot] + k.ring else k.ring
  {
    hide Exited, Notify;
    if e.ExitEvent? { ExitedRing(k, e.code); }
    if e.Resume? { ExitedRing(k, 0); }
  }

  lemma ExitedRing(k: Kernel, code: nat)
    requires k.cur in k.tasks
    ensures var m := Exited(k, code);
      m.cur == k.cur && m.idle == k.idle && k.tasks.Keys <= m.tasks.Keys && m.ring == k.ring
  {}

  lemma QuietStep(k: Kernel, e: Event)
    requires Enabled(k, e) && !CallsScheduler(k, e) && Step(k, e).Ok?
    ensures Step(k, e).k.ring == k.ring && Step(k, e).k.cur == k.cur
  { hide Schedule; }

  /** A call of scheduler() runs t or lowers its rank, if t is ready before and after. */
  lemma ScheduleLowers(k: Kernel, e: Event, k': Kernel, t: Tid)
    requires Inv(k) && Steps(k, e, k') && CallsScheduler(k, e)
    requires t in k.tasks && t in k'.tasks && k'.tasks[t].state == Ready && t != k.idle && t != k.cur && t in k.ring
    requires k'.cur in k'.ring && t in k'.ring
    ensures k'.cur == t || Lower(RankOf(k'.ring, k'.cur, t), RankOf(k.ring, k.cur, t))
  {
    hide Step, Enabled, Before, Inv, RankOf, Without, Pick;
    var m := Before(k, e);
    StepIsSchedule(k, e);
    BeforeRing(k, e);
    RingFacts(k);
    if e.SpawnEvent? { FreshSlot(k, e); RankSpawn(k.ring, e.slot, k.cur, t); ConsNoDups(k.ring, e.slot); }
    var k1 := Reap(m);
    RankWithout(m.ring, Dead(m), k.cur, t);
    WithoutNoDups(m.ring, Dead(m));
    PickLowers(k1, t);
  }

  lemma FreshSlot(k: Kernel, e: Event)
    requires Enabled(k, e) && e.SpawnEvent?
    ensures e.slot !in k.tasks
  {}

  lemma RingFacts(k: Kernel)
    requires Inv(k)
    ensures NoDups(k.ring) && k.cur in k.ring && k.cur in k.tasks && forall t :: t in k.ring <==> t in k.tasks
  {}

  // ---- Endless runs -----------------------------------------------------------------------------------

  ghost predicate EndlessRun(run: nat -> Kernel, ev: nat -> Event) {
    forall n: nat :: Steps(run(n), ev(n), run(n + 1))
  }

  /** scheduler() is called again and again (the timer ticks). */
  ghost predicate KeepsScheduling(run: nat -> Kernel, ev: nat -> Event) {
    forall n: nat :: CalledFrom(run, ev, n)
  }

  ghost predicate CalledFrom(run: nat -> Kernel, ev: nat -> Event, n: nat) {
    exists m: nat :: m >= n && CallsScheduler(run(m), ev(m))
  }

  ghost predicate StaysReady(run: nat -> Kernel, t: Tid) {
    forall n: nat :: ReadyAt(run, n, t)
  }

  ghost predicate ReadyAt(run: nat -> Kernel, n: nat, t: Tid) {
    t in run(n).tasks && run(n).tasks[t].state == Ready && t != run(n).idle
  }

  lemma {:induction false} EndlessSafe(run: nat -> Kernel, ev: nat -> Event, n: nat)
    requires EndlessRun(run, ev) && Inv(run(0))
    ensures Inv(run(n))
  {
    hide Inv, Step, Enabled;
    if n > 0 {
      EndlessSafe(run, ev, n - 1);
      assert Steps(run(n - 1), ev(n - 1), run(n - 1 + 1));
      StepKeeps(run(n - 1), ev(n - 1));
    }
  }

  /** The first call of scheduler() from step n on, and what was the case until then. */
  lemma {:induction false} NextCall(run: nat -> Kernel, ev: nat -> Event, n: nat, m: nat) returns (s: nat)
    requires EndlessRun(run, ev) && n <= m && CallsScheduler(run(m), ev(m))
    ensures n <= s && CallsScheduler(run(s), ev(s)) && run(s).ring == run(n).ring && run(s).cur == run(n).cur
    decreases m - n
  {
    hide Step, Enabled;
    if CallsScheduler(run(n), ev(n)) { s := n; } else {
      assert Steps(run(n), ev(n), run(n + 1));
      QuietStep(run(n), ev(n));
      s := NextCall(run, ev, n + 1, m);
    }
  }

  lemma {:induction false} Reached(run: nat -> Kernel, ev: nat -> Event, t: Tid, n: nat) returns (m: nat)
    requires EndlessRun(run, ev) && KeepsScheduling(run, ev) && StaysReady(run, t) && Inv(run(0))
    requires run(n).cur in run(n).ring && t in run(n).ring
    ensures n <= m && run(m).cur == t
    decreases RankOf(run(n).ring, run(n).cur, t).wrap, RankOf(run(n).ring, run(n).cur, t).left
  {
    hide Step, Enabled, Inv, RankOf;
    if run(n).cur == t { m := n; } else {
      assert CalledFrom(run, ev, n);
      var c: nat :| c >= n && CallsScheduler(run(c), ev(c));
      var s := NextCall(run, ev, n, c);
      EndlessSafe(run, ev, s);
      EndlessSafe(run, ev, s + 1);
      assert ReadyAt(run, s, t) && ReadyAt(run, s + 1, t);
      assert Steps(run(s), ev(s), run(s + 1));
      RingFacts(run(s + 1));
      ScheduleLowers(run(s), ev(s), run(s + 1), t);
      if run(s + 1).cur == t { m := s + 1; } else { m := Reached(run, ev, t, s + 1); }
    }
  }

  /** No starvation: a thread that stays ready runs again from every point of an endless run, whatever is spawned,
      reaped, woken or put to sleep in between. */
  lemma NoStarvation(run: nat -> Kernel, ev: nat -> Event, t: Tid, n: nat) returns (m: nat)
    requires EndlessRun(run, ev) && KeepsScheduling(run, ev) && StaysReady(run, t) && Inv(run(0))
    ensures n <= m && run(m).cur == t
  {
    hide Inv, Step, Enabled;
    EndlessSafe(run, ev, n);
    RingFacts(run(n));
    assert ReadyAt(run, n, t);
    m := Reached(run, ev, t, n);
  }
}
