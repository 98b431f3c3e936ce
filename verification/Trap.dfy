/**
 The trap protocol of riscv64 (src/arch/riscv64/trap.c, trap_entry.s, cpu.c and
 src/kernel/scheduler.c): sscratch, trap depths and the handler's assertions. Kernel code runs
 with interrupts off, so traps come from user code and from the idle thread's body only.
 */
module Trap {
  import opened Common

  /** Where a thread is, or will go on: not started; running its body (user code, or a kernel thread's function);
      or in the handler, with the mode saved in the trapped registers. A kernel thread that called scheduler()
      from its body is in its body. */
  datatype Where = Fresh | Body | InHandler(saved: Mode)

  /** uregs is where the registers of the outermost trap are saved. */
  datatype Thread = Thread(mode: Mode, kstack: nat, trapdepth: nat, uregs: int, where: Where)

  /** The machine: threads, cur_thread, the sscratch register, and the privilege mode it runs in. */
  datatype Cpu = Cpu(threads: map<nat, Thread>, cur: nat, sscratch: nat, priv: Mode)

  datatype Result = Ok(c: Cpu) | Panic

  /** STACK_BOTTOM: 16 bytes below the end of the page. */
  function StackBottom(page: nat): nat { page + (4096 - 0x10) }

  /** The stack bottom is 16 bytes below the end of the page, 16-aligned if the page is, and above room for a regs_t. */
  lemma StackBottomInPage(page: nat)
    ensures StackBottom(page) + 16 == page + 4096
    ensures page % 4096 == 0 ==> StackBottom(page) % 16 == 0
    ensures page <= StackBottom(page) - 280
  {
    if page % 4096 == 0 { Multiple16(StackBottom(page), 256 * (page / 4096) + 255); }
  }

  lemma Multiple16(x: nat, k: nat)
    requires x == 16 * k
    ensures x % 16 == 0
  {}

  /** The size of regs_t: 35 registers. */
  const REGS_SIZE: nat := 35 * 8

  /** cpu_set_entry_kstack (src/arch/riscv64/cpu.c:25-39). */
  function EntryKstack(th: Thread): nat {
    if th.trapdepth > 1 || th.mode == Kern then 0 else StackBottom(th.kstack)
  }

  function SetThread(c: Cpu, t: nat, th: Thread): Cpu { c.(threads := c.threads[t := th]) }

  /** riscv_trap and thread_trap_enter: the entry code swaps sp with sscratch, falls back to the current sp if it
      was 0, and leaves 0 in sscratch. User code must be left for its thread's kernel stack, kernel code for the
      stack it is on; the assertions compare the trapped mode with the task's. */
  function Enter(c: Cpu, sp: nat): Result
    requires c.cur in c.threads
  {
    var th := c.threads[c.cur];
    var trapped := c.priv;
    var regs := (if c.sscratch == 0 then sp else c.sscratch) - REGS_SIZE;
    var th' := th.(trapdepth := th.trapdepth + 1, uregs := if th.trapdepth == 0 then regs else th.uregs,
                   where := InHandler(trapped));
    if c.sscratch != (if trapped == User then StackBottom(th.kstack) else 0) then Panic
    else if th.mode == Kern && trapped != Kern then Panic
    else if th.mode == User && th'.trapdepth == 1 && trapped != User then Panic
    else if th.mode == User && th'.trapdepth != 1 && trapped != Kern then Panic
    else Ok(SetThread(c, c.cur, th').(sscratch := 0, priv := Kern))
  }

  /** switchto: from the handler, or from a kernel thread's body that calls scheduler(). */
  function SwitchTo(c: Cpu, next: nat): Result {
    if next !in c.threads || c.priv != Kern then Panic
    else Ok(c.(cur := next, sscratch := EntryKstack(c.threads[next])))
  }

  /** thread_trap_exit, the assertions at the end of riscv_handle_interrupt, and sret to the trapped mode. */
  function Leave(c: Cpu): Result
    requires c.cur in c.threads
  {
    var th := c.threads[c.cur];
    if !th.where.InHandler? || th.trapdepth == 0 then Panic
    else
      var trapped := th.where.saved;
      var th' := th.(trapdepth := th.trapdepth - 1, where := Body);
      var scratch := if th'.trapdepth == 0 then EntryKstack(th') else c.sscratch;
      var c' := SetThread(c, c.cur, th').(sscratch := scratch, priv := trapped);
      if trapped == User && (th'.trapdepth != 0 || c'.sscratch == 0) then Panic
      else if trapped == Kern && c'.sscratch != 0 then Panic
      else Ok(c')
  }

  /** The first instructions of a thread: jump_to_user and its sret, or a kernel thread's function. */
  function Start(c: Cpu): Result
    requires c.cur in c.threads
  {
    var th := c.threads[c.cur];
    if th.where != Fresh then Panic else Ok(SetThread(c, c.cur, th.(where := Body)).(priv := th.mode))
  }

  datatype Event =
    | EnterEvent(sp: nat) | SwitchEvent(next: nat) | LeaveEvent | StartEvent
    | NewThread(t: nat, mode: Mode, kstack: nat) | Reap(t: nat)

  /** What the control flow allows: a trap hits a running body; scheduler() is called in the handler, or by a kernel
      thread's body; a started thread runs its body. */
  predicate Enabled(c: Cpu, e: Event) {
    && c.cur in c.threads
    && var th := c.threads[c.cur];
       match e
       case EnterEvent(_) => th.where == Body
       case SwitchEvent(next) => next in c.threads && (th.where.InHandler? || (th.where == Body && th.mode == Kern))
       case LeaveEvent => th.where.InHandler?
       case StartEvent => th.where == Fresh
       case NewThread(t, _, _) => t !in c.threads && th.where != Fresh
       case Reap(t) => t in c.threads && t != c.cur
  }

  /** setup_user_thread leaves a regs_t at the stack's bottom, setup_kernel_thread none. */
  function NewThreadOf(mode: Mode, kstack: nat): Thread {
    Thread(mode, kstack, 0, if mode == User then StackBottom(kstack) - REGS_SIZE else 0, Fresh)
  }

  function Step(c: Cpu, e: Event): Result
    requires Enabled(c, e)
  {
    match e
    case EnterEvent(sp) => Enter(c, sp)
    case SwitchEvent(next) => SwitchTo(c, next)
    case LeaveEvent => Leave(c)
    case StartEvent => Start(c)
    case NewThread(t, mode, kstack) => Ok(SetThread(c, t, NewThreadOf(mode, kstack)))
    case Reap(t) => Ok(c.(threads := c.threads - {t}))
  }

  // ---- The protocol -----------------------------------------------------------------------------

  /** A thread's depth is 1 in the handler and 0 outside, the saved mode is its own, and the registers of a user
      thread are saved at the bottom of its kernel stack. */
  predicate ThreadOk(th: Thread) {
    && th.trapdepth == (if th.where.InHandler? then 1 else 0) && (th.where.InHandler? ==> th.where.saved == th.mode)
    && (th.mode == User ==> th.uregs == StackBottom(th.kstack) - REGS_SIZE)
  }

  /** Whenever a body runs, or is about to start, sscratch is what the next trap needs: the thread's kernel stack for
      user code, 0 for kernel code. */
  predicate ScratchOk(c: Cpu) {
    c.cur in c.threads &&
    var th := c.threads[c.cur];
    && (!th.where.InHandler? ==> c.sscratch == if th.mode == User then StackBottom(th.kstack) else 0)
    && c.priv == if th.where == Body then th.mode else Kern
  }

  /** A user thread that is not current was left in the handler, or has not started. */
  predicate LeftInHandler(c: Cpu, t: nat)
    requires t in c.threads
  { t == c.cur || c.threads[t].mode == Kern || c.threads[t].where != Body }

  ghost predicate Inv(c: Cpu) {
    ScratchOk(c) && forall t | t in c.threads :: ThreadOk(c.threads[t]) && LeftInHandler(c, t)
  }

  /** No assertion of the entry code, the handler or the scheduler fails, and the protocol is kept. */
  lemma StepKeeps(c: Cpu, e: Event)
    requires Inv(c) && Enabled(c, e)
    ensures Step(c, e).Ok? && Inv(Step(c, e).c)
  {
    assert ThreadOk(c.threads[c.cur]);
    var c' := Step(c, e);
    if c'.Ok? {
      forall t | t in c'.c.threads ensures ThreadOk(c'.c.threads[t]) && LeftInHandler(c'.c, t) {
        if t in c.threads { assert ThreadOk(c.threads[t]) && LeftInHandler(c, t); }
      }
    }
  }

  ghost predicate IsRun(cs: seq<Cpu>, es: seq<Event>) {
    |cs| == |es| + 1 && forall i | 0 <= i < |es| :: Steps(cs[i], es[i], cs[i + 1])
  }

  ghost predicate Steps(c: Cpu, e: Event, c': Cpu) { Enabled(c, e) && Step(c, e) == Ok(c') }

  /** A first thread was switched to and nothing has run. */
  ghost predicate Booted(c: Cpu) {
    && c.cur in c.threads && (forall t | t in c.threads ::
          c.threads[t] == NewThreadOf(c.threads[t].mode, c.threads[t].kstack))
    && c.sscratch == EntryKstack(c.threads[c.cur]) && c.priv == Kern
  }

  /** Over every run of traps, system calls and context switches: every depth is 0 or 1, every return to user mode has
      sscratch at the current thread's stack bottom, every return to kernel mode has sscratch 0, and no assertion
      fails. */
  lemma {:induction false} RunKeepsProtocol(cs: seq<Cpu>, es: seq<Event>, i: nat)
    requires IsRun(cs, es) && Booted(cs[0]) && i < |cs|
    ensures Inv(cs[i])
    ensures forall t | t in cs[i].threads :: var th := cs[i].threads[t];
      th.trapdepth <= 1 && (th.mode == User ==> th.uregs == StackBottom(th.kstack) - REGS_SIZE)
    ensures forall e | Enabled(cs[i], e) :: Step(cs[i], e).Ok?
    ensures i > 0 && es[i - 1] == LeaveEvent ==>
      var th := cs[i].threads[cs[i].cur]; cs[i].sscratch == if cs[i].priv == User then StackBottom(th.kstack) else 0
  {
    hide Step, Enabled;
    if i > 0 {
      RunKeepsProtocol(cs, es, i - 1);
      assert Steps(cs[i - 1], es[i - 1], cs[i]);
      StepKeeps(cs[i - 1], es[i - 1]);
      if es[i - 1] == LeaveEvent { LeavesToBody(cs[i - 1]); }
    }
    forall e | Enabled(cs[i], e) ensures Step(cs[i], e).Ok? { StepKeeps(cs[i], e); }
    forall t | t in cs[i].threads ensures ThreadOk(cs[i].threads[t]) {}
  }

  /** The registers of user code are saved within the thread's own kernel stack page, in every state of every run; so
      those of threads with different stack pages are apart. */
  lemma RegistersInOwnPage(cs: seq<Cpu>, es: seq<Event>, i: nat, t: nat, u: nat)
    requires IsRun(cs, es) && Booted(cs[0]) && i < |cs| && t in cs[i].threads && cs[i].threads[t].mode == User
    ensures var th := cs[i].threads[t]; th.kstack <= th.uregs && th.uregs + 280 <= th.kstack + 4096
    ensures u in cs[i].threads && cs[i].threads[u].mode == User ==>
      var a, b := cs[i].threads[t], cs[i].threads[u];
      a.kstack % 4096 == 0 && b.kstack % 4096 == 0 && a.kstack != b.kstack ==>
        a.uregs + 280 <= b.uregs || b.uregs + 280 <= a.uregs
  {
    hide IsRun, Booted;
    RunKeepsProtocol(cs, es, i);
    StackBottomInPage(cs[i].threads[t].kstack);
    if u in cs[i].threads && cs[i].threads[u].mode == User {
      StackBottomInPage(cs[i].threads[u].kstack);
      var p, q := cs[i].threads[t].kstack, cs[i].threads[u].kstack;
      if p % 4096 == 0 && q % 4096 == 0 && p != q { PagesApart(p, q); }
    }
  }

  lemma PagesApart(p: nat, q: nat)
    requires p % 4096 == 0 && q % 4096 == 0 && p != q
    ensures p + 4096 <= q || q + 4096 <= p
  {}

  lemma LeavesToBody(c: Cpu)
    requires Enabled(c, LeaveEvent) && Step(c, LeaveEvent).Ok?
    ensures var c' := Step(c, LeaveEvent).c; c'.cur in c'.threads && c'.threads[c'.cur].where == Body
  {}

  // ---- The code, in place -----------------------------------------------------------------------

  /** The state the trap code updates: thread fields, cur_thread, sscratch; priv is the processor's mode. */
  class Hart {
    var threads: map<nat, Thread>
    var cur: nat
    var sscratch: nat
    var priv: Mode

    function View(): Cpu reads this { Cpu(threads, cur, sscratch, priv) }

    /** riscv_trap up to the call of the handler, the handler's first assertion and thread_trap_enter: sp and
        sscratch are swapped, a zero sp is replaced by the trapped one, and sscratch is cleared. */
    method TrapEnter(sp: nat) returns (ksp: nat)
      requires Inv(View()) && Enabled(View(), EnterEvent(sp))
      modifies this
      ensures Step(old(View()), EnterEvent(sp)) == Ok(View()) && Inv(View())
      ensures ksp == if old(priv) == User then threads[cur].kstack + 4080 else sp
    {
      StepKeeps(View(), EnterEvent(sp));
      assert ThreadOk(threads[cur]);
      ksp, sscratch := sscratch, sp;
      if ksp == 0 { ksp := sscratch; }
      sscratch := 0;
      var trapped := priv;
      priv := Kern;
      assert sscratch == 0;
      ThreadTrapEnter(trapped, ksp - REGS_SIZE);
    }

    /** thread_trap_enter (src/kernel/scheduler.c:31-52): a user task is trapped in user mode at depth 0, and every
        other trap comes from kernel mode. */
    method ThreadTrapEnter(trapped: Mode, regs: int)
      requires cur in threads
      requires trapped == if threads[cur].mode == User && threads[cur].trapdepth == 0 then User else Kern
      modifies this`threads
      ensures var th := old(threads)[cur];
        threads == old(threads)[cur := th.(trapdepth := th.trapdepth + 1, where := InHandler(trapped),
                                           uregs := if th.trapdepth == 0 then regs else th.uregs)]
    {
      threads := threads[cur := threads[cur].(trapdepth := threads[cur].trapdepth + 1, where := InHandler(trapped))];
      if threads[cur].trapdepth == 1 { threads := threads[cur := threads[cur].(uregs := regs)]; }
      var th := threads[cur];
      assert th.trapdepth != 0;
      if th.mode == Kern { assert trapped == Kern; }
      if th.mode == User {
        if th.trapdepth == 1 { assert trapped == User; } else { assert trapped == Kern; }
      }
    }

    /** cpu_set_entry_kstack (src/arch/riscv64/cpu.c:25-39); its final panic is unreachable. */
    method SetEntryKstack(th: Thread)
      modifies this`sscratch
      ensures sscratch == EntryKstack(th)
    {
      if th.trapdepth > 1 || th.mode == Kern {
        sscratch := 0;
        return;
      }
      if th.mode == User {
        assert th.trapdepth <= 1;
        sscratch := StackBottom(th.kstack);
        return;
      }
      assert false;
    }

    /** switchto, as far as the trap protocol goes; execution goes on in the other thread. */
    method SwitchTo(next: nat)
      requires Inv(View()) && Enabled(View(), SwitchEvent(next))
      modifies this
      ensures Step(old(View()), SwitchEvent(next)) == Ok(View()) && Inv(View())
    {
      StepKeeps(View(), SwitchEvent(next));
      SetEntryKstack(threads[next]);
      cur := next;
    }

    /** The end of riscv_handle_interrupt: thread_trap_exit, the four assertions, and the return to the trapped mode. */
    method TrapLeave()
      requires Inv(View()) && Enabled(View(), LeaveEvent)
      modifies this
      ensures Step(old(View()), LeaveEvent) == Ok(View()) && Inv(View())
      ensures priv == threads[cur].mode && sscratch == (if priv == User then StackBottom(threads[cur].kstack) else 0)
    {
      StepKeeps(View(), LeaveEvent);
      assert ThreadOk(threads[cur]);
      var trapped := threads[cur].where.saved;
      assert threads[cur].trapdepth != 0;
      threads := threads[cur := threads[cur].(trapdepth := threads[cur].trapdepth - 1, where := Body)];
      if threads[cur].trapdepth == 0 { SetEntryKstack(threads[cur]); }
      if trapped == User {
        assert threads[cur].trapdepth == 0;
        assert sscratch != 0;
      }
      if trapped == Kern { assert sscratch == 0; }
      priv := trapped;
    }
  }
}
