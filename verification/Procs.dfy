/** The process table of kernel/proc.c: the scheduler, kfork, kexit, kwait, sleeping, waking and
    killing, interleaved on any number of CPUs. A step is one critical section; p->lock is kept across
    swtch() as in the source, and the loops of reparent(), wakeup() and kwait() take one step for each
    process they visit. */
module Procs {
  const INIT: nat := 0      // initproc

  datatype PState = UNUSED | USED | SLEEPING | RUNNABLE | RUNNING | ZOMBIE

  /** p->chan: nothing, the process itself while it is in kwait(), or another channel. */
  datatype Chan = NoChan | Child(p: nat) | Other(n: nat)

  /** Where the kernel thread of a process is. */
  datatype Pc =
    | Run                                   // in user space or in code that does not matter here
    | Fork1(np: nat)                        // kfork(): holds np->lock
    | Fork2(np: nat)                        // has released it
    | Fork3(np: nat)                        // has set np->parent
    | Exit(scan: nat)                       // kexit(): holds wait_lock, in reparent()
    | ExitWakeInit(scan: nat, k: nat)       // in the wakeup(initproc) of reparent()
    | ExitWakeParent(k: nat)                // in wakeup(p->parent)
    | Dead
    | Wait(scan: nat, havekids: bool)       // kwait(): holds wait_lock, scanning for children
    | WaitReg                               // has called sleep_prepare(), holds wait_lock
    | WaitDrop                              // has released wait_lock, not in sleep() yet
    | WaitBack                              // in sleep() or back from it

  datatype Switch = Steady | In | Out       // just switched to; about to switch away

  /** lock is the CPU that holds p->lock, on the CPU that executes on p's kernel stack, maker the
      process that is forking p; all -1 if there is none. */
  datatype Proc = Proc(state: PState, pid: nat, parent: int, chan: Chan, killed: bool, lock: int, on: int, sw: Switch, pc: Pc, maker: int)

  datatype Ctl = Loop | Thread(p: nat) | Returned(p: nat)   // in scheduler(), in a process, back with p->lock held

  /** c->proc, and what the CPU executes. */
  datatype Cpu = Cpu(proc: int, ctl: Ctl)

  /** wait is the process that holds wait_lock, or -1. */
  datatype State = State(procs: seq<Proc>, cpus: seq<Cpu>, wait: int, nextpid: nat)

  datatype SchedStep =
    | Dispatch(c: nat, p: nat)
    | Resume(p: nat)
    | Yield(p: nat)
    | SwtchOut(p: nat)
    | SchedRelease(c: nat)
    | OtherPrepare(p: nat, n: nat)
    | OtherSleep(p: nat)
    | WakeVisit(j: nat, chan: Chan)
    | Kill(j: nat, pid: int)                // kkill(pid) comes to process j

  datatype ForkStep =
    | ForkAlloc(p: nat, np: nat)
    | ForkFail(p: nat)
    | ForkUnlock(p: nat)
    | ForkParent(p: nat)
    | ForkReady(p: nat)

  datatype ExitStep =
    | ExitStart(p: nat)
    | ExitVisit(p: nat)
    | ExitWakeInitVisit(p: nat)
    | ExitScanned(p: nat)
    | ExitWakeParentVisit(p: nat)
    | ExitZombie(p: nat)

  datatype WaitStep =
    | WaitStart(p: nat)
    | WaitVisit(p: nat)
    | WaitFail(p: nat)
    | WaitQuit(p: nat)
    | WaitRegister(p: nat)
    | WaitRelease(p: nat)
    | WaitSleep(p: nat)

  datatype Step = Sched(a: SchedStep) | Forking(f: ForkStep) | Exiting(e: ExitStep) | Waiting(w: WaitStep)

  /** The thread of p can take a step: a CPU executes it, and it is not in the middle of a switch. */
  predicate Runs(s: State, p: nat) { p < |s.procs| && s.procs[p].on >= 0 && s.procs[p].sw == Steady }

  /** p->lock can be taken. */
  predicate Unlocked(s: State, p: nat) { p < |s.procs| && s.procs[p].lock == -1 }

  /** No spinlock is held here, so a timer interrupt may make the process yield. */
  predicate Preemptible(pc: Pc) {
    pc.Run? || pc.Fork2? || pc.Fork3? || pc.WaitDrop? || pc.WaitBack?
  }

  function Put(s: State, p: nat, x: Proc): State
    requires p < |s.procs|
  {
    s.(procs := s.procs[p := x])
  }

  function Goto(s: State, p: nat, pc: Pc): State
    requires p < |s.procs|
  {
    Put(s, p, s.procs[p].(pc := pc))
  }

  /** One visit of wakeup(chan). */
  function Visited(x: Proc, chan: Chan): Proc {
    if x.chan != chan then x
    else x.(chan := NoChan, state := if x.state == SLEEPING then RUNNABLE else x.state)
  }

  /** freeproc(), and p->parent = 0 before it. */
  function Freed(x: Proc): Proc { x.(state := UNUSED, pid := 0, parent := -1, chan := NoChan, killed := false, pc := Run, maker := -1) }

  /** sleep(), with p->lock held: the process gets ready to switch away unless it has been woken. */
  function Slept(x: Proc): Proc {
    if x.chan == NoChan then x else x.(state := SLEEPING, lock := x.on, sw := Out)
  }

  predicate SchedEnabled(s: State, t: SchedStep) {
    match t
    case Dispatch(c, p) => c < |s.cpus| && s.cpus[c].ctl == Loop && Unlocked(s, p) && s.procs[p].state == RUNNABLE
    case Resume(p) => p < |s.procs| && s.procs[p].sw == In
    case Yield(p) => Runs(s, p) && Unlocked(s, p) && Preemptible(s.procs[p].pc)
    case SwtchOut(p) => p < |s.procs| && s.procs[p].sw == Out && 0 <= s.procs[p].on < |s.cpus|
    case SchedRelease(c) => c < |s.cpus| && s.cpus[c].ctl.Returned? && s.cpus[c].ctl.p < |s.procs|
    case OtherPrepare(p, _) => Runs(s, p) && s.procs[p].pc == Run && Unlocked(s, p)
    case OtherSleep(p) => Runs(s, p) && s.procs[p].pc == Run && Unlocked(s, p) && !s.procs[p].chan.Child?
    case WakeVisit(j, chan) => Unlocked(s, j) && chan != NoChan
    case Kill(j, pid) => Unlocked(s, j) && s.procs[j].pid == pid
  }

  function SchedApply(s: State, t: SchedStep): State
    requires SchedEnabled(s, t)
  {
    match t
    case Dispatch(c, p) =>
      Put(s, p, s.procs[p].(state := RUNNING, lock := c, on := c, sw := In)).(cpus := s.cpus[c := Cpu(p, Thread(p))])
    case Resume(p) => Put(s, p, s.procs[p].(lock := -1, sw := Steady))
    case Yield(p) => Put(s, p, s.procs[p].(state := RUNNABLE, lock := s.procs[p].on, sw := Out))
    case SwtchOut(p) =>
      var c := s.procs[p].on;
      Put(s, p, s.procs[p].(on := -1, sw := Steady)).(cpus := s.cpus[c := Cpu(s.cpus[c].proc, Returned(p))])
    case SchedRelease(c) =>
      var p := s.cpus[c].ctl.p;
      Put(s, p, s.procs[p].(lock := -1)).(cpus := s.cpus[c := Cpu(-1, Loop)])
    case OtherPrepare(p, k) => Put(s, p, s.procs[p].(chan := Other(k)))
    case OtherSleep(p) => Put(s, p, Slept(s.procs[p]))
    case WakeVisit(j, chan) => Put(s, j, Visited(s.procs[j], chan))
    case Kill(j, _) => Put(s, j, s.procs[j].(killed := true, state := if s.procs[j].state == SLEEPING then RUNNABLE else s.procs[j].state))
  }

  predicate ForkEnabled(s: State, t: ForkStep) {
    && Runs(s, t.p)
    && match t
       case ForkAlloc(p, np) => s.procs[p].pc == Run && Unlocked(s, np) && s.procs[np].state == UNUSED
       case ForkFail(p) => s.procs[p].pc.Fork1? && s.procs[p].pc.np < |s.procs|
       case ForkUnlock(p) => s.procs[p].pc.Fork1? && s.procs[p].pc.np < |s.procs|
       case ForkParent(p) => s.procs[p].pc.Fork2? && s.procs[p].pc.np < |s.procs| && s.wait == -1
       case ForkReady(p) => s.procs[p].pc.Fork3? && Unlocked(s, s.procs[p].pc.np)
  }

  function ForkApply(s: State, t: ForkStep): State
    requires ForkEnabled(s, t)
  {
    match t
    case ForkAlloc(p, np) =>
      var s1 := Put(s, np, s.procs[np].(state := USED, pid := s.nextpid, lock := s.procs[p].on, maker := p));
      Goto(s1, p, Fork1(np)).(nextpid := s.nextpid + 1)
    case ForkFail(p) =>
      var np := s.procs[p].pc.np;
      Goto(Put(s, np, Freed(s.procs[np]).(lock := -1)), p, Run)
    case ForkUnlock(p) =>
      var np := s.procs[p].pc.np;
      Goto(Put(s, np, s.procs[np].(lock := -1)), p, Fork2(np))
    case ForkParent(p) =>
      var np := s.procs[p].pc.np;
      Goto(Put(s, np, s.procs[np].(parent := p)), p, Fork3(np))
    case ForkReady(p) =>
      var np := s.procs[p].pc.np;
      Goto(Put(s, np, s.procs[np].(state := RUNNABLE, maker := -1)), p, Run)
  }

  predicate ExitEnabled(s: State, t: ExitStep) {
    && Runs(s, t.p)
    && var x := s.procs[t.p];
       match t
       case ExitStart(p) => x.pc == Run && p != INIT && s.wait == -1
       case ExitVisit(_) => x.pc.Exit? && x.pc.scan < |s.procs|
       case ExitWakeInitVisit(_) => x.pc.ExitWakeInit? && (x.pc.k < |s.procs| ==> Unlocked(s, x.pc.k))
       case ExitScanned(_) => x.pc.Exit? && x.pc.scan == |s.procs|
       case ExitWakeParentVisit(_) => x.pc.ExitWakeParent? && Unlocked(s, x.pc.k)
       case ExitZombie(p) => x.pc == ExitWakeParent(|s.procs|) && Unlocked(s, p)
  }

  /** The channel of wakeup(p->parent). */
  function ParentChan(x: Proc): Chan { if x.parent < 0 then NoChan else Child(x.parent) }

  function ExitApply(s: State, t: ExitStep): State
    requires ExitEnabled(s, t)
  {
    var x := s.procs[t.p];
    match t
    case ExitStart(p) => Goto(s, p, Exit(0)).(wait := p)
    case ExitVisit(p) =>
      if s.procs[x.pc.scan].parent == p
      then Goto(Put(s, x.pc.scan, s.procs[x.pc.scan].(parent := INIT)), p, ExitWakeInit(x.pc.scan, 0))
      else Goto(s, p, Exit(x.pc.scan + 1))
    case ExitWakeInitVisit(p) =>
      if x.pc.k < |s.procs|
      then Goto(Put(s, x.pc.k, Visited(s.procs[x.pc.k], Child(INIT))), p, ExitWakeInit(x.pc.scan, x.pc.k + 1))
      else Goto(s, p, Exit(x.pc.scan + 1))
    case ExitScanned(p) => Goto(s, p, ExitWakeParent(0))
    case ExitWakeParentVisit(p) =>
      Goto(Put(s, x.pc.k, Visited(s.procs[x.pc.k], ParentChan(x))), p, ExitWakeParent(x.pc.k + 1))
    case ExitZombie(p) => Put(s, p, x.(state := ZOMBIE, lock := x.on, sw := Out, pc := Dead)).(wait := -1)
  }

  predicate WaitEnabled(s: State, t: WaitStep) {
    && Runs(s, t.p)
    && var x := s.procs[t.p];
       match t
       case WaitStart(_) => (x.pc == Run || x.pc == WaitBack) && s.wait == -1
       case WaitVisit(p) =>
         x.pc.Wait? && x.pc.scan < |s.procs| && (s.procs[x.pc.scan].parent == p ==> Unlocked(s, x.pc.scan))
       case WaitFail(p) =>
         x.pc.Wait? && x.pc.scan < |s.procs| && s.procs[x.pc.scan].parent == p && Unlocked(s, x.pc.scan)
         && s.procs[x.pc.scan].state == ZOMBIE
       case WaitQuit(_) => x.pc.Wait? && x.pc.scan == |s.procs| && (!x.pc.havekids || x.killed)
       case WaitRegister(p) => x.pc == Wait(|s.procs|, true) && Unlocked(s, p)
       case WaitRelease(_) => x.pc == WaitReg
       case WaitSleep(p) => x.pc == WaitDrop && Unlocked(s, p)
  }

  function WaitApply(s: State, t: WaitStep): State
    requires WaitEnabled(s, t)
  {
    var x := s.procs[t.p];
    match t
    case WaitStart(p) => Goto(s, p, Wait(0, false)).(wait := p)
    case WaitVisit(p) =>
      var y := s.procs[x.pc.scan];
      if y.parent != p then Goto(s, p, Wait(x.pc.scan + 1, x.pc.havekids))
      else if y.state != ZOMBIE then Goto(s, p, Wait(x.pc.scan + 1, true))
      else Goto(Put(s, x.pc.scan, Freed(y)), p, Run).(wait := -1)
    case WaitFail(p) => Goto(s, p, Run).(wait := -1)
    case WaitQuit(p) => Goto(s, p, Run).(wait := -1)
    case WaitRegister(p) => Put(s, p, x.(chan := Child(p), pc := WaitReg))
    case WaitRelease(p) => Goto(s, p, WaitDrop).(wait := -1)
    case WaitSleep(p) => Put(s, p, Slept(x.(pc := WaitBack)))
  }

  predicate Enabled(s: State, t: Step) {
    match t
    case Sched(a) => SchedEnabled(s, a)
    case Forking(f) => ForkEnabled(s, f)
    case Exiting(e) => ExitEnabled(s, e)
    case Waiting(w) => WaitEnabled(s, w)
  }

  function Apply(s: State, t: Step): State
    requires Enabled(s, t)
  {
    match t
    case Sched(a) => SchedApply(s, a)
    case Forking(f) => ForkApply(s, f)
    case Exiting(e) => ExitApply(s, e)
    case Waiting(w) => WaitApply(s, w)
  }

  predicate Alive(x: Proc) { x.state == SLEEPING || x.state == RUNNABLE || x.state == RUNNING }

  /** The thread holds a spinlock, so it cannot be switched away from. */
  predicate HoldsWait(pc: Pc) { pc.Exit? || pc.ExitWakeInit? || pc.ExitWakeParent? || pc.Wait? || pc.WaitReg? }

  predicate Makes(pc: Pc, np: nat) { pc == Fork1(np) || pc == Fork2(np) || pc == Fork3(np) }

  /** p->lock, p->state and the CPU on p's stack. */
  predicate StackOk(cpus: seq<Cpu>, x: Proc, p: nat) {
    && -1 <= x.on < |cpus| && -1 <= x.lock < |cpus|
    && (x.on >= 0 ==> cpus[x.on] == Cpu(p, Thread(p)))
    && (x.lock == -1 ==> x.sw == Steady && (x.state == RUNNING <==> x.on >= 0))
    && (x.sw == In ==> x.on >= 0 && x.lock == x.on && x.state == RUNNING)
    && (x.sw == Out ==> x.on >= 0 && x.lock == x.on && (x.state == RUNNABLE || x.state == SLEEPING || x.state == ZOMBIE))
    && (x.sw == Steady && x.on >= 0 ==> x.state == RUNNING)
    && (x.lock >= 0 && x.sw == Steady ==> x.on == -1 && (cpus[x.lock] == Cpu(p, Returned(p)) || x.maker >= 0))
  }

  /** The program counter of p and what it says about p. */
  predicate PcOk(wait: int, x: Proc, p: nat) {
    && (x.pc == Dead <==> x.state == ZOMBIE)
    && (x.pc != Run && x.pc != Dead ==> Alive(x))
    && (HoldsWait(x.pc) <==> wait == p)
    && (HoldsWait(x.pc) || x.pc.Fork1? ==> x.on >= 0 && x.sw == Steady)
    && (x.pc.Exit? || x.pc.ExitWakeInit? || x.pc.ExitWakeParent? ==> p != INIT)
    && (x.chan.Child? ==> x.chan.p == p)
    && (x.state == SLEEPING ==> x.chan != NoChan && (x.pc == WaitBack || (x.pc == Run && !x.chan.Child?)))
    && (x.state == UNUSED ==> x.parent == -1 && x.on == -1)
    && (x.state == USED <==> x.maker >= 0)
    && (x.maker >= 0 ==> x.on == -1 && x.pc == Run && x.maker != p)
  }

  predicate SelfOk(s: State, p: nat)
    requires p < |s.procs|
  {
    StackOk(s.cpus, s.procs[p], p) && PcOk(s.wait, s.procs[p], p)
  }

  /** A slot that is being made: who makes it, and how far it is. */
  predicate MakerOk(s: State, p: nat)
    requires p < |s.procs|
  {
    var x := s.procs[p];
    x.maker >= 0 ==>
      && x.maker < |s.procs| && Makes(s.procs[x.maker].pc, p) && s.procs[x.maker].pid < x.pid
      && x.parent == (if s.procs[x.maker].pc.Fork3? then x.maker else -1)
      && (x.lock >= 0 <==> s.procs[x.maker].pc.Fork1?)
  }

  /** The process that p is forking, or p. */
  function Made(x: Proc, p: nat): nat {
    match x.pc
    case Fork1(np) => np
    case Fork2(np) => np
    case Fork3(np) => np
    case _ => p
  }

  predicate MakesOk(s: State, p: nat)
    requires p < |s.procs|
  {
    var np := Made(s.procs[p], p);
    np < |s.procs| && (np != p ==> s.procs[np].maker == p) && (np == p ==> !Makes(s.procs[p].pc, p))
  }

  /** A process that is alive or a zombie has a living parent that is older, except init. */
  predicate ParentOk(s: State, p: nat)
    requires p < |s.procs|
  {
    var x := s.procs[p];
    && x.pid < s.nextpid
    && (p == INIT ==> Alive(x) && x.parent == -1)
    && ((Alive(x) || x.state == ZOMBIE) && p != INIT ==>
          0 <= x.parent < |s.procs| && x.parent != p && Alive(s.procs[x.parent]) && s.procs[x.parent].pid < x.pid)
    && (x.state != UNUSED && p != INIT ==> s.procs[INIT].pid < x.pid)
  }

  predicate CpuOk(s: State, c: nat)
    requires c < |s.cpus|
  {
    match s.cpus[c].ctl
    case Loop => s.cpus[c].proc == -1
    case Thread(p) => s.cpus[c].proc == p < |s.procs| && s.procs[p].on == c
    case Returned(p) =>
      && s.cpus[c].proc == p < |s.procs| && s.procs[p].lock == c && s.procs[p].on == -1 && s.procs[p].sw == Steady
      && s.procs[p].state != RUNNING && s.procs[p].state != UNUSED && s.procs[p].maker < 0
  }

  /** p sleeps in kwait(), or will unless a wakeup visits it. */
  predicate WaitsForChild(x: Proc) {
    x.chan.Child? && (x.pc == WaitReg || x.pc == WaitDrop || (x.pc == WaitBack && x.state == SLEEPING))
  }

  /** The loops under wait_lock stay in range, and wakeup(p->parent) leaves no process behind. */
  predicate ScanOk(s: State, p: nat)
    requires p < |s.procs|
  {
    var x := s.procs[p];
    && (x.pc.Exit? || x.pc.Wait? ==> x.pc.scan <= |s.procs|)
    && (x.pc.ExitWakeInit? ==> x.pc.scan < |s.procs| && x.pc.k <= |s.procs|)
    && (x.pc.ExitWakeParent? ==> x.pc.k <= |s.procs|)
    && (x.pc.ExitWakeParent? && 0 <= x.parent < |s.procs| && WaitsForChild(s.procs[x.parent]) ==> x.pc.k <= x.parent)
  }

  /** What p, and whoever holds wait_lock, know about process j. */
  predicate PairOk(s: State, p: nat, j: nat)
    requires p < |s.procs| && j < |s.procs|
  {
    var x, y := s.procs[p], s.procs[j];
    y.parent == p ==>
      && (x.pc.Exit? ==> x.pc.scan <= j)
      && (x.pc.ExitWakeInit? ==> x.pc.scan < j)
      && !x.pc.ExitWakeParent?
      && (x.pc.Wait? && j < x.pc.scan ==> y.state != ZOMBIE)
      && (x.pc == WaitReg ==> y.state != ZOMBIE)
      && (WaitsForChild(x) && y.state == ZOMBIE ==>
            p == INIT && 0 <= s.wait < |s.procs| && s.procs[s.wait].pc.ExitWakeInit? && s.procs[s.wait].pc.k <= INIT)
  }

  predicate POk(s: State, p: nat)
    requires p < |s.procs|
  {
    SelfOk(s, p) && MakerOk(s, p) && MakesOk(s, p) && ParentOk(s, p) && ScanOk(s, p)
  }

  ghost predicate ProcsOk(s: State) { forall p: nat :: p < |s.procs| ==> POk(s, p) }

  ghost predicate PairsOk(s: State) { forall p: nat, j: nat :: p < |s.procs| && j < |s.procs| ==> PairOk(s, p, j) }

  ghost predicate CpusOk(s: State) { forall c: nat :: c < |s.cpus| ==> CpuOk(s, c) }

  ghost predicate Inv(s: State) {
    INIT < |s.procs| && -1 <= s.wait < |s.procs| && ProcsOk(s) && PairsOk(s) && CpusOk(s)
  }

  /** The process a scheduling step is about. */
  function Subject(s: State, t: SchedStep): nat
    requires SchedEnabled(s, t)
  {
    match t
    case Dispatch(_, p) => p
    case Resume(p) => p
    case Yield(p) => p
    case SwtchOut(p) => p
    case SchedRelease(c) => s.cpus[c].ctl.p
    case OtherPrepare(p, _) => p
    case OtherSleep(p) => p
    case WakeVisit(j, _) => j
    case Kill(j, _) => j
  }

  predicate CpuKnown(s: State, t: SchedStep)
    requires SchedEnabled(s, t)
  {
    (t.Dispatch? ==> CpuOk(s, t.c)) && (t.SchedRelease? ==> CpuOk(s, t.c))
  }

  lemma SchedSelf(s: State, t: SchedStep, p: nat)
    requires SchedEnabled(s, t) && CpuKnown(s, t) && p < |s.procs| && SelfOk(s, p) && SelfOk(s, Subject(s, t))
    ensures SelfOk(SchedApply(s, t), p)
  {
  }

  lemma ForkSelf(s: State, t: ForkStep, p: nat)
    requires ForkEnabled(s, t) && p < |s.procs| && SelfOk(s, p) && SelfOk(s, t.p) && MakerOk(s, p) && MakesOk(s, t.p)
    ensures SelfOk(ForkApply(s, t), p)
  {
  }

  lemma ExitSelf(s: State, t: ExitStep, p: nat)
    requires ExitEnabled(s, t) && p < |s.procs| && SelfOk(s, p) && SelfOk(s, t.p) && ParentOk(s, p)
    ensures SelfOk(ExitApply(s, t), p)
  {
    hide StackOk, PcOk;
    ExitStack(s, t, p);
    ExitPc(s, t, p);
  }

  lemma ExitStack(s: State, t: ExitStep, p: nat)
    requires ExitEnabled(s, t) && p < |s.procs| && SelfOk(s, p) && SelfOk(s, t.p)
    ensures p < |ExitApply(s, t).procs| && StackOk(ExitApply(s, t).cpus, ExitApply(s, t).procs[p], p)
  {
    hide PcOk;
  }

  lemma ExitPc(s: State, t: ExitStep, p: nat)
    requires ExitEnabled(s, t) && p < |s.procs| && SelfOk(s, p) && SelfOk(s, t.p) && ParentOk(s, p)
    ensures p < |ExitApply(s, t).procs| && PcOk(ExitApply(s, t).wait, ExitApply(s, t).procs[p], p)
  {
  }

  lemma WaitSelf(s: State, t: WaitStep, p: nat)
    requires WaitEnabled(s, t) && p < |s.procs| && SelfOk(s, p) && SelfOk(s, t.p)
    ensures SelfOk(WaitApply(s, t), p)
  {
    hide StackOk, PcOk;
    WaitStack(s, t, p);
    WaitPc(s, t, p);
  }

  lemma WaitStack(s: State, t: WaitStep, p: nat)
    requires WaitEnabled(s, t) && p < |s.procs| && SelfOk(s, p) && SelfOk(s, t.p)
    ensures p < |WaitApply(s, t).procs| && StackOk(WaitApply(s, t).cpus, WaitApply(s, t).procs[p], p)
  {
  }

  lemma WaitPc(s: State, t: WaitStep, p: nat)
    requires WaitEnabled(s, t) && p < |s.procs| && SelfOk(s, p) && SelfOk(s, t.p)
    ensures p < |WaitApply(s, t).procs| && PcOk(WaitApply(s, t).wait, WaitApply(s, t).procs[p], p)
  {
  }

  lemma SchedMaker(s: State, t: SchedStep, p: nat)
    requires SchedEnabled(s, t) && CpuKnown(s, t) && p < |s.procs| && SelfOk(s, p) && SelfOk(s, Subject(s, t)) && MakerOk(s, p)
    requires MakesOk(s, Subject(s, t))
    requires 0 <= s.procs[p].maker < |s.procs| ==> SelfOk(s, s.procs[p].maker)
    ensures MakerOk(SchedApply(s, t), p)
  {
  }

  lemma ForkMaker(s: State, t: ForkStep, p: nat)
    requires ForkEnabled(s, t) && p < |s.procs| && SelfOk(s, p) && SelfOk(s, t.p) && MakerOk(s, p)
    requires MakesOk(s, t.p) && ParentOk(s, t.p)
    requires 0 <= s.procs[p].maker < |s.procs| ==> SelfOk(s, s.procs[p].maker)
    ensures MakerOk(ForkApply(s, t), p)
  {
    hide StackOk;
  }

  lemma ExitMaker(s: State, t: ExitStep, p: nat)
    requires ExitEnabled(s, t) && p < |s.procs| && SelfOk(s, p) && SelfOk(s, t.p) && MakerOk(s, p)
    requires MakesOk(s, t.p)
    requires 0 <= s.procs[p].maker < |s.procs| ==> SelfOk(s, s.procs[p].maker)
    ensures MakerOk(ExitApply(s, t), p)
  {
    hide StackOk;
  }

  lemma WaitMaker(s: State, t: WaitStep, p: nat)
    requires WaitEnabled(s, t) && p < |s.procs| && SelfOk(s, p) && SelfOk(s, t.p) && MakerOk(s, p)
    requires MakesOk(s, t.p)
    requires 0 <= s.procs[p].maker < |s.procs| ==> SelfOk(s, s.procs[p].maker)
    ensures MakerOk(WaitApply(s, t), p)
  {
    hide StackOk;
  }

  lemma SchedMakes(s: State, t: SchedStep, p: nat)
    requires SchedEnabled(s, t) && CpuKnown(s, t) && p < |s.procs| && SelfOk(s, p) && SelfOk(s, Subject(s, t)) && MakesOk(s, p)
    requires MakesOk(s, Subject(s, t)) && SelfOk(s, Made(s.procs[p], p))
    ensures MakesOk(SchedApply(s, t), p)
  {
    hide StackOk;
  }

  lemma ForkMakes(s: State, t: ForkStep, p: nat)
    requires ForkEnabled(s, t) && p < |s.procs| && SelfOk(s, p) && SelfOk(s, t.p) && MakesOk(s, p)
    requires MakesOk(s, t.p) && SelfOk(s, Made(s.procs[p], p))
    ensures MakesOk(ForkApply(s, t), p)
  {
    hide StackOk;
  }

  lemma ExitMakes(s: State, t: ExitStep, p: nat)
    requires ExitEnabled(s, t) && p < |s.procs| && SelfOk(s, p) && SelfOk(s, t.p) && MakesOk(s, p)
    requires MakesOk(s, t.p) && SelfOk(s, Made(s.procs[p], p))
    ensures MakesOk(ExitApply(s, t), p)
  {
    hide StackOk;
  }

  lemma WaitMakes(s: State, t: WaitStep, p: nat)
    requires WaitEnabled(s, t) && p < |s.procs| && SelfOk(s, p) && SelfOk(s, t.p) && MakesOk(s, p)
    requires MakesOk(s, t.p) && SelfOk(s, Made(s.procs[p], p))
    ensures MakesOk(WaitApply(s, t), p)
  {
    hide StackOk;
  }

  lemma SchedParent(s: State, t: SchedStep, p: nat)
    requires SchedEnabled(s, t) && CpuKnown(s, t) && p < |s.procs| && SelfOk(s, p) && SelfOk(s, Subject(s, t)) && ParentOk(s, p)
    requires MakerOk(s, p) && MakesOk(s, Subject(s, t)) && ParentOk(s, Subject(s, t)) && SelfOk(s, INIT) && ParentOk(s, INIT)
    ensures ParentOk(SchedApply(s, t), p)
  {
    hide StackOk;
  }

  lemma ForkParentStart(s: State, t: ForkStep, p: nat)
    requires ForkEnabled(s, t) && (t.ForkAlloc? || t.ForkFail?) && p < |s.procs| && SelfOk(s, p) && SelfOk(s, t.p) && ParentOk(s, p)
    requires MakerOk(s, p) && MakesOk(s, t.p) && ParentOk(s, t.p) && SelfOk(s, INIT) && ParentOk(s, INIT)
    requires SelfOk(s, Made(s.procs[t.p], t.p))
    ensures ParentOk(ForkApply(s, t), p)
  {
    hide StackOk;
  }

  lemma ForkParentRest(s: State, t: ForkStep, p: nat)
    requires ForkEnabled(s, t) && !t.ForkAlloc? && !t.ForkFail? && p < |s.procs| && SelfOk(s, p) && SelfOk(s, t.p) && ParentOk(s, p)
    requires MakerOk(s, p) && MakesOk(s, t.p) && ParentOk(s, t.p) && SelfOk(s, INIT) && ParentOk(s, INIT)
    requires SelfOk(s, Made(s.procs[t.p], t.p))
    ensures ParentOk(ForkApply(s, t), p)
  {
    hide StackOk;
  }

  lemma ExitParent(s: State, t: ExitStep, p: nat)
    requires ExitEnabled(s, t) && p < |s.procs| && SelfOk(s, p) && SelfOk(s, t.p) && ParentOk(s, p)
    requires ParentOk(s, t.p) && SelfOk(s, INIT) && ParentOk(s, INIT) && PairOk(s, t.p, p)
    ensures ParentOk(ExitApply(s, t), p)
  {
    hide StackOk, PcOk, PairOk, ParentOk, Visited;
    if t.ExitZombie? { ExitZombieParent(s, t, p); }
    else if t.ExitVisit? { ExitVisitParent(s, t, p); }
    else { ExitWakeParentOk(s, t, p); }
  }

  lemma ExitZombieParent(s: State, t: ExitStep, p: nat)
    requires ExitEnabled(s, t) && t.ExitZombie? && p < |s.procs| && SelfOk(s, p) && SelfOk(s, t.p) && ParentOk(s, p)
    requires ParentOk(s, t.p) && SelfOk(s, INIT) && ParentOk(s, INIT) && PairOk(s, t.p, p)
    ensures ParentOk(ExitApply(s, t), p)
  {
    hide StackOk;
  }

  lemma ExitVisitParent(s: State, t: ExitStep, p: nat)
    requires ExitEnabled(s, t) && t.ExitVisit? && p < |s.procs| && SelfOk(s, p) && SelfOk(s, t.p) && ParentOk(s, p)
    requires ParentOk(s, t.p) && SelfOk(s, INIT) && ParentOk(s, INIT)
    ensures ParentOk(ExitApply(s, t), p)
  {
    hide StackOk;
  }

  lemma ExitWakeParentOk(s: State, t: ExitStep, p: nat)
    requires ExitEnabled(s, t) && !t.ExitZombie? && !t.ExitVisit? && p < |s.procs| && ParentOk(s, p)
    ensures ParentOk(ExitApply(s, t), p)
  {
    hide Visited;
    var x := s.procs[t.p];
    if t.ExitWakeInitVisit? && x.pc.k < |s.procs| { VisitedKeeps(s.procs[x.pc.k], Child(INIT)); }
    if t.ExitWakeParentVisit? { VisitedKeeps(s.procs[x.pc.k], ParentChan(x)); }
  }

  lemma VisitedKeeps(x: Proc, chan: Chan)
    ensures var y := Visited(x, chan);
            && y.pid == x.pid && y.parent == x.parent && Alive(y) == Alive(x)
            && (y.state == UNUSED <==> x.state == UNUSED) && (y.state == ZOMBIE <==> x.state == ZOMBIE)
  {
  }

  lemma WaitParent(s: State, t: WaitStep, p: nat)
    requires WaitEnabled(s, t) && p < |s.procs| && SelfOk(s, p) && SelfOk(s, t.p) && ParentOk(s, p)
    requires ParentOk(s, t.p) && SelfOk(s, INIT) && ParentOk(s, INIT)
    ensures ParentOk(WaitApply(s, t), p)
  {
    if t.WaitVisit? { WaitVisitParent(s, t.p, p); } else { WaitOtherParent(s, t, p); }
  }

  lemma WaitVisitParent(s: State, w: nat, p: nat)
    requires WaitEnabled(s, WaitVisit(w)) && p < |s.procs| && SelfOk(s, p) && SelfOk(s, w) && ParentOk(s, p)
    requires SelfOk(s, INIT) && ParentOk(s, INIT)
    ensures ParentOk(WaitApply(s, WaitVisit(w)), p)
  {
    hide StackOk, PcOk;
  }

  lemma WaitOtherParent(s: State, t: WaitStep, p: nat)
    requires WaitEnabled(s, t) && !t.WaitVisit? && p < |s.procs| && SelfOk(s, t.p) && ParentOk(s, p)
    ensures ParentOk(WaitApply(s, t), p)
  {
    hide StackOk, Freed;
  }

  lemma SchedScan(s: State, t: SchedStep, p: nat)
    requires SchedEnabled(s, t) && CpuKnown(s, t) && p < |s.procs| && SelfOk(s, p) && SelfOk(s, Subject(s, t)) && ScanOk(s, p)
    requires MakerOk(s, p) && MakesOk(s, Subject(s, t)) && (0 <= s.procs[p].parent < |s.procs| ==> SelfOk(s, s.procs[p].parent))
    ensures ScanOk(SchedApply(s, t), p)
  {
    hide StackOk;
  }

  lemma ForkScan(s: State, t: ForkStep, p: nat)
    requires ForkEnabled(s, t) && p < |s.procs| && SelfOk(s, p) && SelfOk(s, t.p) && ScanOk(s, p)
    requires MakerOk(s, p) && MakesOk(s, t.p) && (0 <= s.procs[p].parent < |s.procs| ==> SelfOk(s, s.procs[p].parent))
    ensures ScanOk(ForkApply(s, t), p)
  {
    hide StackOk;
  }

  lemma ExitScan(s: State, t: ExitStep, p: nat)
    requires ExitEnabled(s, t) && p < |s.procs| && SelfOk(s, p) && SelfOk(s, t.p) && ScanOk(s, p)
    requires MakerOk(s, p) && MakesOk(s, t.p) && (0 <= s.procs[p].parent < |s.procs| ==> SelfOk(s, s.procs[p].parent))
    ensures ScanOk(ExitApply(s, t), p)
  {
    hide StackOk;
  }

  lemma WaitScan(s: State, t: WaitStep, p: nat)
    requires WaitEnabled(s, t) && p < |s.procs| && SelfOk(s, p) && SelfOk(s, t.p) && ScanOk(s, p)
    requires MakerOk(s, p) && MakesOk(s, t.p) && (0 <= s.procs[p].parent < |s.procs| ==> SelfOk(s, s.procs[p].parent))
    ensures ScanOk(WaitApply(s, t), p)
  {
    hide StackOk;
  }

  lemma SchedCpu(s: State, t: SchedStep, c: nat)
    requires SchedEnabled(s, t) && CpuKnown(s, t) && c < |s.cpus| && CpuOk(s, c) && SelfOk(s, Subject(s, t))
    requires MakesOk(s, Subject(s, t)) && (s.cpus[c].ctl != Loop ==> SelfOk(s, s.cpus[c].ctl.p))
    ensures CpuOk(SchedApply(s, t), c)
  {
  }

  lemma ForkCpu(s: State, t: ForkStep, c: nat)
    requires ForkEnabled(s, t) && c < |s.cpus| && CpuOk(s, c) && SelfOk(s, t.p)
    requires MakesOk(s, t.p) && (s.cpus[c].ctl != Loop ==> SelfOk(s, s.cpus[c].ctl.p))
    ensures CpuOk(ForkApply(s, t), c)
  {
  }

  lemma ExitCpu(s: State, t: ExitStep, c: nat)
    requires ExitEnabled(s, t) && c < |s.cpus| && CpuOk(s, c) && SelfOk(s, t.p)
    requires MakesOk(s, t.p) && (s.cpus[c].ctl != Loop ==> SelfOk(s, s.cpus[c].ctl.p))
    ensures CpuOk(ExitApply(s, t), c)
  {
  }

  lemma WaitCpu(s: State, t: WaitStep, c: nat)
    requires WaitEnabled(s, t) && c < |s.cpus| && CpuOk(s, c) && SelfOk(s, t.p)
    requires MakesOk(s, t.p) && (s.cpus[c].ctl != Loop ==> SelfOk(s, s.cpus[c].ctl.p))
    ensures CpuOk(WaitApply(s, t), c)
  {
  }

  lemma SchedPair(s: State, t: SchedStep, p: nat, j: nat)
    requires SchedEnabled(s, t) && CpuKnown(s, t) && p < |s.procs| && j < |s.procs| && -1 <= s.wait < |s.procs|
    requires SelfOk(s, p) && SelfOk(s, j) && SelfOk(s, Subject(s, t)) && ScanOk(s, Subject(s, t)) && MakesOk(s, Subject(s, t)) && MakerOk(s, j)
    requires PairOk(s, p, j) && (s.wait >= 0 ==> SelfOk(s, s.wait))
    ensures PairOk(SchedApply(s, t), p, j)
  {
    hide StackOk;
  }

  lemma ForkPair(s: State, t: ForkStep, p: nat, j: nat)
    requires ForkEnabled(s, t) && p < |s.procs| && j < |s.procs| && -1 <= s.wait < |s.procs|
    requires SelfOk(s, p) && SelfOk(s, t.p) && MakesOk(s, t.p) && MakerOk(s, j) && PairOk(s, p, j)
    requires s.wait >= 0 ==> SelfOk(s, s.wait)
    ensures PairOk(ForkApply(s, t), p, j)
  {
    hide StackOk;
  }

  lemma ExitPair(s: State, t: ExitStep, p: nat, j: nat)
    requires ExitEnabled(s, t) && p < |s.procs| && j < |s.procs| && -1 <= s.wait < |s.procs|
    requires SelfOk(s, p) && SelfOk(s, j) && SelfOk(s, t.p) && ScanOk(s, t.p) && MakesOk(s, t.p) && MakerOk(s, j)
    requires PairOk(s, p, j) && (s.wait >= 0 ==> SelfOk(s, s.wait))
    ensures PairOk(ExitApply(s, t), p, j)
  {
    hide SelfOk, ScanOk, PairOk, MakesOk, MakerOk;
    if t.ExitWakeParentVisit? || t.ExitZombie? { ExitLatePair(s, t, p, j); } else { ExitEarlyPair(s, t, p, j); }
  }

  lemma ExitEarlyPair(s: State, t: ExitStep, p: nat, j: nat)
    requires ExitEnabled(s, t) && !t.ExitWakeParentVisit? && !t.ExitZombie? && p < |s.procs| && j < |s.procs| && -1 <= s.wait < |s.procs|
    requires SelfOk(s, p) && SelfOk(s, j) && SelfOk(s, t.p) && ScanOk(s, t.p) && PairOk(s, p, j) && (s.wait >= 0 ==> SelfOk(s, s.wait))
    ensures PairOk(ExitApply(s, t), p, j)
  {
    hide StackOk;
  }

  lemma ExitLatePair(s: State, t: ExitStep, p: nat, j: nat)
    requires ExitEnabled(s, t) && (t.ExitWakeParentVisit? || t.ExitZombie?) && p < |s.procs| && j < |s.procs| && -1 <= s.wait < |s.procs|
    requires SelfOk(s, p) && SelfOk(s, j) && SelfOk(s, t.p) && ScanOk(s, t.p) && PairOk(s, p, j) && (s.wait >= 0 ==> SelfOk(s, s.wait))
    ensures PairOk(ExitApply(s, t), p, j)
  {
    hide StackOk;
  }

  lemma WaitPair(s: State, t: WaitStep, p: nat, j: nat)
    requires WaitEnabled(s, t) && p < |s.procs| && j < |s.procs| && -1 <= s.wait < |s.procs|
    requires SelfOk(s, p) && SelfOk(s, j) && SelfOk(s, t.p) && ScanOk(s, t.p) && MakesOk(s, t.p) && MakerOk(s, j)
    requires PairOk(s, p, j) && (s.wait >= 0 ==> SelfOk(s, s.wait))
    ensures PairOk(WaitApply(s, t), p, j)
  {
    hide StackOk, MakesOk, MakerOk, ScanOk;
  }

  /** What is known about the processes that p refers to. */
  lemma Neighbours(s: State, p: nat)
    requires Inv(s) && p < |s.procs|
    ensures POk(s, p) && POk(s, Made(s.procs[p], p))
    ensures 0 <= s.procs[p].maker < |s.procs| ==> POk(s, s.procs[p].maker)
    ensures 0 <= s.procs[p].parent < |s.procs| ==> POk(s, s.procs[p].parent)
  {
    assert POk(s, p);
  }

  lemma SchedPOk(s: State, t: SchedStep, p: nat)
    requires Inv(s) && SchedEnabled(s, t) && p < |s.procs|
    ensures POk(SchedApply(s, t), p)
  {
    Neighbours(s, p);
    Neighbours(s, Subject(s, t));
    Neighbours(s, INIT);
    assert CpuKnown(s, t);
    SchedSelf(s, t, p);
    SchedMaker(s, t, p);
    SchedMakes(s, t, p);
    SchedParent(s, t, p);
    SchedScan(s, t, p);
  }

  lemma SchedPairOk(s: State, t: SchedStep, p: nat, j: nat)
    requires Inv(s) && SchedEnabled(s, t) && p < |s.procs| && j < |s.procs|
    ensures PairOk(SchedApply(s, t), p, j)
  {
    assert POk(s, p) && POk(s, j) && POk(s, Subject(s, t)) && (s.wait >= 0 ==> POk(s, s.wait)) && PairOk(s, p, j);
    assert CpuKnown(s, t);
    SchedPair(s, t, p, j);
  }

  lemma SchedCpuOk(s: State, t: SchedStep, c: nat)
    requires Inv(s) && SchedEnabled(s, t) && c < |s.cpus|
    ensures CpuOk(SchedApply(s, t), c)
  {
    assert CpuOk(s, c) && POk(s, Subject(s, t)) && (s.cpus[c].ctl != Loop ==> POk(s, s.cpus[c].ctl.p));
    assert CpuKnown(s, t);
    SchedCpu(s, t, c);
  }

  lemma ForkPOk(s: State, t: ForkStep, p: nat)
    requires Inv(s) && ForkEnabled(s, t) && p < |s.procs|
    ensures POk(ForkApply(s, t), p)
  {
    Neighbours(s, p);
    Neighbours(s, t.p);
    Neighbours(s, INIT);
    ForkSelf(s, t, p);
    ForkMaker(s, t, p);
    ForkMakes(s, t, p);
    if t.ForkAlloc? || t.ForkFail? { ForkParentStart(s, t, p); } else { ForkParentRest(s, t, p); }
    ForkScan(s, t, p);
  }

  lemma ForkPairOk(s: State, t: ForkStep, p: nat, j: nat)
    requires Inv(s) && ForkEnabled(s, t) && p < |s.procs| && j < |s.procs|
    ensures PairOk(ForkApply(s, t), p, j)
  {
    assert POk(s, p) && POk(s, j) && POk(s, t.p) && (s.wait >= 0 ==> POk(s, s.wait)) && PairOk(s, p, j);
    ForkPair(s, t, p, j);
  }

  lemma ForkCpuOk(s: State, t: ForkStep, c: nat)
    requires Inv(s) && ForkEnabled(s, t) && c < |s.cpus|
    ensures CpuOk(ForkApply(s, t), c)
  {
    assert CpuOk(s, c) && POk(s, t.p) && (s.cpus[c].ctl != Loop ==> POk(s, s.cpus[c].ctl.p));
    ForkCpu(s, t, c);
  }

  lemma ExitPOk(s: State, t: ExitStep, p: nat)
    requires Inv(s) && ExitEnabled(s, t) && p < |s.procs|
    ensures POk(ExitApply(s, t), p)
  {
    Neighbours(s, p);
    Neighbours(s, t.p);
    Neighbours(s, INIT);
    assert PairOk(s, t.p, p);
    ExitSelf(s, t, p);
    ExitMaker(s, t, p);
    ExitMakes(s, t, p);
    ExitParent(s, t, p);
    ExitScan(s, t, p);
  }

  lemma ExitPairOk(s: State, t: ExitStep, p: nat, j: nat)
    requires Inv(s) && ExitEnabled(s, t) && p < |s.procs| && j < |s.procs|
    ensures PairOk(ExitApply(s, t), p, j)
  {
    assert POk(s, p) && POk(s, j) && POk(s, t.p) && (s.wait >= 0 ==> POk(s, s.wait)) && PairOk(s, p, j);
    ExitPair(s, t, p, j);
  }

  lemma ExitCpuOk(s: State, t: ExitStep, c: nat)
    requires Inv(s) && ExitEnabled(s, t) && c < |s.cpus|
    ensures CpuOk(ExitApply(s, t), c)
  {
    assert CpuOk(s, c) && POk(s, t.p) && (s.cpus[c].ctl != Loop ==> POk(s, s.cpus[c].ctl.p));
    ExitCpu(s, t, c);
  }

  lemma WaitPOk(s: State, t: WaitStep, p: nat)
    requires Inv(s) && WaitEnabled(s, t) && p < |s.procs|
    ensures POk(WaitApply(s, t), p)
  {
    Neighbours(s, p);
    Neighbours(s, t.p);
    Neighbours(s, INIT);
    WaitSelf(s, t, p);
    WaitMaker(s, t, p);
    WaitMakes(s, t, p);
    WaitParent(s, t, p);
    WaitScan(s, t, p);
  }

  lemma WaitPairOk(s: State, t: WaitStep, p: nat, j: nat)
    requires Inv(s) && WaitEnabled(s, t) && p < |s.procs| && j < |s.procs|
    ensures PairOk(WaitApply(s, t), p, j)
  {
    assert POk(s, p) && POk(s, j) && POk(s, t.p) && (s.wait >= 0 ==> POk(s, s.wait)) && PairOk(s, p, j);
    WaitPair(s, t, p, j);
  }

  lemma WaitCpuOk(s: State, t: WaitStep, c: nat)
    requires Inv(s) && WaitEnabled(s, t) && c < |s.cpus|
    ensures CpuOk(WaitApply(s, t), c)
  {
    assert CpuOk(s, c) && POk(s, t.p) && (s.cpus[c].ctl != Loop ==> POk(s, s.cpus[c].ctl.p));
    WaitCpu(s, t, c);
  }

  lemma SchedKeepsInv(s: State, t: SchedStep)
    requires Inv(s) && SchedEnabled(s, t)
    ensures Inv(SchedApply(s, t))
  {
    var s1 := SchedApply(s, t);
    assert |s1.procs| == |s.procs| && |s1.cpus| == |s.cpus| && -1 <= s1.wait < |s1.procs|;
    forall p: nat | p < |s1.procs| ensures POk(s1, p) { SchedPOk(s, t, p); }
    forall p: nat, j: nat | p < |s1.procs| && j < |s1.procs| ensures PairOk(s1, p, j) { SchedPairOk(s, t, p, j); }
    forall c: nat | c < |s1.cpus| ensures CpuOk(s1, c) { SchedCpuOk(s, t, c); }
  }

  lemma ForkKeepsInv(s: State, t: ForkStep)
    requires Inv(s) && ForkEnabled(s, t)
    ensures Inv(ForkApply(s, t))
  {
    var s1 := ForkApply(s, t);
    assert |s1.procs| == |s.procs| && |s1.cpus| == |s.cpus| && -1 <= s1.wait < |s1.procs|;
    forall p: nat | p < |s1.procs| ensures POk(s1, p) { ForkPOk(s, t, p); }
    forall p: nat, j: nat | p < |s1.procs| && j < |s1.procs| ensures PairOk(s1, p, j) { ForkPairOk(s, t, p, j); }
    forall c: nat | c < |s1.cpus| ensures CpuOk(s1, c) { ForkCpuOk(s, t, c); }
  }

  lemma ExitKeepsInv(s: State, t: ExitStep)
    requires Inv(s) && ExitEnabled(s, t)
    ensures Inv(ExitApply(s, t))
  {
    var s1 := ExitApply(s, t);
    assert |s1.procs| == |s.procs| && |s1.cpus| == |s.cpus| && -1 <= s1.wait < |s1.procs|;
    forall p: nat | p < |s1.procs| ensures POk(s1, p) { ExitPOk(s, t, p); }
    forall p: nat, j: nat | p < |s1.procs| && j < |s1.procs| ensures PairOk(s1, p, j) { ExitPairOk(s, t, p, j); }
    forall c: nat | c < |s1.cpus| ensures CpuOk(s1, c) { ExitCpuOk(s, t, c); }
  }

  lemma WaitKeepsInv(s: State, t: WaitStep)
    requires Inv(s) && WaitEnabled(s, t)
    ensures Inv(WaitApply(s, t))
  {
    var s1 := WaitApply(s, t);
    assert |s1.procs| == |s.procs| && |s1.cpus| == |s.cpus| && -1 <= s1.wait < |s1.procs|;
    forall p: nat | p < |s1.procs| ensures POk(s1, p) { WaitPOk(s, t, p); }
    forall p: nat, j: nat | p < |s1.procs| && j < |s1.procs| ensures PairOk(s1, p, j) { WaitPairOk(s, t, p, j); }
    forall c: nat | c < |s1.cpus| ensures CpuOk(s1, c) { WaitCpuOk(s, t, c); }
  }

  /** Every step keeps the invariant. */
  lemma StepKeepsInv(s: State, t: Step)
    requires Inv(s) && Enabled(s, t)
    ensures Inv(Apply(s, t))
  {
    match t
    case Sched(a) => SchedKeepsInv(s, a);
    case Forking(f) => ForkKeepsInv(s, f);
    case Exiting(e) => ExitKeepsInv(s, e);
    case Waiting(w) => WaitKeepsInv(s, w);
  }

  ghost predicate RunOk(s: State, ts: seq<Step>)
    decreases ts
  {
    ts != [] ==> Enabled(s, ts[0]) && RunOk(Apply(s, ts[0]), ts[1..])
  }

  ghost function After(s: State, ts: seq<Step>): State
    requires RunOk(s, ts)
    decreases ts
  {
    if ts == [] then s else After(Apply(s, ts[0]), ts[1..])
  }

  lemma {:induction false} RunKeepsInv(s: State, ts: seq<Step>)
    requires Inv(s) && RunOk(s, ts)
    ensures Inv(After(s, ts))
    decreases ts
  {
    if ts != [] {
      StepKeepsInv(s, ts[0]);
      RunKeepsInv(Apply(s, ts[0]), ts[1..]);
    }
  }

  const FREE_SLOT := Proc(UNUSED, 0, -1, NoChan, false, -1, -1, Steady, Run, -1)

  /** After userinit(): init is runnable, every other slot is unused, and every CPU is in scheduler(). */
  ghost predicate Init(s: State) {
    && INIT < |s.procs| && s.wait == -1 && s.nextpid == 2
    && s.procs[INIT] == FREE_SLOT.(state := RUNNABLE, pid := 1)
    && (forall p: nat :: p < |s.procs| && p != INIT ==> s.procs[p] == FREE_SLOT)
    && (forall c: nat :: c < |s.cpus| ==> s.cpus[c] == Cpu(-1, Loop))
  }

  lemma InitInv(s: State)
    requires Init(s)
    ensures Inv(s)
  {
    forall p: nat | p < |s.procs| ensures POk(s, p) { assert p != INIT ==> s.procs[p] == FREE_SLOT; }
    forall p: nat, j: nat | p < |s.procs| && j < |s.procs| ensures PairOk(s, p, j) {
      assert j != INIT ==> s.procs[j] == FREE_SLOT;
    }
  }

  /** In every interleaving, with p->lock free, p is RUNNING exactly if one CPU executes it; that CPU is
      the only one, its c->proc says so, and a zombie or unused process is off its kernel stack. */
  lemma OneCpuPerProcess(s: State, ts: seq<Step>, p: nat, c1: nat, c2: nat)
    requires Init(s) && RunOk(s, ts) && p < |After(s, ts).procs|
    requires c1 < |After(s, ts).cpus| && c2 < |After(s, ts).cpus|
    ensures var s1 := After(s, ts);
            var x := s1.procs[p];
            && (x.lock == -1 ==> (x.state == RUNNING <==> 0 <= x.on < |s1.cpus| && s1.cpus[x.on] == Cpu(p, Thread(p))))
            && (s1.cpus[c1].ctl == Thread(p) ==> s1.cpus[c1].proc == p)
            && (s1.cpus[c1].ctl == Thread(p) && s1.cpus[c2].ctl == Thread(p) ==> c1 == c2)
            && (x.lock == -1 && (x.state == ZOMBIE || x.state == UNUSED) ==> s1.cpus[c1].ctl != Thread(p))
  {
    InitInv(s);
    RunKeepsInv(s, ts);
    var s1 := After(s, ts);
    assert POk(s1, p) && CpuOk(s1, c1) && CpuOk(s1, c2);
  }

  /** kwait() frees a zombie only when no CPU is on its kernel stack any more. */
  lemma FreedOffStack(s: State, ts: seq<Step>, p: nat, c: nat)
    requires Init(s) && RunOk(s, ts)
    requires var s1 := After(s, ts);
             && WaitEnabled(s1, WaitVisit(p)) && s1.procs[s1.procs[p].pc.scan].parent == p
             && s1.procs[s1.procs[p].pc.scan].state == ZOMBIE && c < |s1.cpus|
    ensures var s1 := After(s, ts);
            var j := s1.procs[p].pc.scan;
            && s1.cpus[c].ctl != Thread(j) && s1.cpus[c].ctl != Returned(j)
            && WaitApply(s1, WaitVisit(p)).procs[j].state == UNUSED
  {
    InitInv(s);
    RunKeepsInv(s, ts);
    var s1 := After(s, ts);
    assert POk(s1, s1.procs[p].pc.scan) && POk(s1, p) && CpuOk(s1, c);
  }

  /** A process between kfork() setting its parent and kwait() freeing it. */
  predicate Born(x: Proc) { Alive(x) || x.state == ZOMBIE }

  /** In every interleaving, every process but init that is alive or a zombie has a parent that is neither
      unused nor a zombie, with a smaller pid. */
  lemma ParentIsAlive(s: State, ts: seq<Step>, p: nat)
    requires Init(s) && RunOk(s, ts) && p < |After(s, ts).procs| && p != INIT && Born(After(s, ts).procs[p])
    ensures var s1 := After(s, ts);
            var q := s1.procs[p].parent;
            0 <= q < |s1.procs| && Alive(s1.procs[q]) && s1.procs[q].pid < s1.procs[p].pid
  {
    InitInv(s);
    RunKeepsInv(s, ts);
    assert POk(After(s, ts), p);
  }

  /** Following parents from any such process ends at init. */
  lemma {:induction false} ChainToInit(s: State, p: nat) returns (chain: seq<nat>)
    requires Inv(s) && p < |s.procs| && Born(s.procs[p])
    ensures |chain| > 0 && chain[0] == p && chain[|chain| - 1] == INIT
    ensures forall k: nat :: k < |chain| ==> chain[k] < |s.procs|
    ensures forall k: nat :: k < |chain| - 1 ==> s.procs[chain[k]].parent == chain[k + 1]
    decreases s.procs[p].pid
  {
    assert POk(s, p);
    if p == INIT {
      chain := [p];
    } else {
      var rest := ChainToInit(s, s.procs[p].parent);
      chain := [p] + rest;
    }
  }

  /** In every interleaving, with wait_lock free, no process with a zombie child sleeps in kwait() or is
      about to. */
  lemma NoLostChild(s: State, ts: seq<Step>, p: nat, j: nat)
    requires Init(s) && RunOk(s, ts) && p < |After(s, ts).procs| && j < |After(s, ts).procs|
    requires After(s, ts).wait == -1
    ensures var s1 := After(s, ts);
            s1.procs[j].parent == p && s1.procs[j].state == ZOMBIE ==>
              !(s1.procs[p].state == SLEEPING && s1.procs[p].chan == Child(p))
              && !(s1.procs[p].pc == WaitDrop && s1.procs[p].chan == Child(p))
  {
    InitInv(s);
    RunKeepsInv(s, ts);
    assert PairOk(After(s, ts), p, j) && POk(After(s, ts), p);
  }

  /** havekids says whether the scan of kwait() has come past a child. */
  ghost predicate KidsOk(s: State, p: nat)
    requires p < |s.procs|
  {
    s.procs[p].pc.Wait? ==>
      (s.procs[p].pc.havekids <==> exists j: nat :: j < s.procs[p].pc.scan && j < |s.procs| && s.procs[j].parent == p)
  }

  /** Process j has the parent it had, and p is where it was in kwait(), if it was there. */
  predicate KidStays(s: State, s1: State, p: nat, j: nat)
    requires p < |s.procs| && j < |s.procs|
  {
    && |s1.procs| == |s.procs|
    && (s.procs[p].pc.Wait? ==> s1.procs[j].parent == s.procs[j].parent && s1.procs[p].pc == s.procs[p].pc)
    && (!s.procs[p].pc.Wait? ==> !s1.procs[p].pc.Wait?)
  }

  lemma SchedKidStays(s: State, t: SchedStep, p: nat, j: nat)
    requires SchedEnabled(s, t) && p < |s.procs| && j < |s.procs|
    ensures KidStays(s, SchedApply(s, t), p, j)
  {
  }

  lemma ForkKidStays(s: State, t: ForkStep, p: nat, j: nat)
    requires ForkEnabled(s, t) && p < |s.procs| && j < |s.procs| && SelfOk(s, p) && SelfOk(s, j) && SelfOk(s, t.p)
    requires MakerOk(s, j) && MakesOk(s, t.p)
    ensures KidStays(s, ForkApply(s, t), p, j)
  {
    hide StackOk;
  }

  lemma ExitKidStays(s: State, t: ExitStep, p: nat, j: nat)
    requires ExitEnabled(s, t) && p < |s.procs| && j < |s.procs| && SelfOk(s, p) && SelfOk(s, t.p)
    ensures KidStays(s, ExitApply(s, t), p, j)
  {
    hide StackOk;
  }

  lemma WaitKidStays(s: State, t: WaitStep, p: nat, j: nat)
    requires WaitEnabled(s, t) && t.p != p && p < |s.procs| && j < |s.procs| && SelfOk(s, p) && SelfOk(s, t.p)
    ensures KidStays(s, WaitApply(s, t), p, j)
  {
    hide StackOk;
  }

  /** Nobody else changes a parent while p holds wait_lock. */
  lemma KidsStay(s: State, t: Step, p: nat, j: nat)
    requires Inv(s) && Enabled(s, t) && p < |s.procs| && j < |s.procs| && !(t.Waiting? && t.w.p == p)
    ensures KidStays(s, Apply(s, t), p, j)
  {
    hide SelfOk, MakerOk, MakesOk, ParentOk, ScanOk, PairOk, CpuOk, KidStays, SchedApply, ForkApply, ExitApply, WaitApply;
    assert POk(s, p) && POk(s, j);
    match t
    case Forking(f) =>
      assert POk(s, f.p);
      ForkKidStays(s, f, p, j);
    case Exiting(e) =>
      assert POk(s, e.p);
      ExitKidStays(s, e, p, j);
    case Waiting(w) =>
      assert POk(s, w.p);
      WaitKidStays(s, w, p, j);
    case Sched(a) => SchedKidStays(s, a, p, j);
  }

  lemma StepKeepsKids(s: State, t: Step, p: nat)
    requires Inv(s) && Enabled(s, t) && p < |s.procs| && KidsOk(s, p)
    ensures |Apply(s, t).procs| == |s.procs| && KidsOk(Apply(s, t), p)
  {
    hide Inv, SchedEnabled, SchedApply, ForkEnabled, ForkApply, ExitEnabled, ExitApply;
    var s1 := Apply(s, t);
    if t.Waiting? && t.w.p == p {
      WaitKeepsKids(s, t.w);
    } else {
      forall j: nat | j < |s.procs| ensures KidStays(s, s1, p, j) { KidsStay(s, t, p, j); }
      SameKids(s, s1, p);
    }
  }

  lemma SameKids(s: State, s1: State, p: nat)
    requires p < |s.procs| && KidsOk(s, p) && forall j: nat :: j < |s.procs| ==> KidStays(s, s1, p, j)
    ensures |s1.procs| == |s.procs| && KidsOk(s1, p)
  {
    assert KidStays(s, s1, p, p);
    if s.procs[p].pc.Wait? {
      if j: nat :| j < s.procs[p].pc.scan && j < |s.procs| && s.procs[j].parent == p { assert KidStays(s, s1, p, j) && s1.procs[j].parent == p; }
      if j: nat :| j < s1.procs[p].pc.scan && j < |s1.procs| && s1.procs[j].parent == p { assert KidStays(s, s1, p, j) && s.procs[j].parent == p; }
    }
  }

  lemma WaitKeepsKids(s: State, w: WaitStep)
    requires WaitEnabled(s, w) && KidsOk(s, w.p)
    ensures |WaitApply(s, w).procs| == |s.procs| && KidsOk(WaitApply(s, w), w.p)
  {
    var s1, p := WaitApply(s, w), w.p;
    var x := s.procs[p];
    if w.WaitVisit? {
      if s1.procs[p].pc.Wait? {
        assert s1.procs == s.procs[p := s1.procs[p]] && s1.procs[p].parent == x.parent;
        assert s.procs[x.pc.scan].parent == p ==> s1.procs[x.pc.scan].parent == p;
        if x.pc.havekids {
          var j: nat :| j < x.pc.scan && j < |s.procs| && s.procs[j].parent == p;
          assert s1.procs[j].parent == p;
        }
        if j: nat :| j < s1.procs[p].pc.scan && j < |s1.procs| && s1.procs[j].parent == p { assert s.procs[j].parent == p; }
      }
    }
  }

  lemma {:induction false} RunKeepsKids(s: State, ts: seq<Step>, p: nat)
    requires Inv(s) && RunOk(s, ts) && p < |s.procs| && KidsOk(s, p)
    ensures Inv(After(s, ts)) && |After(s, ts).procs| == |s.procs| && KidsOk(After(s, ts), p)
    decreases ts
  {
    hide Inv, Enabled, Apply, KidsOk;
    if ts != [] {
      StepKeepsKids(s, ts[0], p);
      StepKeepsInv(s, ts[0]);
      RunKeepsKids(Apply(s, ts[0]), ts[1..], p);
    }
  }

  /** In every interleaving a scan of kwait() that is complete knows whether there is a child, and none of the children is a zombie.
      So it gives up exactly without children or when killed, and waits only for a child that is there. */
  lemma WaitIsRight(s: State, ts: seq<Step>, p: nat)
    requires Init(s) && RunOk(s, ts) && p < |s.procs|
    ensures |After(s, ts).procs| == |s.procs|
    ensures var s1 := After(s, ts);
            var kids := exists j: nat :: j < |s1.procs| && s1.procs[j].parent == p;
            s1.procs[p].pc.Wait? && s1.procs[p].pc.scan == |s1.procs| ==>
              && (s1.procs[p].pc.havekids <==> kids)
              && (forall j: nat :: j < |s1.procs| && s1.procs[j].parent == p ==> s1.procs[j].state != ZOMBIE)
              && (WaitEnabled(s1, WaitQuit(p)) <==> !kids || s1.procs[p].killed)
              && (WaitEnabled(s1, WaitRegister(p)) <==> kids)
  {
    InitInv(s);
    RunKeepsKids(s, ts, p);
    var s1 := After(s, ts);
    assert POk(s1, p);
    forall j: nat | j < |s1.procs| && s1.procs[j].parent == p && s1.procs[p].pc.Wait? && s1.procs[p].pc.scan == |s1.procs|
      ensures s1.procs[j].state != ZOMBIE
    {
      assert PairOk(s1, p, j);
    }
  }

  /** wakeup(chan) visits process p in this step, or kkill() does. */
  predicate Wakes(s: State, t: Step, p: nat)
    requires Enabled(s, t) && p < |s.procs|
  {
    match t
    case Sched(a) => (a.WakeVisit? && a.j == p && s.procs[p].chan == a.chan) || (a.Kill? && a.j == p)
    case Exiting(e) =>
      var x := s.procs[e.p];
      || (e.ExitWakeInitVisit? && x.pc.k == p && s.procs[p].chan == Child(INIT))
      || (e.ExitWakeParentVisit? && x.pc.k == p && s.procs[p].chan == ParentChan(x))
    case _ => false
  }

  /** The life of a process: why its state changes, and to what. */
  function NextState(s: State, t: Step, p: nat): PState
    requires Enabled(s, t) && p < |s.procs|
  {
    var x := s.procs[p];
    if x.state == UNUSED && t.Forking? && t.f.ForkAlloc? && t.f.np == p then USED
    else if x.state == USED && t == Forking(ForkFail(if x.maker < 0 then 0 else x.maker)) then UNUSED
    else if x.state == USED && t == Forking(ForkReady(if x.maker < 0 then 0 else x.maker)) then RUNNABLE
    else if x.state == RUNNABLE && t.Sched? && t.a.Dispatch? && t.a.p == p then RUNNING
    else if x.state == RUNNING && t == Sched(Yield(p)) then RUNNABLE
    else if x.state == RUNNING && (t == Sched(OtherSleep(p)) || t == Waiting(WaitSleep(p))) && x.chan != NoChan then SLEEPING
    else if x.state == SLEEPING && Wakes(s, t, p) then RUNNABLE
    else if x.state == RUNNING && t == Exiting(ExitZombie(p)) then ZOMBIE
    else if x.state == ZOMBIE && t.Waiting? && t.w.WaitVisit? && x.parent == t.w.p && s.procs[t.w.p].pc.scan == p then UNUSED
    else x.state
  }

  lemma SchedMoves(s: State, a: SchedStep, p: nat)
    requires SchedEnabled(s, a) && CpuKnown(s, a) && p < |s.procs| && SelfOk(s, p)
    ensures |SchedApply(s, a).procs| == |s.procs| && SchedApply(s, a).procs[p].state == NextState(s, Sched(a), p)
  {
  }

  lemma ForkMoves(s: State, f: ForkStep, p: nat)
    requires ForkEnabled(s, f) && p < |s.procs| && SelfOk(s, p) && SelfOk(s, f.p) && MakerOk(s, p) && MakesOk(s, f.p)
    requires SelfOk(s, Made(s.procs[f.p], f.p))
    ensures |ForkApply(s, f).procs| == |s.procs| && ForkApply(s, f).procs[p].state == NextState(s, Forking(f), p)
  {
    hide StackOk;
  }

  lemma ExitMoves(s: State, e: ExitStep, p: nat)
    requires ExitEnabled(s, e) && p < |s.procs| && SelfOk(s, p) && SelfOk(s, e.p)
    ensures |ExitApply(s, e).procs| == |s.procs| && ExitApply(s, e).procs[p].state == NextState(s, Exiting(e), p)
  {
  }

  lemma WaitMoves(s: State, w: WaitStep, p: nat)
    requires WaitEnabled(s, w) && p < |s.procs| && SelfOk(s, p) && SelfOk(s, w.p) && ParentOk(s, p)
    ensures |WaitApply(s, w).procs| == |s.procs| && WaitApply(s, w).procs[p].state == NextState(s, Waiting(w), p)
  {
  }

  /** Every step moves every process as the diagram says, and no other way. */
  lemma StateMoves(s: State, t: Step, p: nat)
    requires Inv(s) && Enabled(s, t) && p < |s.procs|
    ensures |Apply(s, t).procs| == |s.procs| && Apply(s, t).procs[p].state == NextState(s, t, p)
  {
    hide SelfOk, MakerOk, MakesOk, ParentOk, ScanOk, PairOk, CpuOk, NextState, SchedApply, ForkApply, ExitApply, WaitApply;
    assert POk(s, p);
    match t
    case Sched(a) =>
      assert CpuKnown(s, a);
      SchedMoves(s, a, p);
    case Forking(f) =>
      assert POk(s, f.p);
      MadeOk(s, f.p);
      ForkMoves(s, f, p);
    case Exiting(e) =>
      assert POk(s, e.p);
      ExitMoves(s, e, p);
    case Waiting(w) =>
      assert POk(s, w.p);
      WaitMoves(s, w, p);
  }

  lemma MadeOk(s: State, p: nat)
    requires Inv(s) && p < |s.procs|
    ensures Made(s.procs[p], p) < |s.procs| && SelfOk(s, Made(s.procs[p], p))
  {
    assert POk(s, p);
    assert POk(s, Made(s.procs[p], p));
  }

  /** Why a process gets another parent: kfork() of its maker, the exit of its parent, which leaves it to init, or its end. */
  lemma ParentMoves(s: State, t: Step, p: nat)
    requires Inv(s) && Enabled(s, t) && p < |s.procs|
    ensures |Apply(s, t).procs| == |s.procs|
    ensures var x, y := s.procs[p], Apply(s, t).procs[p];
            y.parent == (if t.Forking? && t.f.ForkParent? && x.maker == t.f.p then t.f.p
                         else if t.Exiting? && t.e.ExitVisit? && x.parent == t.e.p && s.procs[t.e.p].pc.scan == p then INIT
                         else if y.state == UNUSED then -1
                         else x.parent)
  {
    hide SelfOk, MakerOk, MakesOk, ParentOk, ScanOk, PairOk, CpuOk, SchedApply, ForkApply, ExitApply, WaitApply;
    SameSize(s, t);
    assert POk(s, p);
    match t
    case Sched(a) => SchedParents(s, a, p);
    case Forking(f) =>
      assert POk(s, f.p);
      MadeOk(s, f.p);
      ForkParents(s, f, p);
    case Exiting(e) => ExitParents(s, e, p);
    case Waiting(w) => WaitParents(s, w, p);
  }

  lemma SchedParents(s: State, a: SchedStep, p: nat)
    requires SchedEnabled(s, a) && p < |s.procs| && SelfOk(s, p)
    ensures var y := SchedApply(s, a).procs[p]; y.parent == if y.state == UNUSED then -1 else s.procs[p].parent
  {
  }

  lemma ForkParents(s: State, f: ForkStep, p: nat)
    requires ForkEnabled(s, f) && p < |s.procs| && SelfOk(s, p) && SelfOk(s, f.p) && MakerOk(s, p) && MakesOk(s, f.p)
    requires SelfOk(s, Made(s.procs[f.p], f.p))
    ensures var y := ForkApply(s, f).procs[p];
            y.parent == if f.ForkParent? && s.procs[p].maker == f.p then f.p else if y.state == UNUSED then -1 else s.procs[p].parent
  {
    hide StackOk;
  }

  lemma ExitParents(s: State, e: ExitStep, p: nat)
    requires ExitEnabled(s, e) && p < |s.procs| && SelfOk(s, p)
    ensures var y := ExitApply(s, e).procs[p];
            y.parent == if e.ExitVisit? && s.procs[p].parent == e.p && s.procs[e.p].pc.scan == p then INIT
                        else if y.state == UNUSED then -1 else s.procs[p].parent
  {
  }

  lemma WaitParents(s: State, w: WaitStep, p: nat)
    requires WaitEnabled(s, w) && p < |s.procs| && SelfOk(s, p)
    ensures var y := WaitApply(s, w).procs[p]; y.parent == if y.state == UNUSED then -1 else s.procs[p].parent
  {
  }

  /** The pids of two processes that exist differ. */
  predicate PidsDiffer(s: State, p: nat, q: nat) {
    p < |s.procs| && q < |s.procs| && p != q && s.procs[p].state != UNUSED && s.procs[q].state != UNUSED ==> s.procs[p].pid != s.procs[q].pid
  }

  lemma StepKeepsPids(s: State, t: Step, p: nat, q: nat)
    requires Inv(s) && Enabled(s, t) && PidsDiffer(s, p, q)
    ensures PidsDiffer(Apply(s, t), p, q)
  {
    hide SelfOk, MakerOk, MakesOk, ScanOk, PairOk, CpuOk, NextState;
    if p < |s.procs| && q < |s.procs| {
      assert POk(s, p) && POk(s, q);
      PidMoves(s, t, p);
      PidMoves(s, t, q);
      StateMoves(s, t, p);
      StateMoves(s, t, q);
    } else {
      SameSize(s, t);
    }
  }

  lemma SameSize(s: State, t: Step)
    requires Inv(s) && Enabled(s, t)
    ensures |Apply(s, t).procs| == |s.procs|
  {
    StateMoves(s, t, INIT);
  }

  /** allocpid() gives a number that no process has had. */
  lemma PidMoves(s: State, t: Step, p: nat)
    requires Inv(s) && Enabled(s, t) && p < |s.procs|
    ensures |Apply(s, t).procs| == |s.procs| && s.procs[p].pid < s.nextpid
    ensures var x, y := s.procs[p], Apply(s, t).procs[p];
            y.state != UNUSED ==>
              if x.state == UNUSED then y.pid == s.nextpid && t.Forking? && t.f.ForkAlloc? && t.f.np == p else y.pid == x.pid
  {
    hide SelfOk, MakerOk, MakesOk, ScanOk, PairOk, CpuOk, StackOk, Apply, SchedApply, ForkApply, ExitApply, WaitApply;
    assert POk(s, p);
    StateMoves(s, t, p);
    SamePid(s, t, p);
  }

  /** The pid is the one it was and killed what it should be, unless the slot has just become free. */
  predicate Kept(x: Proc, y: Proc, killed: bool) {
    (y.pid == x.pid && y.killed == killed && (y.state == UNUSED ==> x.state == UNUSED)) || (x.state != UNUSED && y.state == UNUSED && y.pid == 0 && !y.killed)
  }

  lemma SamePid(s: State, t: Step, p: nat)
    requires Inv(s) && Enabled(s, t) && p < |s.procs|
    ensures |Apply(s, t).procs| == |s.procs|
    ensures if t.Forking? && t.f.ForkAlloc? && t.f.np == p then Apply(s, t).procs[p].pid == s.nextpid && Apply(s, t).procs[p].killed == s.procs[p].killed
            else Kept(s.procs[p], Apply(s, t).procs[p], s.procs[p].killed || (t.Sched? && t.a.Kill? && t.a.j == p))
  {
    hide SchedApply, ForkApply, ExitApply, WaitApply, SchedEnabled, ExitEnabled, SelfOk, MakerOk, MakesOk, ParentOk, ScanOk, PairOk, CpuOk;
    assert POk(s, p);
    match t
    case Sched(a) => SchedPid(s, a, p);
    case Forking(f) =>
      assert POk(s, f.p);
      MadeOk(s, f.p);
      ForkPid(s, f, p);
    case Exiting(e) => ExitPid(s, e, p);
    case Waiting(w) => WaitPid(s, w, p);
  }

  lemma SchedPid(s: State, a: SchedStep, p: nat)
    requires SchedEnabled(s, a) && p < |s.procs|
    ensures |SchedApply(s, a).procs| == |s.procs|
    ensures Kept(s.procs[p], SchedApply(s, a).procs[p], s.procs[p].killed || (a.Kill? && a.j == p))
  {
  }

  lemma ForkPid(s: State, f: ForkStep, p: nat)
    requires ForkEnabled(s, f) && p < |s.procs| && MakerOk(s, p) && MakesOk(s, f.p) && SelfOk(s, p) && SelfOk(s, Made(s.procs[f.p], f.p))
    ensures |ForkApply(s, f).procs| == |s.procs|
    ensures if f.ForkAlloc? && f.np == p then ForkApply(s, f).procs[p].pid == s.nextpid && ForkApply(s, f).procs[p].killed == s.procs[p].killed
            else Kept(s.procs[p], ForkApply(s, f).procs[p], s.procs[p].killed)
  {
    hide StackOk;
  }

  lemma ExitPid(s: State, e: ExitStep, p: nat)
    requires ExitEnabled(s, e) && p < |s.procs|
    ensures |ExitApply(s, e).procs| == |s.procs| && Kept(s.procs[p], ExitApply(s, e).procs[p], s.procs[p].killed)
  {
  }

  lemma WaitPid(s: State, w: WaitStep, p: nat)
    requires WaitEnabled(s, w) && p < |s.procs|
    ensures |WaitApply(s, w).procs| == |s.procs| && Kept(s.procs[p], WaitApply(s, w).procs[p], s.procs[p].killed)
  {
  }

  lemma {:induction false} RunKeepsPids(s: State, ts: seq<Step>, p: nat, q: nat)
    requires Inv(s) && RunOk(s, ts) && PidsDiffer(s, p, q)
    ensures PidsDiffer(After(s, ts), p, q)
    decreases ts
  {
    hide Inv, Enabled, Apply, PidsDiffer;
    if ts != [] {
      StepKeepsPids(s, ts[0], p, q);
      StepKeepsInv(s, ts[0]);
      RunKeepsPids(Apply(s, ts[0]), ts[1..], p, q);
    }
  }

  /** In every interleaving no two processes have the same pid. */
  lemma PidsUnique(s: State, ts: seq<Step>, p: nat, q: nat)
    requires Init(s) && RunOk(s, ts)
    ensures PidsDiffer(After(s, ts), p, q)
  {
    InitInv(s);
    RunKeepsPids(s, ts, p, q);
  }

  /** Nobody calls kill(0), whose number is that of every free slot. */
  predicate NoZeroKill(t: Step) { t.Sched? && t.a.Kill? ==> t.a.pid != 0 }

  /** Free slots have number 0 and are not marked, processes have another number. */
  predicate Fresh(s: State, p: nat)
    requires p < |s.procs|
  {
    if s.procs[p].state == UNUSED then s.procs[p].pid == 0 && !s.procs[p].killed else s.procs[p].pid > 0
  }

  lemma StepKeepsFresh(s: State, t: Step, p: nat)
    requires Inv(s) && Enabled(s, t) && NoZeroKill(t) && p < |s.procs| && Fresh(s, p) && s.nextpid > 0
    ensures |Apply(s, t).procs| == |s.procs| && Fresh(Apply(s, t), p) && Apply(s, t).nextpid > 0
  {
    hide SelfOk, MakerOk, MakesOk, ScanOk, PairOk, CpuOk, StackOk, PcOk, SchedApply, ForkApply, ExitApply, WaitApply;
    assert POk(s, p);
    StateMoves(s, t, p);
    PidMoves(s, t, p);
    SamePid(s, t, p);
    NextPid(s, t);
  }

  lemma NextPid(s: State, t: Step)
    requires Enabled(s, t)
    ensures Apply(s, t).nextpid >= s.nextpid
  {
  }

  lemma {:induction false} RunKeepsFresh(s: State, ts: seq<Step>, p: nat)
    requires Inv(s) && RunOk(s, ts) && (forall k: nat :: k < |ts| ==> NoZeroKill(ts[k])) && p < |s.procs| && Fresh(s, p) && s.nextpid > 0
    ensures |After(s, ts).procs| == |s.procs| && Fresh(After(s, ts), p)
    decreases ts
  {
    hide Inv, Enabled, Apply, Fresh, NoZeroKill;
    if ts != [] {
      assert NoZeroKill(ts[0]);
      forall k: nat | k < |ts[1..]| ensures NoZeroKill(ts[1..][k]) { assert ts[1..][k] == ts[k + 1]; }
      StepKeepsFresh(s, ts[0], p);
      StepKeepsInv(s, ts[0]);
      RunKeepsFresh(Apply(s, ts[0]), ts[1..], p);
    }
  }

  /** In every interleaving without kill(0) a slot that kfork() takes is not marked as killed. */
  lemma BornAlive(s: State, ts: seq<Step>, p: nat)
    requires Init(s) && RunOk(s, ts) && (forall k: nat :: k < |ts| ==> NoZeroKill(ts[k])) && p < |s.procs|
    ensures |After(s, ts).procs| == |s.procs|
    ensures After(s, ts).procs[p].state == UNUSED ==> !After(s, ts).procs[p].killed
  {
    InitInv(s);
    assert p != INIT ==> s.procs[p] == FREE_SLOT;
    RunKeepsFresh(s, ts, p);
  }

  /** And it takes a marked one after a kill(0): the mark stays until the slot is taken, and then it is the new process's. */
  lemma KillZeroMarks(s: State, t: Step, p: nat)
    requires Inv(s) && Enabled(s, t) && p < |s.procs| && s.procs[p].state == UNUSED
    ensures |Apply(s, t).procs| == |s.procs|
    ensures Apply(s, t).procs[p].killed <==> s.procs[p].killed || (t.Sched? && t.a.Kill? && t.a.j == p)
  {
    hide SelfOk, MakerOk, MakesOk, ParentOk, ScanOk, PairOk, CpuOk, StackOk, PcOk, Apply;
    SamePid(s, t, p);
  }

  /** A run in which init forks a child that is killed before it has run. */
  lemma BornKilled(s: State) returns (ts: seq<Step>)
    requires Init(s) && |s.procs| >= 2 && |s.cpus| >= 1
    ensures RunOk(s, ts) && 1 < |After(s, ts).procs| && After(s, ts).procs[1].state == USED && After(s, ts).procs[1].killed
  {
    assert s.procs[1] == FREE_SLOT;
    var t1, t2, t3, t4 := Sched(Kill(1, 0)), Sched(Dispatch(0, INIT)), Sched(Resume(INIT)), Forking(ForkAlloc(INIT, 1));
    var s1 := Apply(s, t1);
    var s2 := Apply(s1, t2);
    var s3 := Apply(s2, t3);
    hide RunOk, After;
    RunNone(Apply(s3, t4));
    RunCons(s3, t4, []);
    RunCons(s2, t3, [t4] + []);
    RunCons(s1, t2, [t3] + ([t4] + []));
    ts := [t1] + ([t2] + ([t3] + ([t4] + [])));
    RunCons(s, t1, [t2] + ([t3] + ([t4] + [])));
  }

  lemma RunNone(s: State)
    ensures RunOk(s, []) && After(s, []) == s
  {
  }

  lemma RunCons(s: State, t: Step, ts: seq<Step>)
    requires Enabled(s, t) && RunOk(Apply(s, t), ts)
    ensures RunOk(s, [t] + ts) && After(s, [t] + ts) == After(Apply(s, t), ts)
  {
    hide Enabled, Apply;
    assert ([t] + ts)[1..] == ts;
  }
}
