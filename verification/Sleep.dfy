/** sleep_prepare(), sleep() and wakeup() of kernel/proc.c, for any client that waits for a condition
    under a lock of its own. A step is one critical section under some p->lock or one action of the
    holder of the client's lock; wakeup() visits one process per step. */
module SleepWakeup {
  const CHAN: nat := 1      // the client's channel; 0 is no channel, all others belong to other clients

  datatype Pc =
    | Outside               // not waiting for this client's condition
    | Testing               // holds the lock, about to test the condition or done with it
    | Registered            // holds the lock, has called sleep_prepare()
    | Dropped               // has released the lock, has not entered sleep() yet
    | Back                  // in sleep(), or back from it and about to take the lock again
    | Waking(scan: nat)     // holds the lock, in wakeup(), about to visit process `scan`

  /** A process: where it is, p->chan, and whether p->state is SLEEPING. */
  datatype Thread = Thread(pc: Pc, chan: nat, asleep: bool)

  datatype State = State(cond: bool, holder: int, threads: seq<Thread>)

  datatype Step =
    | Acquire(i: nat)
    | Leave(i: nat)
    | Falsify(i: nat)
    | Prepare(i: nat)
    | Drop(i: nat)
    | Sleep(i: nat)
    | StartWake(i: nat)
    | MakeTrue(i: nat)
    | Visit(i: nat)
    | EndWake(i: nat)
    | Kill(j: nat)                        // kkill(): wakes a sleeper and leaves its chan
    | OtherPrepare(i: nat, chan: nat)     // a process busy elsewhere waits on another channel
    | OtherSleep(i: nat)
    | OtherWake(j: nat, chan: nat)        // one visit of a wakeup() outside the client, on any channel

  predicate Enabled(s: State, t: Step) {
    match t
    case Acquire(i) =>
      i < |s.threads| && s.holder == -1 && (s.threads[i].pc.Outside? || s.threads[i].pc.Back?) && !s.threads[i].asleep
    case Leave(i) => i < |s.threads| && s.threads[i].pc.Testing?
    case Falsify(i) => i < |s.threads| && s.threads[i].pc.Testing?
    case Prepare(i) => i < |s.threads| && s.threads[i].pc.Testing? && !s.cond
    case Drop(i) => i < |s.threads| && s.threads[i].pc.Registered?
    case Sleep(i) => i < |s.threads| && s.threads[i].pc.Dropped?
    case StartWake(i) => i < |s.threads| && s.threads[i].pc.Testing?
    case MakeTrue(i) => i < |s.threads| && s.threads[i].pc.Waking?
    case Visit(i) => i < |s.threads| && s.threads[i].pc.Waking? && s.threads[i].pc.scan < |s.threads|
    case EndWake(i) => i < |s.threads| && s.threads[i].pc.Waking? && s.threads[i].pc.scan == |s.threads|
    case Kill(j) => j < |s.threads|
    case OtherPrepare(i, chan) =>
      i < |s.threads| && s.threads[i].pc.Outside? && !s.threads[i].asleep && chan != 0 && chan != CHAN
    case OtherSleep(i) => i < |s.threads| && s.threads[i].pc.Outside? && !s.threads[i].asleep && s.threads[i].chan != CHAN
    case OtherWake(j, chan) => j < |s.threads| && chan != 0
  }

  function At(s: State, i: nat, pc: Pc): State
    requires i < |s.threads|
  {
    s.(threads := s.threads[i := s.threads[i].(pc := pc)])
  }

  /** One visit of wakeup(chan) to a process. */
  function Visited(t: Thread, chan: nat): Thread { if t.chan == chan then t.(chan := 0, asleep := false) else t }

  function Apply(s: State, t: Step): State
    requires Enabled(s, t)
  {
    match t
    case Acquire(i) => At(s, i, Testing).(holder := i)
    case Leave(i) => At(s, i, Outside).(holder := -1)
    case Falsify(i) => s.(cond := false)
    case Prepare(i) => s.(threads := s.threads[i := s.threads[i].(pc := Registered, chan := CHAN)])
    case Drop(i) => At(s, i, Dropped).(holder := -1)
    case Sleep(i) => s.(threads := s.threads[i := s.threads[i].(pc := Back, asleep := s.threads[i].chan != 0)])
    case StartWake(i) => At(s, i, Waking(0))
    case MakeTrue(i) => s.(cond := true)
    case Visit(i) =>
      var j := s.threads[i].pc.scan;
      var s1 := s.(threads := s.threads[j := Visited(s.threads[j], CHAN)]);
      At(s1, i, Waking(j + 1))
    case EndWake(i) => At(s, i, Testing)
    case Kill(j) => s.(threads := s.threads[j := s.threads[j].(asleep := false)])
    case OtherPrepare(i, chan) => s.(threads := s.threads[i := s.threads[i].(chan := chan)])
    case OtherSleep(i) => s.(threads := s.threads[i := s.threads[i].(asleep := s.threads[i].chan != 0)])
    case OtherWake(j, chan) => s.(threads := s.threads[j := Visited(s.threads[j], chan)])
  }

  /** A process that is asleep on the channel, or will be unless somebody visits it. */
  predicate Waiting(t: Thread) {
    t.chan == CHAN && (t.pc.Registered? || t.pc.Dropped? || (t.pc.Back? && t.asleep))
  }

  predicate Holds(pc: Pc) { pc.Testing? || pc.Registered? || pc.Waking? }

  ghost predicate ThreadOk(s: State, i: nat)
    requires i < |s.threads|
  {
    var t := s.threads[i];
    && (Holds(t.pc) <==> s.holder == i)
    && (t.asleep ==> t.chan != 0 && (t.pc.Back? || (t.pc.Outside? && t.chan != CHAN)))
    && (t.pc.Registered? ==> !s.cond)
    && (t.pc.Waking? ==> t.pc.scan <= |s.threads|)
    && (Waiting(t) ==> !s.cond || (0 <= s.holder < |s.threads| && s.threads[s.holder].pc.Waking?))
    && (Waiting(t) && 0 <= s.holder < |s.threads| && s.threads[s.holder].pc.Waking? ==> s.threads[s.holder].pc.scan <= i)
  }

  ghost predicate Inv(s: State) {
    && -1 <= s.holder < |s.threads|
    && (forall i: nat :: i < |s.threads| ==> ThreadOk(s, i))
  }

  ghost predicate Init(s: State) {
    s.holder == -1 && forall i: nat :: i < |s.threads| ==> s.threads[i] == Thread(Outside, 0, false)
  }

  /** The process a step is taken by or done to. */
  function Actor(t: Step): nat {
    match t
    case Kill(j) => j
    case OtherWake(j, _) => j
    case Acquire(i) => i
    case Leave(i) => i
    case Falsify(i) => i
    case Prepare(i) => i
    case Drop(i) => i
    case Sleep(i) => i
    case StartWake(i) => i
    case MakeTrue(i) => i
    case Visit(i) => i
    case EndWake(i) => i
    case OtherPrepare(i, _) => i
    case OtherSleep(i) => i
  }

  lemma StepKeepsInv(s: State, t: Step)
    requires Inv(s) && Enabled(s, t)
    ensures Inv(Apply(s, t))
  {
    var s1 := Apply(s, t);
    assert ThreadOk(s, Actor(t));
    forall i: nat | i < |s1.threads| ensures ThreadOk(s1, i) {
      assert ThreadOk(s, i);
      if 0 <= s.holder { assert ThreadOk(s, s.holder); }
    }
  }

  ghost predicate RunOk(s: State, ts: seq<Step>)
    decreases ts
  {
    ts != [] ==> Enabled(s, ts[0]) && RunOk(Apply(s, ts[0]), ts[1..])
  }

  ghost function After(s: State, ts: seq<Step>): State
    requires RunOk(s, ts)
    decreases ts
  {
    if ts == [] then s else After(Apply(s, ts[0]), ts[1..])
  }

  lemma {:induction false} RunKeepsInv(s: State, ts: seq<Step>)
    requires Inv(s) && RunOk(s, ts)
    ensures Inv(After(s, ts))
    decreases ts
  {
    if ts != [] {
      StepKeepsInv(s, ts[0]);
      RunKeepsInv(Apply(s, ts[0]), ts[1..]);
    }
  }

  /** No wakeup is lost: whenever the lock is free and the condition holds, no process sleeps on the
      channel or is about to, in any interleaving, with kills and other channels going on. */
  lemma NoLostWakeup(s: State, ts: seq<Step>, i: nat)
    requires Init(s) && RunOk(s, ts) && i < |After(s, ts).threads|
    ensures var s1 := After(s, ts);
            var t := s1.threads[i];
            && (s1.holder == -1 && s1.cond ==> !(t.asleep && t.chan == CHAN) && !(t.pc.Dropped? && t.chan == CHAN))
            && (t.asleep ==> t.chan != 0)
  {
    assert Inv(s) by {
      forall k: nat | k < |s.threads| ensures ThreadOk(s, k) { assert s.threads[k] == Thread(Outside, 0, false); }
    }
    RunKeepsInv(s, ts);
    assert ThreadOk(After(s, ts), i);
  }

  /** This step is a visit of wakeup() on the channel of process i, or kills it. */
  predicate Wakes(s: State, t: Step, i: nat)
    requires Enabled(s, t) && i < |s.threads|
  {
    || t == Kill(i) || (t.OtherWake? && t.j == i && s.threads[i].chan == t.chan)
    || (t.Visit? && s.threads[t.i].pc.scan == i && s.threads[i].chan == CHAN)
  }

  /** sleep() puts a process to sleep unless it has been woken since sleep_prepare(), and it stays asleep, doing nothing, until
      a wakeup on its channel or a kill. */
  lemma SleepsUntilWoken(s: State, t: Step, i: nat)
    requires Inv(s) && Enabled(s, t) && i < |s.threads|
    ensures |Apply(s, t).threads| == |s.threads|
    ensures var x, y := s.threads[i], Apply(s, t).threads[i];
            && (y.asleep <==> if t == Sleep(i) || t == OtherSleep(i) then x.chan != 0 else x.asleep && !Wakes(s, t, i))
            && (x.asleep && !Wakes(s, t, i) ==> y == x)
            && (Wakes(s, t, i) && !t.Kill? ==> y.chan == 0)
  {
    assert ThreadOk(s, i);
  }

  lemma {:induction false} RunConcat(s: State, a: seq<Step>, b: seq<Step>)
    requires RunOk(s, a) && RunOk(After(s, a), b)
    ensures RunOk(s, a + b) && After(s, a + b) == After(After(s, a), b)
    decreases a
  {
    if a == [] {
      assert a + b == b;
    } else {
      RunConcat(Apply(s, a[0]), a[1..], b);
      assert (a + b)[1..] == a[1..] + b;
    }
  }
}

/** Sleep locks, kernel/sleeplock.c, as a client of sleep and wakeup: the condition is that the lock is
    not taken. */
module SleepLock {
  import W = SleepWakeup

  datatype Pc =
    | Idle
    | Testing               // in acquiresleep(), holds lk->lk
    | Registered
    | Dropped
    | Back
    | Critical              // acquiresleep() has returned
    | Releasing(scan: nat)  // in releasesleep(), holds lk->lk

  datatype Thread = Thread(pc: Pc, chan: nat, asleep: bool)

  /** lk->locked, lk->pid, the process that holds lk->lk, and the processes; process i has pid i + 1. */
  datatype State = State(locked: bool, pid: nat, spin: int, threads: seq<Thread>)

  datatype Step =
    | Enter(i: nat)
    | Take(i: nat)
    | Prepare(i: nat)
    | Drop(i: nat)
    | Sleep(i: nat)
    | Release(i: nat)
    | Visit(i: nat)
    | Done(i: nat)
    | Kill(j: nat)
    | OtherPrepare(i: nat, chan: nat)
    | OtherSleep(i: nat)
    | OtherWake(j: nat, chan: nat)

  predicate Free(t: Thread) { (t.pc.Idle? || t.pc.Critical?) && !t.asleep }

  predicate Enabled(s: State, t: Step) {
    match t
    case Enter(i) =>
      i < |s.threads| && s.spin == -1 && (s.threads[i].pc.Idle? || s.threads[i].pc.Back?) && !s.threads[i].asleep
    case Take(i) => i < |s.threads| && s.threads[i].pc.Testing? && !s.locked
    case Prepare(i) => i < |s.threads| && s.threads[i].pc.Testing? && s.locked
    case Drop(i) => i < |s.threads| && s.threads[i].pc.Registered?
    case Sleep(i) => i < |s.threads| && s.threads[i].pc.Dropped?
    case Release(i) => i < |s.threads| && s.threads[i].pc.Critical? && !s.threads[i].asleep && s.spin == -1
    case Visit(i) => i < |s.threads| && s.threads[i].pc.Releasing? && s.threads[i].pc.scan < |s.threads|
    case Done(i) => i < |s.threads| && s.threads[i].pc.Releasing? && s.threads[i].pc.scan == |s.threads|
    case Kill(j) => j < |s.threads|
    case OtherPrepare(i, chan) => i < |s.threads| && Free(s.threads[i]) && chan != 0 && chan != W.CHAN
    case OtherSleep(i) => i < |s.threads| && Free(s.threads[i]) && s.threads[i].chan != W.CHAN
    case OtherWake(j, chan) => j < |s.threads| && chan != 0
  }

  function At(s: State, i: nat, pc: Pc): State
    requires i < |s.threads|
  {
    s.(threads := s.threads[i := s.threads[i].(pc := pc)])
  }

  function Visited(t: Thread, chan: nat): Thread { if t.chan == chan then t.(chan := 0, asleep := false) else t }

  function Apply(s: State, t: Step): State
    requires Enabled(s, t)
  {
    match t
    case Enter(i) => At(s, i, Testing).(spin := i)
    case Take(i) => At(s, i, Critical).(locked := true, pid := i + 1, spin := -1)
    case Prepare(i) => s.(threads := s.threads[i := s.threads[i].(pc := Registered, chan := W.CHAN)])
    case Drop(i) => At(s, i, Dropped).(spin := -1)
    case Sleep(i) => s.(threads := s.threads[i := s.threads[i].(pc := Back, asleep := s.threads[i].chan != 0)])
    case Release(i) => At(s, i, Releasing(0)).(locked := false, pid := 0, spin := i)
    case Visit(i) =>
      var j := s.threads[i].pc.scan;
      var s1 := s.(threads := s.threads[j := Visited(s.threads[j], W.CHAN)]);
      At(s1, i, Releasing(j + 1))
    case Done(i) => At(s, i, Idle).(spin := -1)
    case Kill(j) => s.(threads := s.threads[j := s.threads[j].(asleep := false)])
    case OtherPrepare(i, chan) => s.(threads := s.threads[i := s.threads[i].(chan := chan)])
    case OtherSleep(i) => s.(threads := s.threads[i := s.threads[i].(asleep := s.threads[i].chan != 0)])
    case OtherWake(j, chan) => s.(threads := s.threads[j := Visited(s.threads[j], chan)])
  }

  /** What the protocol of SleepWakeup sees of a process. */
  function AbsPc(pc: Pc): W.Pc {
    match pc
    case Idle => W.Outside
    case Testing => W.Testing
    case Registered => W.Registered
    case Dropped => W.Dropped
    case Back => W.Back
    case Critical => W.Outside
    case Releasing(scan) => W.Waking(scan)
  }

  function AbsThread(t: Thread): W.Thread { W.Thread(AbsPc(t.pc), t.chan, t.asleep) }

  function Abs(s: State): W.State {
    W.State(!s.locked, s.spin, seq(|s.threads|, i requires 0 <= i < |s.threads| => AbsThread(s.threads[i])))
  }

  /** The steps of the protocol that a step of the sleep lock stands for. */
  function AbsSteps(t: Step): seq<W.Step> {
    match t
    case Enter(i) => [W.Acquire(i)]
    case Take(i) => [W.Falsify(i), W.Leave(i)]
    case Prepare(i) => [W.Prepare(i)]
    case Drop(i) => [W.Drop(i)]
    case Sleep(i) => [W.Sleep(i)]
    case Release(i) => [W.Acquire(i), W.StartWake(i), W.MakeTrue(i)]
    case Visit(i) => [W.Visit(i)]
    case Done(i) => [W.EndWake(i), W.Leave(i)]
    case Kill(j) => [W.Kill(j)]
    case OtherPrepare(i, chan) => [W.OtherPrepare(i, chan)]
    case OtherSleep(i) => [W.OtherSleep(i)]
    case OtherWake(j, chan) => [W.OtherWake(j, chan)]
  }

  lemma One(a: W.State, x: W.Step)
    requires W.Enabled(a, x)
    ensures W.RunOk(a, [x]) && W.After(a, [x]) == W.Apply(a, x)
  {
    assert [x][1..] == [];
  }

  lemma Two(a: W.State, x: W.Step, y: W.Step)
    requires W.Enabled(a, x) && W.Enabled(W.Apply(a, x), y)
    ensures W.RunOk(a, [x, y]) && W.After(a, [x, y]) == W.Apply(W.Apply(a, x), y)
  {
    assert [x, y][1..] == [y];
    One(W.Apply(a, x), y);
  }

  lemma RefinesTake(s: State, i: nat)
    requires Enabled(s, Take(i))
    ensures W.RunOk(Abs(s), AbsSteps(Take(i))) && W.After(Abs(s), AbsSteps(Take(i))) == Abs(Apply(s, Take(i)))
  {
    Two(Abs(s), W.Falsify(i), W.Leave(i));
    assert Abs(Apply(s, Take(i))) == W.Apply(W.Apply(Abs(s), W.Falsify(i)), W.Leave(i));
  }

  lemma RefinesRelease(s: State, i: nat)
    requires Enabled(s, Release(i))
    ensures W.RunOk(Abs(s), AbsSteps(Release(i))) && W.After(Abs(s), AbsSteps(Release(i))) == Abs(Apply(s, Release(i)))
  {
    var a1 := W.Apply(Abs(s), W.Acquire(i));
    Two(a1, W.StartWake(i), W.MakeTrue(i));
    assert AbsSteps(Release(i))[1..] == [W.StartWake(i), W.MakeTrue(i)];
    assert Abs(Apply(s, Release(i))) == W.Apply(W.Apply(a1, W.StartWake(i)), W.MakeTrue(i));
  }

  lemma RefinesDone(s: State, i: nat)
    requires Enabled(s, Done(i))
    ensures W.RunOk(Abs(s), AbsSteps(Done(i))) && W.After(Abs(s), AbsSteps(Done(i))) == Abs(Apply(s, Done(i)))
  {
    Two(Abs(s), W.EndWake(i), W.Leave(i));
    assert Abs(Apply(s, Done(i))) == W.Apply(W.Apply(Abs(s), W.EndWake(i)), W.Leave(i));
  }

  lemma RefinesOne(s: State, t: Step)
    requires Enabled(s, t) && !t.Take? && !t.Release? && !t.Done?
    ensures W.RunOk(Abs(s), AbsSteps(t)) && W.After(Abs(s), AbsSteps(t)) == Abs(Apply(s, t))
  {
    var x := AbsSteps(t)[0];
    assert AbsSteps(t) == [x];
    assert W.Enabled(Abs(s), x) && Abs(Apply(s, t)).threads == W.Apply(Abs(s), x).threads;
    One(Abs(s), x);
  }

  /** Every step of the sleep lock is a run of the protocol. */
  lemma Refines(s: State, t: Step)
    requires Enabled(s, t)
    ensures W.RunOk(Abs(s), AbsSteps(t)) && W.After(Abs(s), AbsSteps(t)) == Abs(Apply(s, t))
  {
    match t
    case Take(i) => RefinesTake(s, i);
    case Release(i) => RefinesRelease(s, i);
    case Done(i) => RefinesDone(s, i);
    case _ => RefinesOne(s, t);
  }

  ghost predicate RunOk(s: State, ts: seq<Step>)
    decreases ts
  {
    ts != [] ==> Enabled(s, ts[0]) && RunOk(Apply(s, ts[0]), ts[1..])
  }

  ghost function After(s: State, ts: seq<Step>): State
    requires RunOk(s, ts)
    decreases ts
  {
    if ts == [] then s else After(Apply(s, ts[0]), ts[1..])
  }

  function AbsRun(ts: seq<Step>): seq<W.Step> { if ts == [] then [] else AbsSteps(ts[0]) + AbsRun(ts[1..]) }

  lemma {:induction false} RunRefines(s: State, ts: seq<Step>)
    requires RunOk(s, ts)
    ensures W.RunOk(Abs(s), AbsRun(ts)) && W.After(Abs(s), AbsRun(ts)) == Abs(After(s, ts))
    decreases ts
  {
    if ts != [] {
      Refines(s, ts[0]);
      RunRefines(Apply(s, ts[0]), ts[1..]);
      W.RunConcat(Abs(s), AbsSteps(ts[0]), AbsRun(ts[1..]));
    }
  }

  ghost predicate Init(s: State) {
    && !s.locked && s.pid == 0 && s.spin == -1
    && forall i: nat :: i < |s.threads| ==> s.threads[i] == Thread(Idle, 0, false)
  }

  /** The lock is taken exactly if somebody is between acquiresleep() and releasesleep(), and then
      lk->pid says who. */
  ghost predicate MutexOk(s: State) {
    && (s.locked ==> 1 <= s.pid <= |s.threads|)
    && forall i: nat :: i < |s.threads| ==> (s.threads[i].pc.Critical? <==> s.locked && s.pid == i + 1)
  }

  lemma {:induction false} RunKeepsMutex(s: State, ts: seq<Step>)
    requires MutexOk(s) && RunOk(s, ts)
    ensures MutexOk(After(s, ts))
    decreases ts
  {
    if ts != [] { RunKeepsMutex(Apply(s, ts[0]), ts[1..]); }
  }

  /** In every interleaving at most one process holds the lock, and holdingsleep() is right about it. */
  lemma MutualExclusion(s: State, ts: seq<Step>, i: nat, j: nat)
    requires Init(s) && RunOk(s, ts) && i < |After(s, ts).threads| && j < |After(s, ts).threads|
    ensures var s1 := After(s, ts);
            && (s1.threads[i].pc.Critical? && s1.threads[j].pc.Critical? ==> i == j)
            && (s1.threads[i].pc.Critical? <==> s1.locked && s1.pid == i + 1)
  {
    RunKeepsMutex(s, ts);
  }

  /** In every interleaving, with lk->lk free, nobody sleeps on a lock that is not taken. */
  lemma NoSleeperOnFreeLock(s: State, ts: seq<Step>, i: nat)
    requires Init(s) && RunOk(s, ts) && i < |After(s, ts).threads|
    ensures var s1 := After(s, ts);
            s1.spin == -1 && !s1.locked ==>
              !(s1.threads[i].asleep && s1.threads[i].chan == W.CHAN)
              && !(s1.threads[i].pc.Dropped? && s1.threads[i].chan == W.CHAN)
  {
    RunRefines(s, ts);
    W.NoLostWakeup(Abs(s), AbsRun(ts), i);
  }
}
