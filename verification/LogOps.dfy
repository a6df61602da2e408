/** The admission control of kernel/log.c: begin_op, log_write, end_op, the end of commit, and
    sys_sync, as steps of a state machine. Each step is one critical section under log.lock, so a run
    is an arbitrary interleaving of file-system calls. */
module LogOps {
  import LogSpec

  const MAXOPBLOCKS: nat := 10
  const LOGBLOCKS: nat := MAXOPBLOCKS * 3

  type OpId = nat

  /** An open file-system call and the distinct blocks it has logged. */
  datatype Op = Op(id: OpId, blocks: set<nat>)

  /** A sys_sync that has to wait: it returns once ncommit reaches `target`. The calls in `earlier`
      had ended when it started. */
  datatype Sync = Sync(target: nat, earlier: set<OpId>)

  datatype State = State(
    lh: set<nat>,           // block numbers in log.lh
    outstanding: int,
    committing: bool,
    ncommit: nat,
    open: seq<Op>,          // calls between begin_op and end_op
    ended: map<OpId, set<nat>>,   // calls that have ended and are not committed yet, with the blocks they logged
    committed: set<OpId>,
    syncs: seq<Sync>        // sys_sync calls that are waiting
  )

  datatype Step =
    | BeginOp(id: OpId)
    | LogWrite(op: nat, block: nat)
    | EndOp(op: nat)
    | CommitDone
    | SyncWait
    | SyncReturn(sync: nat)

  datatype Outcome = Next(state: State) | Panic

  const INIT := State({}, 0, false, 0, [], map[], {}, [])

  /** Whether the step can happen at all: who may take it, and for the waits, when they end. The one
      rule for callers is the documented one, that a call logs at most MAXOPBLOCKS distinct blocks. */
  predicate Enabled(s: State, t: Step) {
    match t
    case BeginOp(id) =>
      && !s.committing && |s.lh| + (s.outstanding + 1) * MAXOPBLOCKS <= LOGBLOCKS
      && id !in s.ended && id !in s.committed && forall i :: 0 <= i < |s.open| ==> s.open[i].id != id
    case LogWrite(op, block) => op < |s.open| && |s.open[op].blocks + {block}| <= MAXOPBLOCKS
    case EndOp(op) => op < |s.open|
    case CommitDone => s.committing
    case SyncWait => s.committing || s.outstanding > 0
    case SyncReturn(sync) => sync < |s.syncs| && s.ncommit >= s.syncs[sync].target
  }

  function Apply(s: State, t: Step): Outcome
    requires Enabled(s, t)
  {
    match t
    case BeginOp(id) => Next(s.(outstanding := s.outstanding + 1, open := s.open + [Op(id, {})]))
    case LogWrite(op, block) =>
      if |s.lh| >= LOGBLOCKS || s.outstanding < 1 then Panic
      else Next(s.(lh := s.lh + {block},
                   open := s.open[op := s.open[op].(blocks := s.open[op].blocks + {block})]))
    case EndOp(op) =>
      if s.committing then Panic
      else Next(s.(outstanding := s.outstanding - 1, committing := s.outstanding == 1,
                   open := s.open[..op] + s.open[op + 1..], ended := s.ended[s.open[op].id := s.open[op].blocks]))
    case CommitDone =>
      Next(s.(lh := {}, committing := false, ncommit := s.ncommit + 1,
              committed := s.committed + s.ended.Keys, ended := map[]))
    case SyncWait => Next(s.(syncs := s.syncs + [Sync(s.ncommit + 1, s.ended.Keys + s.committed)]))
    case SyncReturn(sync) => Next(s.(syncs := s.syncs[..sync] + s.syncs[sync + 1..]))
  }

  /** Reserved and unused log space of the open calls. */
  ghost function Unused(open: seq<Op>): int {
    if open == [] then 0 else MAXOPBLOCKS - |open[0].blocks| + Unused(open[1..])
  }

  ghost predicate Inv(s: State) {
    && s.outstanding == |s.open|
    && (forall i :: 0 <= i < |s.open| ==> |s.open[i].blocks| <= MAXOPBLOCKS && s.open[i].blocks <= s.lh)
    && |s.lh| + Unused(s.open) <= LOGBLOCKS
    && (s.committing ==> s.open == [])
    && (!s.committing && s.open == [] ==> s.lh == {} && s.ended == map[])
    && (forall i :: 0 <= i < |s.syncs| ==> SyncInv(s, s.syncs[i]))
  }

  ghost predicate SyncInv(s: State, y: Sync) {
    && s.ncommit + 1 >= y.target
    && y.earlier <= s.ended.Keys + s.committed
    && (s.ncommit >= y.target ==> y.earlier <= s.committed)
  }

  lemma {:induction false} UnusedConcat(a: seq<Op>, b: seq<Op>)
    ensures Unused(a + b) == Unused(a) + Unused(b)
  {
    if a == [] {
      assert a + b == b;
    } else {
      UnusedConcat(a[1..], b);
      assert (a + b)[1..] == a[1..] + b;
    }
  }

  lemma {:induction false} UnusedSplit(open: seq<Op>, i: nat)
    requires i < |open|
    ensures Unused(open) ==
            Unused(open[..i]) + (MAXOPBLOCKS - |open[i].blocks|) + Unused(open[i + 1..])
  {
    var one := [open[i]];
    assert open == open[..i] + (one + open[i + 1..]);
    UnusedConcat(open[..i], one + open[i + 1..]);
    UnusedConcat(one, open[i + 1..]);
    assert Unused(one) == MAXOPBLOCKS - |open[i].blocks| + Unused(one[1..]);
  }

  lemma {:induction false} UnusedBounds(open: seq<Op>)
    requires forall i :: 0 <= i < |open| ==> |open[i].blocks| <= MAXOPBLOCKS
    ensures 0 <= Unused(open) <= |open| * MAXOPBLOCKS
  {
    if open != [] { UnusedBounds(open[1..]); }
  }

  /** A step of a caller that keeps its reservation never panics, except log_write on a full log. */
  lemma StepSafe(s: State, t: Step)
    requires Inv(s) && Enabled(s, t)
    ensures Apply(s, t).Panic? <==> t.LogWrite? && |s.lh| == LOGBLOCKS
  {
    UnusedBounds(s.open);
  }

  /** A call that still has reserved space always gets its block logged. */
  lemma ReservationSuffices(s: State, op: nat, block: nat)
    requires Inv(s) && op < |s.open| && |s.open[op].blocks| < MAXOPBLOCKS
    ensures Enabled(s, LogWrite(op, block)) && Apply(s, LogWrite(op, block)).Next?
  {
    UnusedSplit(s.open, op);
    UnusedBounds(s.open[..op]);
    UnusedBounds(s.open[op + 1..]);
    var blocks := s.open[op].blocks;
    assert |blocks + {block}| <= |blocks| + 1 by {
      if block in blocks { assert blocks + {block} == blocks; }
    }
  }

  lemma StepKeepsInv(s: State, t: Step)
    requires Inv(s) && Enabled(s, t) && Apply(s, t).Next?
    ensures Inv(Apply(s, t).state)
  {
    match t
    case BeginOp(id) =>
      BeginKeepsInv(s, id);
    case LogWrite(op, block) =>
      LogWriteKeepsInv(s, op, block);
    case EndOp(op) =>
      EndKeepsInv(s, op);
    case CommitDone =>
      CommitKeepsInv(s);
    case SyncWait =>
    case SyncReturn(sync) =>
  }

  lemma EndKeepsInv(s: State, op: nat)
    requires Inv(s) && Enabled(s, EndOp(op)) && Apply(s, EndOp(op)).Next?
    ensures Inv(Apply(s, EndOp(op)).state)
  {
    UnusedSplit(s.open, op);
    UnusedConcat(s.open[..op], s.open[op + 1..]);
    var s' := Apply(s, EndOp(op)).state;
    forall i | 0 <= i < |s'.syncs| ensures SyncInv(s', s'.syncs[i]) { assert SyncInv(s, s.syncs[i]); }
  }

  lemma CommitKeepsInv(s: State)
    requires Inv(s) && Enabled(s, CommitDone)
    ensures Inv(Apply(s, CommitDone).state)
  {
    var s' := Apply(s, CommitDone).state;
    forall i | 0 <= i < |s'.syncs| ensures SyncInv(s', s'.syncs[i]) { assert SyncInv(s, s.syncs[i]); }
  }

  lemma BeginKeepsInv(s: State, id: OpId)
    requires Inv(s) && Enabled(s, BeginOp(id))
    ensures Inv(Apply(s, BeginOp(id)).state)
  {
    var started := [Op(id, {})];
    UnusedConcat(s.open, started);
    UnusedBounds(s.open);
    assert Unused(started) == MAXOPBLOCKS + Unused(started[1..]);
    var s' := Apply(s, BeginOp(id)).state;
    assert forall i :: 0 <= i < |s'.syncs| ==> SyncInv(s, s.syncs[i]);
  }

  lemma LogWriteKeepsInv(s: State, op: nat, block: nat)
    requires Inv(s) && Enabled(s, LogWrite(op, block)) && Apply(s, LogWrite(op, block)).Next?
    ensures Inv(Apply(s, LogWrite(op, block)).state)
  {
    var s' := Apply(s, LogWrite(op, block)).state;
    UnusedSplit(s.open, op);
    UnusedSplit(s'.open, op);
    assert s'.open[..op] == s.open[..op] && s'.open[op + 1..] == s.open[op + 1..];
    var blocks := s.open[op].blocks;
    if block in blocks { assert blocks + {block} == blocks; }
    if block in s.lh { assert s.lh + {block} == s.lh; }
    assert forall i :: 0 <= i < |s'.syncs| ==> SyncInv(s, s.syncs[i]);
  }

  /** The steps of ts can be taken one after the other from s, without a panic. */
  ghost predicate RunOk(s: State, ts: seq<Step>)
    decreases ts
  {
    ts != [] ==> Enabled(s, ts[0]) && Apply(s, ts[0]).Next? && RunOk(Apply(s, ts[0]).state, ts[1..])
  }

  ghost function After(s: State, ts: seq<Step>): State
    requires RunOk(s, ts)
    decreases ts
  {
    if ts == [] then s else After(Apply(s, ts[0]).state, ts[1..])
  }

  lemma {:induction false} RunKeepsInv(s: State, ts: seq<Step>)
    requires Inv(s) && RunOk(s, ts)
    ensures Inv(After(s, ts))
    decreases ts
  {
    if ts != [] {
      StepKeepsInv(s, ts[0]);
      RunKeepsInv(Apply(s, ts[0]).state, ts[1..]);
    }
  }

  /** In every interleaving the logged blocks and the unused reservations of the open calls fit the
      log together, a commit runs with no call open, and end_op's panic is unreachable. */
  lemma LogSpaceReserved(ts: seq<Step>)
    requires RunOk(INIT, ts)
    ensures var s := After(INIT, ts);
            && |s.lh| + Unused(s.open) <= LOGBLOCKS && Unused(s.open) >= 0
            && (s.committing ==> s.open == [])
            && (forall op :: 0 <= op < |s.open| ==> Apply(s, EndOp(op)).Next?)
            && (forall op, block :: 0 <= op < |s.open| && |s.open[op].blocks| < MAXOPBLOCKS ==>
                  Enabled(s, LogWrite(op, block)) && Apply(s, LogWrite(op, block)).Next?)
  {
    RunKeepsInv(INIT, ts);
    var s := After(INIT, ts);
    UnusedBounds(s.open);
    forall op, block | 0 <= op < |s.open| && |s.open[op].blocks| < MAXOPBLOCKS
      ensures Enabled(s, LogWrite(op, block)) && Apply(s, LogWrite(op, block)).Next?
    {
      ReservationSuffices(s, op, block);
    }
  }

  /** A call that is open, or has ended and is not committed, has logged block b. */
  ghost predicate LoggedBy(s: State, b: nat) {
    (exists i :: 0 <= i < |s.open| && b in s.open[i].blocks) || (exists id :: id in s.ended && b in s.ended[id])
  }

  /** The log holds what the calls have logged, and the calls can be told apart. */
  ghost predicate Booked(s: State) {
    && (forall b :: b in s.lh ==> LoggedBy(s, b)) && (forall id :: id in s.ended ==> s.ended[id] <= s.lh)
    && (forall i :: 0 <= i < |s.open| ==> s.open[i].id !in s.ended && s.open[i].blocks <= s.lh)
    && (forall i, j :: 0 <= i < j < |s.open| ==> s.open[i].id != s.open[j].id)
  }

  lemma LogWriteBooked(s: State, op: nat, block: nat)
    requires Booked(s) && Enabled(s, LogWrite(op, block)) && Apply(s, LogWrite(op, block)).Next?
    ensures Booked(Apply(s, LogWrite(op, block)).state)
  {
    var s1 := Apply(s, LogWrite(op, block)).state;
    forall b | b in s1.lh ensures LoggedBy(s1, b) {
      if b == block {
        assert b in s1.open[op].blocks;
      } else {
        assert LoggedBy(s, b);
        if i :| 0 <= i < |s.open| && b in s.open[i].blocks { assert b in s1.open[i].blocks; }
      }
    }
  }

  lemma EndBooked(s: State, op: nat)
    requires Booked(s) && Enabled(s, EndOp(op)) && Apply(s, EndOp(op)).Next?
    ensures Booked(Apply(s, EndOp(op)).state)
  {
    var s1, x := Apply(s, EndOp(op)).state, s.open[op];
    forall b | b in s1.lh ensures LoggedBy(s1, b) {
      assert LoggedBy(s, b);
      if i :| 0 <= i < |s.open| && b in s.open[i].blocks {
        if i < op { assert b in s1.open[i].blocks; }
        else if i > op { assert b in s1.open[i - 1].blocks; }
        else { assert x.id in s1.ended && b in s1.ended[x.id]; }
      } else {
        var id :| id in s.ended && b in s.ended[id];
        assert id in s1.ended && b in s1.ended[id];
      }
    }
  }

  lemma BeginBooked(s: State, id: OpId)
    requires Booked(s) && Enabled(s, BeginOp(id))
    ensures Booked(Apply(s, BeginOp(id)).state)
  {
    var s1 := Apply(s, BeginOp(id)).state;
    forall b | b in s1.lh ensures LoggedBy(s1, b) {
      assert LoggedBy(s, b);
      if i :| 0 <= i < |s.open| && b in s.open[i].blocks { assert b in s1.open[i].blocks; }
    }
  }

  lemma StepBooked(s: State, t: Step)
    requires Inv(s) && Booked(s) && Enabled(s, t) && Apply(s, t).Next?
    ensures Booked(Apply(s, t).state)
  {
    match t
    case BeginOp(id) => BeginBooked(s, id);
    case LogWrite(op, block) => LogWriteBooked(s, op, block);
    case EndOp(op) => EndBooked(s, op);
    case CommitDone =>
    case SyncWait => SameBooked(s, Apply(s, t).state);
    case SyncReturn(_) => SameBooked(s, Apply(s, t).state);
  }

  lemma SameBooked(s: State, s1: State)
    requires Booked(s) && s1.lh == s.lh && s1.open == s.open && s1.ended == s.ended
    ensures Booked(s1)
  {
    forall b | b in s1.lh ensures LoggedBy(s1, b) { assert LoggedBy(s, b); }
  }

  lemma {:induction false} RunBooked(s: State, ts: seq<Step>)
    requires Inv(s) && Booked(s) && RunOk(s, ts)
    ensures Inv(After(s, ts)) && Booked(After(s, ts))
    decreases ts
  {
    hide Inv, Booked, Enabled, Apply;
    if ts != [] {
      StepKeepsInv(s, ts[0]);
      StepBooked(s, ts[0]);
      RunBooked(Apply(s, ts[0]).state, ts[1..]);
    }
  }

  /** In every interleaving the log holds exactly the blocks that calls have logged since the last commit; when a commit runs,
      all of them have ended. */
  lemma CommitsWhatEnded(ts: seq<Step>, b: nat)
    requires RunOk(INIT, ts)
    ensures var s := After(INIT, ts);
            && (b in s.lh <==> LoggedBy(s, b))
            && (s.committing ==> (b in s.lh <==> exists id :: id in s.ended && b in s.ended[id]))
  {
    RunBooked(INIT, ts);
  }

  /** The blocks that a list names. */
  function Named(xs: seq<nat>): set<nat> { set x | x in xs }

  lemma {:induction false} DistinctCount(xs: seq<nat>)
    requires forall i, j :: 0 <= i < j < |xs| ==> xs[i] != xs[j]
    ensures |Named(xs)| == |xs|
  {
    if xs != [] {
      var n := |xs| - 1;
      DistinctCount(xs[..n]);
      assert xs == xs[..n] + [xs[n]];
      assert Named(xs) == Named(xs[..n]) + {xs[n]};
    }
  }

  /** What end_op hands to commit is a transaction the log can take: in every interleaving, whatever the
      order in which log.lh lists the blocks, a crash at any write of the commit leaves all or nothing. */
  lemma CommitIsTransaction(ts: seq<Step>, l: LogSpec.Layout, d: LogSpec.Disk, dsts: seq<nat>, data: seq<LogSpec.Block>,
                            i: nat)
    requires RunOk(INIT, ts) && After(INIT, ts).committing && Named(dsts) == After(INIT, ts).lh
    requires forall i, j :: 0 <= i < j < |dsts| ==> dsts[i] != dsts[j]
    requires l.logBlocks == LOGBLOCKS && l.Fits(d) && LogSpec.HeadCount(l, d) == 0 && |data| == |dsts|
    requires forall b :: b in After(INIT, ts).lh ==> b < |d| && !l.InLog(b)
    requires i <= 2 * |dsts| + 2
    ensures LogSpec.TxnOk(l, d, dsts, data) && LogSpec.HeaderOk(l, LogSpec.CommitState(l, d, dsts, data, i))
    ensures LogSpec.SameHome(l, LogSpec.Recovered(l, LogSpec.CommitState(l, d, dsts, data, i)),
                             if i <= |dsts| then d else LogSpec.NewHome(d, dsts, data))
  {
    LogSpaceReserved(ts);
    DistinctCount(dsts);
    forall k | 0 <= k < |dsts| ensures dsts[k] < |d| && !l.InLog(dsts[k]) { assert dsts[k] in Named(dsts); }
    LogSpec.CommitAtomic(l, d, dsts, data, i);
  }

  /** No open call has logged more than n blocks. */
  ghost predicate Frugal(s: State, n: nat) { forall i :: 0 <= i < |s.open| ==> |s.open[i].blocks| <= n }

  /** Nor does one at any point of the run. */
  ghost predicate FrugalRun(s: State, ts: seq<Step>, n: nat)
    requires RunOk(s, ts)
    decreases ts
  {
    Frugal(s, n) && (ts != [] ==> FrugalRun(Apply(s, ts[0]).state, ts[1..], n))
  }

  lemma {:induction false} FrugalUnused(open: seq<Op>, n: nat)
    requires n <= MAXOPBLOCKS && forall i :: 0 <= i < |open| ==> |open[i].blocks| <= n
    ensures Unused(open) >= if open == [] then 0 else MAXOPBLOCKS - n
  {
    if open != [] { FrugalUnused(open[1..], n); }
  }

  lemma {:induction false} FrugalKeeps(s: State, ts: seq<Step>, n: nat)
    requires Inv(s) && RunOk(s, ts) && FrugalRun(s, ts, n) && n <= MAXOPBLOCKS
    requires |s.lh| <= LOGBLOCKS - (MAXOPBLOCKS - n)
    ensures |After(s, ts).lh| <= LOGBLOCKS - (MAXOPBLOCKS - n)
    decreases ts
  {
    if ts != [] {
      var s1 := Apply(s, ts[0]).state;
      StepKeepsInv(s, ts[0]);
      FrugalUnused(s1.open, n);
      FrugalKeeps(s1, ts[1..], n);
    }
  }

  /** A call that leaves part of its reservation leaves room in the log: if no call logs more than n blocks, the log
      never holds more than LOGBLOCKS - (MAXOPBLOCKS - n). With at most seven blocks a call, as in filewrite, three
      buffers stay free at any commit; the log is full only if some call has used all of its reservation. */
  lemma RoomLeft(ts: seq<Step>, n: nat)
    requires RunOk(INIT, ts) && n <= MAXOPBLOCKS && FrugalRun(INIT, ts, n)
    ensures |After(INIT, ts).lh| <= LOGBLOCKS - (MAXOPBLOCKS - n)
  {
    FrugalKeeps(INIT, ts, n);
  }

  /** begin_op never waits for a log that nobody uses. */
  lemma IdleLogAdmits(ts: seq<Step>, id: OpId)
    requires RunOk(INIT, ts)
    requires var s := After(INIT, ts); s.open == [] && !s.committing && id !in s.committed
    ensures Enabled(After(INIT, ts), BeginOp(id))
  {
    RunKeepsInv(INIT, ts);
  }

  /** sys_sync returns, at once or after waiting, only when every call that had ended before it
      started is committed. */
  lemma SyncIsDurable(ts: seq<Step>, sync: nat)
    requires RunOk(INIT, ts)
    ensures var s := After(INIT, ts);
            && (Enabled(s, SyncReturn(sync)) ==> s.syncs[sync].earlier <= s.committed)
            && (!Enabled(s, SyncWait) ==> s.ended == map[])
  {
    RunKeepsInv(INIT, ts);
    var s := After(INIT, ts);
    if Enabled(s, SyncReturn(sync)) { assert SyncInv(s, s.syncs[sync]); }
  }

  lemma {:induction false} RunConcat(s: State, a: seq<Step>, b: seq<Step>)
    requires RunOk(s, a) && RunOk(After(s, a), b)
    ensures RunOk(s, a + b) && After(s, a + b) == After(After(s, a), b)
    decreases a
  {
    if a == [] {
      assert a + b == b;
    } else {
      RunConcat(Apply(s, a[0]).state, a[1..], b);
      assert (a + b)[1..] == a[1..] + b;
    }
  }

  /** The blocks from, from + 1, ..., from + k - 1. */
  function Span(from: nat, k: nat): (r: set<nat>)
    ensures forall x :: x in r <==> from <= x < from + k
    ensures |r| == k
  {
    if k == 0 then {} else Span(from, k - 1) + {from + k - 1}
  }

  function Writes(op: nat, from: nat, k: nat): seq<Step> {
    if k == 0 then [] else Writes(op, from, k - 1) + [LogWrite(op, from + k - 1)]
  }

  lemma SingleStep(s: State, t: Step)
    requires Enabled(s, t) && Apply(s, t).Next?
    ensures RunOk(s, [t]) && After(s, [t]) == Apply(s, t).state
  {
    assert [t][1..] == [];
  }

  /** The state after call op, which had logged nothing, has logged k blocks that were not logged. */
  ghost function Filled(s: State, op: nat, from: nat, k: nat): State
    requires op < |s.open|
  {
    s.(lh := s.lh + Span(from, k), open := s.open[op := s.open[op].(blocks := Span(from, k))])
  }

  lemma FilledNone(s: State, op: nat, from: nat)
    requires op < |s.open| && s.open[op].blocks == {}
    ensures Filled(s, op, from, 0) == s
  {
    assert s.lh + Span(from, 0) == s.lh;
    assert s.open[op := s.open[op].(blocks := Span(from, 0))] == s.open;
  }

  /** One more write of call op. */
  lemma WriteNext(s: State, op: nat, from: nat, k: nat)
    requires op < |s.open| && 0 < k <= MAXOPBLOCKS && Inv(Filled(s, op, from, k - 1))
    ensures var t := LogWrite(op, from + k - 1);
            && RunOk(Filled(s, op, from, k - 1), [t])
            && After(Filled(s, op, from, k - 1), [t]) == Filled(s, op, from, k) && Inv(Filled(s, op, from, k))
  {
    var s1, t := Filled(s, op, from, k - 1), LogWrite(op, from + k - 1);
    ReservationSuffices(s1, op, from + k - 1);
    WriteExtends(s, op, from, k);
    StepKeepsInv(s1, t);
    SingleStep(s1, t);
  }

  lemma {:induction false} WritesRun(s: State, op: nat, from: nat, k: nat)
    requires Inv(s) && op < |s.open| && s.open[op].blocks == {} && k <= MAXOPBLOCKS
    ensures RunOk(s, Writes(op, from, k)) && After(s, Writes(op, from, k)) == Filled(s, op, from, k)
    ensures Inv(Filled(s, op, from, k))
  {
    if k == 0 {
      FilledNone(s, op, from);
    } else {
      hide Inv, Filled, RunOk, After;
      WritesRun(s, op, from, k - 1);
      WriteNext(s, op, from, k);
      RunConcat(s, Writes(op, from, k - 1), [LogWrite(op, from + k - 1)]);
    }
  }

  lemma WriteExtends(s: State, op: nat, from: nat, k: nat)
    requires op < |s.open| && k > 0
    requires var t := LogWrite(op, from + k - 1); var s1 := Filled(s, op, from, k - 1);
             Enabled(s1, t) && Apply(s1, t).Next?
    ensures Apply(Filled(s, op, from, k - 1), LogWrite(op, from + k - 1)).state == Filled(s, op, from, k)
  {
    var s1 := Filled(s, op, from, k - 1);
    assert s1.lh + {from + k - 1} == s.lh + Span(from, k);
  }

  /** The guard of log_write is stricter than the space it protects: three calls that use all of
      their reservation fill the log, and then even a block that is already logged panics. */
  lemma FullLogRejectsAbsorption(x: nat) returns (ts: seq<Step>, s: State)
    ensures RunOk(INIT, ts) && s == After(INIT, ts)
    ensures |s.open| == 3 && x in s.open[0].blocks && x in s.lh
    ensures Enabled(s, LogWrite(0, x)) && Apply(s, LogWrite(0, x)) == Panic
  {
    var begins, s0 := [BeginOp(0), BeginOp(1), BeginOp(2)], ThreeOpen();
    BeginsRun();
    var m := MAXOPBLOCKS;
    var rest;
    rest, s := ThreeFull(s0, x, m);
    ts := begins + rest;
    RunConcat(INIT, begins, rest);
    assert s.open[0].blocks + {x} == Span(x, m);
  }

  function ThreeOpen(): State {
    INIT.(outstanding := 3, open := [Op(0, {}), Op(1, {}), Op(2, {})])
  }

  /** Three calls that log m blocks each fill the log. */
  lemma ThreeFull(s: State, x: nat, m: nat) returns (ts: seq<Step>, r: State)
    requires m == MAXOPBLOCKS
    requires Inv(s) && s.lh == {} && |s.open| == 3 && forall i :: 0 <= i < 3 ==> s.open[i].blocks == {}
    ensures RunOk(s, ts) && r == After(s, ts)
    ensures |r.open| == 3 && r.outstanding == s.outstanding
    ensures r.open[0].blocks == Span(x, m) && r.lh == Span(x, 3 * m)
  {
    var w0, w1, w2 := Writes(0, x, m), Writes(1, x + m, m), Writes(2, x + 2 * m, m);
    WritesRun(s, 0, x, m);
    var s1 := Filled(s, 0, x, m);
    WritesRun(s1, 1, x + m, m);
    var s2 := Filled(s1, 1, x + m, m);
    WritesRun(s2, 2, x + 2 * m, m);
    RunConcat(s1, w1, w2);
    RunConcat(s, w0, w1 + w2);
    ts, r := w0 + (w1 + w2), Filled(s2, 2, x + 2 * m, m);
    SpanJoin(x, m, m);
    SpanJoin(x, 2 * m, m);
  }

  lemma SpanJoin(from: nat, k: nat, j: nat)
    ensures Span(from, k) + Span(from + k, j) == Span(from, k + j)
  {
  }

  lemma BeginsRun()
    ensures var begins := [BeginOp(0), BeginOp(1), BeginOp(2)];
            && RunOk(INIT, begins)
            && After(INIT, begins) == ThreeOpen() && Inv(ThreeOpen())
  {
    var begins := [BeginOp(0), BeginOp(1), BeginOp(2)];
    assert begins[1..] == [BeginOp(1), BeginOp(2)] && begins[1..][1..] == [BeginOp(2)];
    assert begins[1..][1..][1..] == [];
    var s1 := Apply(INIT, BeginOp(0)).state;
    var s2 := Apply(s1, BeginOp(1)).state;
    assert RunOk(s2, [BeginOp(2)]);
    assert RunOk(s1, begins[1..]);
    RunKeepsInv(INIT, begins);
  }
}
