/** The write-ahead log of kernel/log.c as a function on whole-disk contents.

    A disk is a sequence of blocks and a block is a sequence of 32-bit words. Block `start` is the
    log header, the next `logBlocks` blocks hold logged contents, and every other block is a home
    block. Single-block writes are atomic, so a crash leaves the disk in one of the states between
    two writes. This module names those states for `commit` and for `recover_from_log`, and proves
    what recovery makes of each of them. Log.dfy proves that the methods pass through exactly these
    states. */
module LogSpec {
  const WORDS: nat := 256  // BSIZE / sizeof(uint)
  type Block = b: seq<nat> | |b| == WORDS witness seq(WORDS, i => 0)
  type Disk = seq<Block>

  /** Where the log lives and how large it is. */
  datatype Layout = Layout(start: nat, logBlocks: nat) {
    predicate InLog(b: nat) { start <= b <= start + logBlocks }

    /** The header fits a block with room to spare (the test in initlog) and the log fits the disk. */
    predicate Fits(d: Disk) {
      logBlocks + 1 < WORDS && start + logBlocks < |d|
    }
  }

  function HeadCount(l: Layout, d: Disk): nat
    requires l.Fits(d)
  {
    d[l.start][0]
  }

  /** A header that names at most logBlocks home blocks. */
  predicate HeaderOk(l: Layout, d: Disk) {
    && l.Fits(d)
    && HeadCount(l, d) <= l.logBlocks
    && forall i :: 1 <= i <= HeadCount(l, d) ==> d[l.start][i] < |d| && !l.InLog(d[l.start][i])
  }

  function HeadDsts(l: Layout, d: Disk): seq<nat>
    requires HeaderOk(l, d)
  {
    d[l.start][1..1 + HeadCount(l, d)]
  }

  function LogData(l: Layout, d: Disk): seq<Block>
    requires HeaderOk(l, d)
  {
    d[l.start + 1..l.start + 1 + HeadCount(l, d)]
  }

  /** The header block after write_head stores `dsts` over what the block held before: entries past
      the count keep their old words. */
  function EncodeHead(was: Block, dsts: seq<nat>): (b: Block)
    requires |dsts| < WORDS
    ensures b[0] == |dsts| && b[1..1 + |dsts|] == dsts
  {
    [|dsts|] + dsts + was[1 + |dsts|..]
  }

  /** The first k of the writes data[i] -> dsts[i], in order. */
  function Apply(d: Disk, dsts: seq<nat>, data: seq<Block>, k: nat): (r: Disk)
    requires k <= |dsts| == |data|
    requires forall i :: 0 <= i < |dsts| ==> dsts[i] < |d|
    ensures |r| == |d|
  {
    if k == 0 then d else Apply(d, dsts, data, k - 1)[dsts[k - 1] := data[k - 1]]
  }

  /** install_trans after k iterations. */
  function Install(l: Layout, d: Disk, k: nat): Disk
    requires HeaderOk(l, d) && k <= HeadCount(l, d)
  {
    Apply(d, HeadDsts(l, d), LogData(l, d), k)
  }

  function ClearHead(l: Layout, d: Disk): Disk
    requires l.Fits(d)
  {
    d[l.start := EncodeHead(d[l.start], [])]
  }

  /** What recover_from_log leaves on the disk. */
  function Recovered(l: Layout, d: Disk): (r: Disk)
    requires HeaderOk(l, d)
    ensures l.Fits(r) && |r| == |d|
  {
    InstallKeepsLog(l, d, HeadCount(l, d));
    ClearHead(l, Install(l, d, HeadCount(l, d)))
  }

  /** Two disks hold the same home blocks. */
  ghost predicate SameHome(l: Layout, a: Disk, b: Disk) {
    |a| == |b| && forall x :: 0 <= x < |a| && !l.InLog(x) ==> a[x] == b[x]
  }

  /** A transaction that log_write may have built: distinct home blocks, no more than the log holds. */
  ghost predicate TxnOk(l: Layout, d: Disk, dsts: seq<nat>, data: seq<Block>) {
    && |dsts| == |data| <= l.logBlocks
    && (forall i :: 0 <= i < |dsts| ==> dsts[i] < |d| && !l.InLog(dsts[i]))
    && (forall i, j :: 0 <= i < j < |dsts| ==> dsts[i] != dsts[j])
  }

  /** write_log after k iterations. */
  function LogWritten(l: Layout, d: Disk, data: seq<Block>, k: nat): (r: Disk)
    requires l.Fits(d) && k <= |data| <= l.logBlocks
    ensures |r| == |d|
  {
    if k == 0 then d else LogWritten(l, d, data, k - 1)[l.start + k := data[k - 1]]
  }

  /** The disk after the first i disk writes of commit: |dsts| log blocks, the header, |dsts| home
      blocks, and the cleared header. */
  function CommitState(l: Layout, d: Disk, dsts: seq<nat>, data: seq<Block>, i: nat): Disk
    requires l.Fits(d) && TxnOk(l, d, dsts, data) && i <= 2 * |dsts| + 2
  {
    if i <= |dsts| then
      LogWritten(l, d, data, i)
    else
      var committed := Headed(l, d, dsts, data);
      HeadedOk(l, d, dsts, data);
      if i <= 2 * |dsts| + 1 then Install(l, committed, i - |dsts| - 1) else Recovered(l, committed)
  }

  /** The disk just after write_head: the true commit point. */
  function Headed(l: Layout, d: Disk, dsts: seq<nat>, data: seq<Block>): (r: Disk)
    requires l.Fits(d) && TxnOk(l, d, dsts, data)
    ensures |r| == |d|
  {
    LogWrittenAt(l, d, data, |data|);
    var logged := LogWritten(l, d, data, |data|);
    logged[l.start := EncodeHead(logged[l.start], dsts)]
  }

  /** The index of the last of the first k writes that goes to block b, or -1. */
  ghost function LastTo(dsts: seq<nat>, k: nat, b: nat): (r: int)
    requires k <= |dsts|
    ensures -1 <= r < k
    ensures r == -1 ==> forall i :: 0 <= i < k ==> dsts[i] != b
    ensures r >= 0 ==> dsts[r] == b && forall i :: r < i < k ==> dsts[i] != b
  {
    if k == 0 then -1 else if dsts[k - 1] == b then k - 1 else LastTo(dsts, k - 1, b)
  }

  lemma {:induction false} ApplyAt(d: Disk, dsts: seq<nat>, data: seq<Block>, k: nat, b: nat)
    requires k <= |dsts| == |data|
    requires forall i :: 0 <= i < |dsts| ==> dsts[i] < |d|
    requires b < |d|
    ensures Apply(d, dsts, data, k)[b] ==
            if LastTo(dsts, k, b) >= 0 then data[LastTo(dsts, k, b)] else d[b]
  {
    if k > 0 { ApplyAt(d, dsts, data, k - 1, b); }
  }

  /** Redoing all n writes on a disk that already has the first k gives what n writes give. */
  lemma ApplyTwice(d: Disk, dsts: seq<nat>, data: seq<Block>, k: nat, n: nat)
    requires k <= n <= |dsts| == |data|
    requires forall i :: 0 <= i < |dsts| ==> dsts[i] < |d|
    ensures Apply(Apply(d, dsts, data, k), dsts, data, n) == Apply(d, dsts, data, n)
  {
    var e := Apply(d, dsts, data, k);
    forall b | 0 <= b < |d| ensures Apply(e, dsts, data, n)[b] == Apply(d, dsts, data, n)[b] {
      ApplyAt(d, dsts, data, k, b);
      ApplyAt(d, dsts, data, n, b);
      ApplyAt(e, dsts, data, n, b);
    }
  }

  /** Installing touches home blocks only, so the log it reads from stays as it was. */
  lemma InstallKeepsLog(l: Layout, d: Disk, k: nat)
    requires HeaderOk(l, d) && k <= HeadCount(l, d)
    ensures var e := Install(l, d, k);
            && |e| == |d| && HeaderOk(l, e)
            && (forall b :: 0 <= b < |d| && l.InLog(b) ==> e[b] == d[b])
            && HeadDsts(l, e) == HeadDsts(l, d) && LogData(l, e) == LogData(l, d)
  {
    var e := Install(l, d, k);
    forall b | 0 <= b < |d|
      ensures l.InLog(b) ==> e[b] == d[b]
    {
      ApplyAt(d, HeadDsts(l, d), LogData(l, d), k, b);
    }
  }

  lemma {:induction false} LogWrittenAt(l: Layout, d: Disk, data: seq<Block>, k: nat)
    requires l.Fits(d) && k <= |data| <= l.logBlocks
    ensures var r := LogWritten(l, d, data, k);
            && l.Fits(r)
            && (forall b :: 0 <= b < |d| && !(l.start < b <= l.start + k) ==> r[b] == d[b])
            && r[l.start + 1..l.start + 1 + k] == data[..k]
  {
    if k > 0 {
      LogWrittenAt(l, d, data, k - 1);
      var q, r := LogWritten(l, d, data, k - 1), LogWritten(l, d, data, k);
      assert r[l.start + 1..l.start + k] == q[l.start + 1..l.start + k];
      assert r[l.start + 1..l.start + 1 + k] == r[l.start + 1..l.start + k] + [data[k - 1]];
      assert data[..k] == data[..k - 1] + [data[k - 1]];
    }
  }

  /** After the header write the on-disk log names exactly the transaction. */
  lemma HeadedOk(l: Layout, d: Disk, dsts: seq<nat>, data: seq<Block>)
    requires l.Fits(d) && TxnOk(l, d, dsts, data)
    ensures var h := Headed(l, d, dsts, data);
            && HeaderOk(l, h) && HeadCount(l, h) == |dsts|
            && HeadDsts(l, h) == dsts && LogData(l, h) == data
            && SameHome(l, h, d)
  {
    LogWrittenAt(l, d, data, |data|);
    var h := Headed(l, d, dsts, data);
    assert h[l.start][1..1 + |dsts|] == dsts;
    assert forall i :: 1 <= i <= |dsts| ==> h[l.start][i] == h[l.start][1..1 + |dsts|][i - 1];
    var logged := LogWritten(l, d, data, |data|);
    assert h[l.start + 1..l.start + 1 + |data|] == logged[l.start + 1..l.start + 1 + |data|];
  }

  /** Recovery gives the same disk from every state that recovery itself passes through. */
  lemma RecoveryIdempotent(l: Layout, d: Disk, k: nat)
    requires HeaderOk(l, d) && k <= HeadCount(l, d) + 1
    ensures HeaderOk(l, RecoveryState(l, d, k))
    ensures Recovered(l, RecoveryState(l, d, k)) == Recovered(l, d)
  {
    var n := HeadCount(l, d);
    InstallKeepsLog(l, d, n);
    if k <= n {
      InstallKeepsLog(l, d, k);
      ApplyTwice(d, HeadDsts(l, d), LogData(l, d), k, n);
    } else {
      RecoveredIdle(l, d);
      var r := Recovered(l, d);
      assert EncodeHead(r[l.start], []) == r[l.start];
    }
  }

  /** The disk after the first k disk writes of recover_from_log. */
  function RecoveryState(l: Layout, d: Disk, k: nat): Disk
    requires HeaderOk(l, d) && k <= HeadCount(l, d) + 1
  {
    if k <= HeadCount(l, d) then Install(l, d, k) else Recovered(l, d)
  }

  /** Recovery leaves an empty log and, when the log was empty already, all home blocks alone. */
  lemma RecoveredIdle(l: Layout, d: Disk)
    requires HeaderOk(l, d)
    ensures HeaderOk(l, Recovered(l, d)) && HeadCount(l, Recovered(l, d)) == 0
    ensures HeadCount(l, d) == 0 ==> SameHome(l, Recovered(l, d), d)
  {
    InstallKeepsLog(l, d, HeadCount(l, d));
  }

  /** A chain of recovery attempts, each but the last cut short by another crash. */
  ghost predicate Crashes(l: Layout, d: Disk, ks: seq<nat>)
    decreases ks
  {
    HeaderOk(l, d) &&
    (ks != [] ==> ks[0] <= HeadCount(l, d) + 1 && Crashes(l, RecoveryState(l, d, ks[0]), ks[1..]))
  }

  /** The disk found by the recovery attempt that is allowed to finish. */
  ghost function AfterCrashes(l: Layout, d: Disk, ks: seq<nat>): Disk
    requires Crashes(l, d, ks)
    decreases ks
  {
    if ks == [] then d else AfterCrashes(l, RecoveryState(l, d, ks[0]), ks[1..])
  }

  /** However often recovery is interrupted, the attempt that completes gives the same disk. */
  lemma {:induction false} RecoverySurvivesCrashes(l: Layout, d: Disk, ks: seq<nat>)
    requires Crashes(l, d, ks)
    ensures HeaderOk(l, AfterCrashes(l, d, ks))
    ensures Recovered(l, AfterCrashes(l, d, ks)) == Recovered(l, d)
    decreases ks
  {
    if ks != [] {
      RecoverySurvivesCrashes(l, RecoveryState(l, d, ks[0]), ks[1..]);
      RecoveryIdempotent(l, d, ks[0]);
    }
  }

  /** The home blocks a committed transaction is meant to leave. */
  function NewHome(d: Disk, dsts: seq<nat>, data: seq<Block>): Disk
    requires |dsts| == |data| && forall i :: 0 <= i < |dsts| ==> dsts[i] < |d|
  {
    Apply(d, dsts, data, |dsts|)
  }

  /** Crash atomicity of one commit: a crash before the header write loses the whole transaction, a
      crash after it loses none of it, and in both cases recovery leaves the log empty. */
  lemma CommitAtomic(l: Layout, d: Disk, dsts: seq<nat>, data: seq<Block>, i: nat)
    requires l.Fits(d) && HeadCount(l, d) == 0
    requires TxnOk(l, d, dsts, data) && i <= 2 * |dsts| + 2
    ensures var s := CommitState(l, d, dsts, data, i);
            && HeaderOk(l, s)
            && SameHome(l, Recovered(l, s), if i <= |dsts| then d else NewHome(d, dsts, data))
            && HeadCount(l, Recovered(l, s)) == 0
  {
    var s := CommitState(l, d, dsts, data, i);
    if i <= |dsts| {
      LogWrittenAt(l, d, data, i);
      RecoveredIdle(l, s);
    } else {
      var h := Headed(l, d, dsts, data);
      HeadedOk(l, d, dsts, data);
      RecoveryIdempotent(l, h, i - |dsts| - 1);
      RecoveredIdle(l, s);
      RecoveredHeaded(l, d, dsts, data);
    }
  }

  lemma RecoveredHeaded(l: Layout, d: Disk, dsts: seq<nat>, data: seq<Block>)
    requires l.Fits(d) && TxnOk(l, d, dsts, data)
    ensures HeaderOk(l, Headed(l, d, dsts, data))
    ensures SameHome(l, Recovered(l, Headed(l, d, dsts, data)), NewHome(d, dsts, data))
  {
    var h := Headed(l, d, dsts, data);
    HeadedOk(l, d, dsts, data);
    InstallKeepsLog(l, h, |dsts|);
    forall x | 0 <= x < |d| && !l.InLog(x)
      ensures Recovered(l, h)[x] == NewHome(d, dsts, data)[x]
    {
      ApplyAt(h, dsts, data, |dsts|, x);
      ApplyAt(d, dsts, data, |dsts|, x);
    }
  }

  /** One thing that can happen to an idle log: a transaction that commits, or one whose commit is
      cut off after `at` disk writes, followed by recovery that is itself cut off at each of `ks`. */
  datatype Event =
    | Committed(dsts: seq<nat>, data: seq<Block>)
    | Crashed(dsts: seq<nat>, data: seq<Block>, at: nat, ks: seq<nat>)

  ghost predicate EventOk(l: Layout, d: Disk, e: Event) {
    && l.Fits(d) && HeadCount(l, d) == 0 && TxnOk(l, d, e.dsts, e.data)
    && (e.Crashed? ==>
          && e.at <= 2 * |e.dsts| + 2
          && Crashes(l, CommitState(l, d, e.dsts, e.data, e.at), e.ks))
  }

  /** The disk after the event, once recovery (if any) has finished. */
  ghost function AfterEvent(l: Layout, d: Disk, e: Event): Disk
    requires EventOk(l, d, e)
  {
    match e
    case Committed(dsts, data) => CommitState(l, d, dsts, data, 2 * |dsts| + 2)
    case Crashed(dsts, data, at, ks) =>
      var s := AfterCrashes(l, CommitState(l, d, dsts, data, at), ks);
      RecoverySurvivesCrashes(l, CommitState(l, d, dsts, data, at), ks);
      Recovered(l, s)
  }

  /** The same event on a disk whose transactions are indivisible. */
  ghost function AtomicEvent(d: Disk, e: Event): Disk
    requires |e.dsts| == |e.data| && forall i :: 0 <= i < |e.dsts| ==> e.dsts[i] < |d|
  {
    if e.Crashed? && e.at <= |e.dsts| then d else NewHome(d, e.dsts, e.data)
  }

  ghost predicate RunOk(l: Layout, d: Disk, es: seq<Event>)
    decreases es
  {
    l.Fits(d) && HeadCount(l, d) == 0 &&
    (es != [] ==> EventOk(l, d, es[0]) && RunOk(l, AfterEvent(l, d, es[0]), es[1..]))
  }

  ghost function Run(l: Layout, d: Disk, es: seq<Event>): Disk
    requires RunOk(l, d, es)
    decreases es
  {
    if es == [] then d else Run(l, AfterEvent(l, d, es[0]), es[1..])
  }

  ghost predicate AtomicRunOk(d: Disk, es: seq<Event>)
    decreases es
  {
    es != [] ==>
      && |es[0].dsts| == |es[0].data|
      && (forall i :: 0 <= i < |es[0].dsts| ==> es[0].dsts[i] < |d|)
      && AtomicRunOk(AtomicEvent(d, es[0]), es[1..])
  }

  ghost function AtomicRun(d: Disk, es: seq<Event>): Disk
    requires AtomicRunOk(d, es)
    decreases es
  {
    if es == [] then d else AtomicRun(AtomicEvent(d, es[0]), es[1..])
  }

  lemma AfterEventAtomic(l: Layout, d: Disk, e: Event)
    requires EventOk(l, d, e)
    ensures SameHome(l, AfterEvent(l, d, e), AtomicEvent(d, e))
  {
    match e
    case Committed(dsts, data) =>
      RecoveredHeaded(l, d, dsts, data);
    case Crashed(dsts, data, at, ks) =>
      RecoverySurvivesCrashes(l, CommitState(l, d, dsts, data, at), ks);
      CommitAtomic(l, d, dsts, data, at);
  }

  lemma NewHomeSame(l: Layout, a: Disk, b: Disk, dsts: seq<nat>, data: seq<Block>)
    requires SameHome(l, a, b)
    requires |dsts| == |data| && forall i :: 0 <= i < |dsts| ==> dsts[i] < |a|
    ensures SameHome(l, NewHome(a, dsts, data), NewHome(b, dsts, data))
  {
    forall x | 0 <= x < |a| && !l.InLog(x)
      ensures NewHome(a, dsts, data)[x] == NewHome(b, dsts, data)[x]
    {
      ApplyAt(a, dsts, data, |dsts|, x);
      ApplyAt(b, dsts, data, |dsts|, x);
    }
  }

  /** Over a whole life of the disk, with any mix of commits, crashes at any write, and crashes
      during recovery, the home blocks are those of a disk on which every transaction is indivisible:
      applied as a whole, or not at all exactly when its header write was not reached. */
  lemma {:induction false} LogRefinesAtomicDisk(l: Layout, d: Disk, a: Disk, es: seq<Event>)
    requires RunOk(l, d, es) && SameHome(l, d, a)
    ensures AtomicRunOk(a, es)
    ensures SameHome(l, Run(l, d, es), AtomicRun(a, es))
    decreases es
  {
    if es != [] {
      AfterEventAtomic(l, d, es[0]);
      NewHomeSame(l, d, a, es[0].dsts, es[0].data);
      LogRefinesAtomicDisk(l, AfterEvent(l, d, es[0]), AtomicEvent(a, es[0]), es[1..]);
    }
  }

  /** A property of the file system: it looks at home blocks only. */
  ghost predicate HomeOnly(l: Layout, inv: Disk -> bool) {
    forall a: Disk, b: Disk :: SameHome(l, a, b) && inv(a) ==> inv(b)
  }

  /** Every transaction of the run, applied as a whole where the one before left off, keeps inv. */
  ghost predicate KeptByEach(d: Disk, es: seq<Event>, inv: Disk -> bool)
    requires AtomicRunOk(d, es)
    decreases es
  {
    es != [] ==> (inv(d) ==> inv(AtomicEvent(d, es[0]))) && KeptByEach(AtomicEvent(d, es[0]), es[1..], inv)
  }

  lemma {:induction false} AtomicRunKeeps(d: Disk, es: seq<Event>, inv: Disk -> bool)
    requires AtomicRunOk(d, es) && KeptByEach(d, es, inv) && inv(d)
    ensures inv(AtomicRun(d, es))
    decreases es
  {
    if es != [] { AtomicRunKeeps(AtomicEvent(d, es[0]), es[1..], inv); }
  }

  /** A file-system invariant that whole transactions keep holds after every crash and recovery as well. */
  lemma InvariantSurvives(l: Layout, d: Disk, es: seq<Event>, inv: Disk -> bool)
    requires RunOk(l, d, es) && HomeOnly(l, inv) && inv(d)
    requires AtomicRunOk(d, es) ==> KeptByEach(d, es, inv)
    ensures inv(Run(l, d, es))
  {
    LogRefinesAtomicDisk(l, d, d, es);
    AtomicRunKeeps(d, es, inv);
    SameHomeSymmetric(l, Run(l, d, es), AtomicRun(d, es));
  }

  lemma SameHomeSymmetric(l: Layout, a: Disk, b: Disk)
    requires SameHome(l, a, b)
    ensures SameHome(l, b, a)
  {
  }
}
