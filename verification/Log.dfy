/** The buffer cache while several processes use it. One of them, the committer, is followed step by step;
    the others read files without being in a transaction, so they hold and wait for buffers of home blocks
    only, and change nothing. */
module Sharing {
  import opened LogSpec
  import opened Bcache

  /** What another process can do in one step: the critical sections of bread and brelse. */
  datatype Act = Get(blockno: nat) | Take(b: nat) | Fetch(b: nat) | Unlock(b: nat) | Unref(b: nat)

  /** How a stretch of kernel code ends: it goes on; some process found no buffer for block x and
      panicked; or the run is over while it waits for a sleep lock. */
  datatype Outcome = Done | Halted(x: nat) | Blocked

  /** One buffer, used by others through `refs` references without its lock, and through the lock unless
      the committer has it. With `quiet` there are no others. */
  ghost predicate BufOk(l: Layout, b: Buf, refs: int, logical: Disk, mine: bool, quiet: bool) {
    && refs >= 0
    && (refs > 0 || (b.locked && !mine) ==> !quiet && b.dev == ROOTDEV && !l.InLog(b.blockno))
    && (b.locked && !mine && b.valid ==> b.blockno < |logical| && b.data == logical[b.blockno])
  }

  /** The references of others to buffer i without its lock. */
  function Refs(waiting: seq<nat>, want: int, i: nat): int
    requires i < |waiting|
  {
    var n: int := waiting[i];
    if i == want then n - 1 else n
  }

  /** The committer holds the locks of `mine`, and a reference to `want` without the lock (-1 is none). */
  ghost predicate Shared(l: Layout, bufs: seq<Buf>, waiting: seq<nat>, logical: Disk, mine: set<nat>, want: int, quiet: bool) {
    && |bufs| == |waiting| && -1 <= want < |bufs|
    && (forall h :: h in mine ==> h < |bufs| && bufs[h].locked)
    && (forall i: nat :: i < |bufs| ==>
          BufOk(l, bufs[i], Refs(waiting, want, i), logical, i in mine, quiet))
  }

  /** A buffer whose lock is held keeps everything but its reference count. */
  predicate Stays(a: Buf, b: Buf) { b == a.(refcnt := b.refcnt) }

  /** What the others leave alone: the committer's buffers, and the identity of the one it waits for. */
  ghost predicate Kept(a: seq<Buf>, b: seq<Buf>, mine: set<nat>, want: int) {
    && |a| == |b| && (forall h :: h in mine && h < |a| ==> Stays(a[h], b[h]))
    && (0 <= want < |a| ==> b[want].dev == a[want].dev && b[want].blockno == a[want].blockno)
  }

  /** No buffer can be had for block x. */
  ghost predicate NoRoom(bufs: seq<Buf>, disk: Disk, x: nat) { x < |disk| && !Cached(bufs, ROOTDEV, x) && Full(bufs) }

  /** Buffer b alone changes. */
  lemma SharedAt(l: Layout, bufs: seq<Buf>, waiting: seq<nat>, bufs1: seq<Buf>, waiting1: seq<nat>, logical: Disk,
                 mine: set<nat>, mine1: set<nat>, want: int, want1: int, quiet: bool, b: nat)
    requires Shared(l, bufs, waiting, logical, mine, want, quiet) && b < |bufs| == |bufs1| == |waiting1| && -1 <= want1 < |bufs|
    requires forall i: nat :: i < |bufs| && i != b ==>
      bufs1[i] == bufs[i] && waiting1[i] == waiting[i] && (i in mine1 <==> i in mine) && (i == want1 <==> i == want)
    requires forall h :: h in mine1 ==> h < |bufs|
    requires b in mine1 ==> bufs1[b].locked
    requires BufOk(l, bufs1[b], Refs(waiting1, want1, b), logical, b in mine1, quiet)
    ensures Shared(l, bufs1, waiting1, logical, mine1, want1, quiet)
  {
    hide BufOk;
  }

  lemma SharedBuf(l: Layout, bufs: seq<Buf>, waiting: seq<nat>, logical: Disk, mine: set<nat>, want: int, quiet: bool, b: nat)
    requires Shared(l, bufs, waiting, logical, mine, want, quiet) && b < |bufs|
    ensures |waiting| == |bufs| && BufOk(l, bufs[b], Refs(waiting, want, b), logical, b in mine, quiet)
    ensures b in mine ==> bufs[b].locked
    ensures forall h :: h in mine ==> h < |bufs|
  {
  }

  /** A reference to a buffer for block x has been taken. */
  lemma GotShared(l: Layout, bufs: seq<Buf>, waiting: seq<nat>, bufs1: seq<Buf>, waiting1: seq<nat>, pinned: map<nat, nat>,
                  logical: Disk, mine: set<nat>, quiet: bool, b: nat, x: nat)
    requires Shared(l, bufs, waiting, logical, mine, -1, quiet) && Counted(bufs, waiting, pinned) && b < |bufs|
    requires waiting1 == waiting[b := waiting[b] + 1] && forall h :: h in mine && h < |bufs| ==> !bufs[h].Holds(ROOTDEV, x)
    requires if bufs[b].Holds(ROOTDEV, x) then bufs1 == bufs[b := bufs[b].(refcnt := bufs[b].refcnt + 1)]
             else bufs[b].refcnt == 0 && bufs1 == bufs[b := bufs[b].(dev := ROOTDEV, blockno := x, valid := false, refcnt := 1)]
    ensures b !in mine && Shared(l, bufs1, waiting1, logical, mine, b, quiet) && Kept(bufs, bufs1, mine, -1)
    ensures quiet ==> !bufs1[b].locked
  {
    SharedBuf(l, bufs, waiting, logical, mine, -1, quiet, b);
    SharedAt(l, bufs, waiting, bufs1, waiting1, logical, mine, mine, -1, b, quiet, b);
  }

  /** The committer takes the lock of the buffer it waits for. */
  lemma LockedShared(l: Layout, bufs: seq<Buf>, waiting: seq<nat>, bufs1: seq<Buf>, waiting1: seq<nat>, logical: Disk,
                     mine: set<nat>, quiet: bool, b: nat)
    requires Shared(l, bufs, waiting, logical, mine, b, quiet) && b < |bufs| && waiting[b] > 0 && !bufs[b].locked
    requires bufs1 == bufs[b := bufs[b].(locked := true)] && waiting1 == waiting[b := waiting[b] - 1]
    ensures Shared(l, bufs1, waiting1, logical, mine + {b}, -1, quiet) && Kept(bufs, bufs1, mine, -1) && b !in mine
  {
    SharedBuf(l, bufs, waiting, logical, mine, b, quiet, b);
    SharedAt(l, bufs, waiting, bufs1, waiting1, logical, mine, mine + {b}, b, -1, quiet, b);
  }

  /** The contents of one of the committer's buffers change. */
  lemma FilledShared(l: Layout, bufs: seq<Buf>, waiting: seq<nat>, bufs1: seq<Buf>, logical: Disk, mine: set<nat>, quiet: bool, b: nat)
    requires Shared(l, bufs, waiting, logical, mine, -1, quiet) && b in mine && b < |bufs|
    requires |bufs1| == |bufs| && bufs1 == bufs[b := bufs[b].(valid := bufs1[b].valid, data := bufs1[b].data, refcnt := bufs1[b].refcnt)]
    ensures Shared(l, bufs1, waiting, logical, mine, -1, quiet) && Kept(bufs, bufs1, mine - {b}, -1)
  {
    SharedBuf(l, bufs, waiting, logical, mine, -1, quiet, b);
    SharedAt(l, bufs, waiting, bufs1, waiting, logical, mine, mine, -1, -1, quiet, b);
  }

  /** The committer writes the block of one of its buffers. */
  lemma WroteShared(l: Layout, bufs: seq<Buf>, waiting: seq<nat>, logical: Disk, mine: set<nat>, quiet: bool, b: nat, data: Block)
    requires Shared(l, bufs, waiting, logical, mine, -1, quiet) && b in mine && Unique(bufs)
    requires b < |bufs| && bufs[b].dev == ROOTDEV && bufs[b].blockno < |logical|
    ensures Shared(l, bufs, waiting, logical[bufs[b].blockno := data], mine, -1, quiet)
  {
    var logical1 := logical[bufs[b].blockno := data];
    forall i: nat | i < |bufs| ensures BufOk(l, bufs[i], Refs(waiting, -1, i), logical1, i in mine, quiet) {
      SharedBuf(l, bufs, waiting, logical, mine, -1, quiet, i);
      if i < b { assert bufs[i].dev == ROOTDEV ==> !bufs[b].Holds(ROOTDEV, bufs[i].blockno); }
      if b < i { assert !bufs[i].Holds(ROOTDEV, bufs[b].blockno); }
    }
  }

  /** The committer gives up a lock but not the reference, and then the reference. */
  lemma UnlockedShared(l: Layout, bufs: seq<Buf>, waiting: seq<nat>, bufs1: seq<Buf>, waiting1: seq<nat>, logical: Disk,
                       mine: set<nat>, quiet: bool, b: nat)
    requires Shared(l, bufs, waiting, logical, mine, -1, quiet) && b in mine && b < |bufs| && |waiting| == |bufs|
    requires bufs1 == bufs[b := bufs[b].(locked := false)] && waiting1 == waiting[b := waiting[b] + 1]
    ensures Shared(l, bufs1, waiting1, logical, mine - {b}, b, quiet) && Kept(bufs, bufs1, mine - {b}, -1)
  {
    SharedBuf(l, bufs, waiting, logical, mine, -1, quiet, b);
    SharedAt(l, bufs, waiting, bufs1, waiting1, logical, mine, mine - {b}, -1, b, quiet, b);
  }

  lemma UnrefShared(l: Layout, bufs: seq<Buf>, waiting: seq<nat>, bufs1: seq<Buf>, waiting1: seq<nat>, logical: Disk,
                    mine: set<nat>, quiet: bool, b: nat)
    requires Shared(l, bufs, waiting, logical, mine, b, quiet) && b !in mine && b < |bufs| == |bufs1| && |waiting| == |bufs| && waiting[b] > 0
    requires bufs1 == bufs[b := bufs[b].(refcnt := bufs1[b].refcnt)] && waiting1 == waiting[b := waiting[b] - 1]
    ensures Shared(l, bufs1, waiting1, logical, mine, -1, quiet) && Kept(bufs, bufs1, mine, -1)
  {
    SharedBuf(l, bufs, waiting, logical, mine, b, quiet, b);
    SharedAt(l, bufs, waiting, bufs1, waiting1, logical, mine, mine, b, -1, quiet, b);
  }

  /** With nobody else there, a buffer the committer does not use is referenced only by a pin. */
  lemma QuietCount(l: Layout, bufs: seq<Buf>, waiting: seq<nat>, pinned: map<nat, nat>, logical: Disk, mine: set<nat>, b: nat)
    requires Shared(l, bufs, waiting, logical, mine, -1, true) && Counted(bufs, waiting, pinned) && b < |bufs| && b !in mine
    ensures bufs[b].refcnt == if Pinned(bufs[b], pinned) then 1 else 0
  {
    SharedBuf(l, bufs, waiting, logical, mine, -1, true, b);
  }

  lemma KeptLess(a: seq<Buf>, b: seq<Buf>, mine: set<nat>, less: set<nat>, want: int)
    requires Kept(a, b, mine, want) && less <= mine
    ensures Kept(a, b, less, -1)
  {
  }

  lemma KeptSame(a: seq<Buf>, mine: set<nat>, want: int)
    ensures Kept(a, a, mine, want)
  {
  }

  lemma KeptTrans(a: seq<Buf>, b: seq<Buf>, c: seq<Buf>, mine: set<nat>, want: int)
    requires Kept(a, b, mine, want) && Kept(b, c, mine, want)
    ensures Kept(a, c, mine, want)
  {
  }
}

/** kernel/log.c on top of the buffer cache: log_write, commit and recovery as the source runs them,
    proved against the disk states named in LogSpec. */
module Log {
  import LogOps
  import opened Options
  import opened LogSpec
  import opened Bcache
  import opened Sharing

  /** An injective map has as many values as keys. */
  lemma {:induction false} InjectiveImage(m: map<nat, nat>)
    requires forall x, y :: x in m && y in m && x != y ==> m[x] != m[y]
    ensures |m.Values| == |m.Keys|
    decreases |m|
  {
    if m != map[] {
      var x :| x in m;
      var rest := m - {x};
      InjectiveImage(rest);
      assert m.Keys == rest.Keys + {x};
      assert m.Values == rest.Values + {m[x]} by {
        forall v | v in m.Values ensures v in rest.Values + {m[x]} {
          var y :| y in m && m[y] == v;
          if y != x { assert y in rest; }
        }
      }
    }
  }

  function Indices(n: nat): (s: set<nat>)
    ensures forall i: nat :: i in s <==> i < n
    ensures |s| == n
  {
    if n == 0 then {} else Indices(n - 1) + {n - 1}
  }

  lemma {:induction false} SubsetSize(a: set<nat>, b: set<nat>)
    requires a <= b
    ensures |a| <= |b|
    ensures |a| == |b| ==> a == b
  {
    if a != {} {
      var x :| x in a;
      SubsetSize(a - {x}, b - {x});
    }
  }

  ghost predicate Distinct(s: seq<nat>) {
    forall i, j :: 0 <= i < j < |s| ==> s[i] != s[j]
  }

  ghost function Elems(s: seq<nat>): (r: set<nat>)
    ensures forall x :: x in r <==> x in s
  {
    if s == [] then {} else {s[0]} + Elems(s[1..])
  }

  lemma {:induction false} DistinctSize(s: seq<nat>)
    requires Distinct(s)
    ensures |Elems(s)| == |s|
  {
    if s != [] {
      DistinctSize(s[1..]);
      assert Elems(s) == {s[0]} + Elems(s[1..]) && s[0] !in Elems(s[1..]);
    }
  }

  /** With nobody else there, a buffer is referenced exactly when the log pins it. */
  lemma InUseIffPinned(l: Layout, bufs: seq<Buf>, waiting: seq<nat>, pinned: map<nat, nat>, disk: Disk, logical: Disk, i: nat)
    requires Unique(bufs) && Counted(bufs, waiting, pinned) && Current(bufs, pinned, disk, logical)
    requires Shared(l, bufs, waiting, logical, {}, -1, true) && i < |bufs|
    ensures bufs[i].refcnt > 0 <==> i in pinned.Values
    ensures bufs[i].refcnt > 0 <==> Pinned(bufs[i], pinned)
  {
    hide Shared;
    QuietCount(l, bufs, waiting, pinned, logical, {}, i);
    if Pinned(bufs[i], pinned) { assert pinned[bufs[i].blockno] == i; }
  }

  /** So all are exactly when the log pins that many. */
  lemma FullIffAllPinned(l: Layout, bufs: seq<Buf>, waiting: seq<nat>, pinned: map<nat, nat>, disk: Disk, logical: Disk)
    requires Unique(bufs) && Counted(bufs, waiting, pinned) && Current(bufs, pinned, disk, logical)
    requires Shared(l, bufs, waiting, logical, {}, -1, true)
    ensures Full(bufs) <==> |pinned.Keys| == |bufs|
    ensures |pinned.Keys| <= |bufs|
    ensures Full(bufs) && (forall y :: y in pinned ==> !l.InLog(y)) ==> forall x :: l.InLog(x) ==> !Cached(bufs, ROOTDEV, x)
  {
    hide Shared, Unique, Counted, Current;
    PinnedInjective(bufs, pinned, disk, logical);
    InjectiveImage(pinned);
    var all := Indices(|bufs|);
    forall i | i in pinned.Values ensures i in all { PinnedAt(bufs, waiting, pinned, disk, logical, i); }
    SubsetSize(pinned.Values, all);
    forall i: nat | i < |bufs| ensures bufs[i].refcnt > 0 <==> i in pinned.Values ensures bufs[i].refcnt > 0 <==> Pinned(bufs[i], pinned) {
      InUseIffPinned(l, bufs, waiting, pinned, disk, logical, i);
    }
    if Full(bufs) {
      assert pinned.Values == all;
    }
  }

  /** With one buffer left by the pins, and that one taken for home block y, all buffers are in use and none
      holds a log block. */
  lemma AllTaken(l: Layout, bufs: seq<Buf>, waiting: seq<nat>, pinned: map<nat, nat>, disk: Disk, logical: Disk,
                 bufs1: seq<Buf>, b: nat, y: nat)
    requires Unique(bufs) && Counted(bufs, waiting, pinned) && Current(bufs, pinned, disk, logical)
    requires Shared(l, bufs, waiting, logical, {}, -1, true) && |pinned.Keys| + 1 == |bufs|
    requires !l.InLog(y) && y !in pinned && forall x :: x in pinned ==> !l.InLog(x)
    requires b < |bufs| == |bufs1| && bufs1 == bufs[b := bufs1[b]] && bufs1[b].Holds(ROOTDEV, y) && bufs1[b].refcnt > 0
    requires bufs[b].Holds(ROOTDEV, y) || bufs[b].refcnt == 0
    ensures Full(bufs1) && forall x :: l.InLog(x) ==> !Cached(bufs1, ROOTDEV, x)
  {
    hide Shared, Unique;
    PinnedInjective(bufs, pinned, disk, logical);
    InjectiveImage(pinned);
    var all := Indices(|bufs|);
    QuietCount(l, bufs, waiting, pinned, logical, {}, b);
    if b in pinned.Values { PinnedAt(bufs, waiting, pinned, disk, logical, b); }
    hide Counted, Current;
    assert |pinned.Values + {b}| == |pinned.Values| + 1;
    forall i: nat | i in pinned.Values ensures i in all { PinnedAt(bufs, waiting, pinned, disk, logical, i); }
    SubsetSize(pinned.Values + {b}, all);
    forall i: nat | i < |bufs| && i != b ensures bufs1[i].refcnt > 0 && bufs1[i].dev == ROOTDEV && bufs1[i].blockno in pinned {
      assert i in all && i in pinned.Values;
      PinnedAt(bufs, waiting, pinned, disk, logical, i);
    }
  }

  lemma PinnedAt(bufs: seq<Buf>, waiting: seq<nat>, pinned: map<nat, nat>, disk: Disk, logical: Disk, i: nat)
    requires Counted(bufs, waiting, pinned) && Current(bufs, pinned, disk, logical) && i in pinned.Values
    ensures i < |bufs| && bufs[i].refcnt > 0 && bufs[i].dev == ROOTDEV && bufs[i].blockno in pinned
  {
    var x :| x in pinned && pinned[x] == i;
  }

  lemma PinnedInjective(bufs: seq<Buf>, pinned: map<nat, nat>, disk: Disk, logical: Disk)
    requires Current(bufs, pinned, disk, logical)
    ensures forall x, y :: x in pinned && y in pinned && x != y ==> pinned[x] != pinned[y]
  {
  }

  /** The disk states between the first k writes of write_log. */
  ghost function LogTrace(l: Layout, d: Disk, data: seq<Block>, k: nat): seq<Disk>
    requires l.Fits(d) && k <= |data| <= l.logBlocks
  {
    if k == 0 then [] else LogTrace(l, d, data, k - 1) + [LogWritten(l, d, data, k)]
  }

  /** The disk states between the first k writes of install_trans. */
  ghost function InstallTrace(l: Layout, d: Disk, k: nat): seq<Disk>
    requires HeaderOk(l, d) && k <= HeadCount(l, d)
  {
    if k == 0 then [] else InstallTrace(l, d, k - 1) + [Install(l, d, k)]
  }

  /** The disk states after each of the writes a commit makes. */
  ghost function CommitTrace(l: Layout, d: Disk, dsts: seq<nat>, data: seq<Block>, k: nat): seq<Disk>
    requires l.Fits(d) && TxnOk(l, d, dsts, data) && k <= 2 * |dsts| + 2
  {
    if k == 0 then [] else CommitTrace(l, d, dsts, data, k - 1) + [CommitState(l, d, dsts, data, k)]
  }

  lemma NothingWritten(l: Layout, d: Disk, data: seq<Block>)
    requires l.Fits(d) && |data| <= l.logBlocks
    ensures LogWritten(l, d, data, 0) == d && LogTrace(l, d, data, 0) == []
  {
  }

  lemma LogStep(l: Layout, d: Disk, data: seq<Block>, k: nat)
    requires l.Fits(d) && k < |data| <= l.logBlocks
    ensures LogWritten(l, d, data, k + 1) == LogWritten(l, d, data, k)[l.start + k + 1 := data[k]]
    ensures LogTrace(l, d, data, k + 1) == LogTrace(l, d, data, k) + [LogWritten(l, d, data, k + 1)]
  {
  }

  lemma InstallStep(l: Layout, d: Disk, k: nat)
    requires HeaderOk(l, d) && k < HeadCount(l, d)
    ensures HeadDsts(l, d)[k] < |d| && !l.InLog(HeadDsts(l, d)[k])
    ensures Install(l, d, k)[l.start + k + 1] == d[l.start + k + 1]
    ensures Install(l, d, k + 1) == Install(l, d, k)[HeadDsts(l, d)[k] := d[l.start + k + 1]]
    ensures InstallTrace(l, d, k + 1) == InstallTrace(l, d, k) + [Install(l, d, k + 1)]
  {
    InstallKeepsLog(l, d, k);
  }

  /** What is still pinned when install_trans has done the first `tail` blocks. */
  ghost predicate StillPinned(pinned: map<nat, nat>, lh: seq<nat>, tail: nat, recovering: bool)
    requires tail <= |lh|
  {
    if recovering then pinned == map[] else Distinct(lh) && forall x :: x in pinned <==> x in lh[tail..]
  }

  lemma InstallPins(l: Layout, d: Disk, pinned: map<nat, nat>, tail: nat, recovering: bool)
    requires HeaderOk(l, d) && tail < HeadCount(l, d)
    requires StillPinned(pinned, HeadDsts(l, d), tail, recovering)
    ensures var lh := HeadDsts(l, d);
            && (!recovering ==> lh[tail] in pinned) && StillPinned(pinned - {lh[tail]}, lh, tail + 1, recovering)
            && forall x :: x in pinned ==> !l.InLog(x)
  {
    var lh := HeadDsts(l, d);
    assert lh[tail..] == [lh[tail]] + lh[tail + 1..];
    assert forall i :: 0 <= i < |lh| ==> !l.InLog(lh[i]);
  }

  /** The disk states after each of the first k writes of recover_from_log. */
  ghost function RecoveryTrace(l: Layout, d: Disk, k: nat): seq<Disk>
    requires HeaderOk(l, d) && k <= HeadCount(l, d) + 1
  {
    if k == 0 then [] else RecoveryTrace(l, d, k - 1) + [RecoveryState(l, d, k)]
  }

  lemma {:induction false} RecoveryTraceInstall(l: Layout, d: Disk, k: nat)
    requires HeaderOk(l, d) && k <= HeadCount(l, d)
    ensures RecoveryTrace(l, d, k) == InstallTrace(l, d, k)
  {
    if k > 0 { RecoveryTraceInstall(l, d, k - 1); }
  }

  lemma {:induction false} CommitTraceLog(l: Layout, d: Disk, dsts: seq<nat>, data: seq<Block>, k: nat)
    requires l.Fits(d) && TxnOk(l, d, dsts, data) && k <= |dsts|
    ensures CommitTrace(l, d, dsts, data, k) == LogTrace(l, d, data, k)
  {
    if k > 0 { CommitTraceLog(l, d, dsts, data, k - 1); }
  }

  /** The three phases of a commit, one after the other. */
  lemma {:induction false} CommitTraceInstall(l: Layout, d: Disk, dsts: seq<nat>, data: seq<Block>, k: nat)
    requires l.Fits(d) && TxnOk(l, d, dsts, data) && k <= |dsts|
    ensures var n := |dsts|; var h := Headed(l, d, dsts, data);
            && HeaderOk(l, h) && HeadCount(l, h) == n
            && CommitTrace(l, d, dsts, data, n + 1 + k) == LogTrace(l, d, data, n) + ([h] + InstallTrace(l, h, k))
  {
    hide CommitState, Headed, Install, LogTrace, HeaderOk, HeadCount;
    var n := |dsts|;
    HeadedOk(l, d, dsts, data);
    InstallState(l, d, dsts, data, k);
    if k == 0 {
      CommitTraceLog(l, d, dsts, data, n);
    } else {
      CommitTraceInstall(l, d, dsts, data, k - 1);
    }
  }

  lemma InstallState(l: Layout, d: Disk, dsts: seq<nat>, data: seq<Block>, k: nat)
    requires l.Fits(d) && TxnOk(l, d, dsts, data) && k <= |dsts|
    ensures var h := Headed(l, d, dsts, data);
            && HeaderOk(l, h) && HeadCount(l, h) == |dsts| && Install(l, h, 0) == h
            && CommitState(l, d, dsts, data, |dsts| + 1 + k) == Install(l, h, k)
  {
    HeadedOk(l, d, dsts, data);
  }

  lemma {:induction false} CommitTraceAt(l: Layout, d: Disk, dsts: seq<nat>, data: seq<Block>, k: nat, i: nat)
    requires l.Fits(d) && TxnOk(l, d, dsts, data) && i < k <= 2 * |dsts| + 2
    ensures |CommitTrace(l, d, dsts, data, k)| == k && CommitTrace(l, d, dsts, data, k)[i] == CommitState(l, d, dsts, data, i + 1)
    decreases k
  {
    hide CommitState;
    if i < k - 1 { CommitTraceAt(l, d, dsts, data, k - 1, i); } else if k > 1 { CommitTraceAt(l, d, dsts, data, k - 1, 0); }
  }

  lemma LogWrittenState(l: Layout, d: Disk, dsts: seq<nat>, data: seq<Block>, k: nat)
    requires l.Fits(d) && TxnOk(l, d, dsts, data) && k <= |dsts|
    ensures CommitState(l, d, dsts, data, k) == LogWritten(l, d, data, k)
  {
  }

  /** A commit of what readers see leaves it in the home blocks. */
  lemma CommitHome(l: Layout, d: Disk, logical: Disk, dsts: seq<nat>, data: seq<Block>)
    requires l.Fits(d) && TxnOk(l, d, dsts, data) && |logical| == |d|
    requires forall i :: 0 <= i < |dsts| ==> data[i] == logical[dsts[i]]
    requires forall x :: 0 <= x < |d| && x !in dsts ==> d[x] == logical[x]
    ensures SameHome(l, CommitState(l, d, dsts, data, 2 * |dsts| + 2), logical)
  {
    RecoveredHeaded(l, d, dsts, data);
    NewHomeIsLogical(l, d, logical, dsts, data);
  }

  /** A transaction made of the cached contents turns the old home blocks into what readers see. */
  lemma NewHomeIsLogical(l: Layout, d: Disk, logical: Disk, dsts: seq<nat>, data: seq<Block>)
    requires |logical| == |d| && TxnOk(l, d, dsts, data)
    requires forall i :: 0 <= i < |dsts| ==> data[i] == logical[dsts[i]]
    requires forall x :: 0 <= x < |d| && x !in dsts ==> d[x] == logical[x]
    ensures SameHome(l, NewHome(d, dsts, data), logical)
  {
    forall x | 0 <= x < |d| && !l.InLog(x) ensures NewHome(d, dsts, data)[x] == logical[x] {
      ApplyAt(d, dsts, data, |dsts|, x);
    }
  }

  /** The contents of blocks lh. */
  function TxnOf(logical: Disk, lh: seq<nat>): (r: seq<Block>)
    ensures |r| == |lh| && forall i :: 0 <= i < |lh| && lh[i] < |logical| ==> r[i] == logical[lh[i]]
  {
    seq(|lh|, i requires 0 <= i < |lh| => if lh[i] < |logical| then logical[lh[i]] else UNUSED.data)
  }

  /** Writing the log area leaves the contents of the transaction's blocks. */
  lemma TxnKept(l: Layout, logical: Disk, lh: seq<nat>, x: nat, data: Block)
    requires x < |logical| && l.InLog(x) && forall i :: 0 <= i < |lh| ==> lh[i] < |logical| && !l.InLog(lh[i])
    ensures TxnOf(logical[x := data], lh) == TxnOf(logical, lh)
  {
  }

  class Log {
    const l: Layout
    const bc: Cache
    const others: nat -> seq<Act>     // what other processes do at each point of the run
    const patience: nat               // how often to look again at a lock that is taken
    var now: nat
    var lh: seq<nat>                  // log.lh: block numbers of the current transaction
    var outstanding: nat

    /** The in-memory header lists the pinned blocks: distinct home blocks, no more than fit. */
    ghost predicate InLog()
      reads this, bc
    {
      && |lh| <= l.logBlocks && Distinct(lh)
      && (forall x :: x in bc.pinned <==> x in lh)
      && (forall i :: 0 <= i < |lh| ==> lh[i] < |bc.disk| && !l.InLog(lh[i]))
    }

    /** What holds whenever no commit or recovery is under way. */
    ghost predicate Valid()
      reads this, bc
    {
      bc.Valid() && l.Fits(bc.disk) && InLog() && HeadCount(l, bc.disk) == 0
    }

    /** The cache is in use: by the committer as `mine` and `want` say, by others in any other way unless
        `quiet`. */
    ghost predicate Busy(mine: set<nat>, want: int, quiet: bool)
      reads this, bc
    {
      && bc.Valid() && l.Fits(bc.disk) && Shared(l, bc.bufs, bc.waiting, bc.logical, mine, want, quiet)
      && (quiet ==> forall n: nat :: others(n) == [])
    }

    /** The contents the transaction gives its blocks. */
    ghost function Txn(): seq<Block>
      reads this, bc
    {
      TxnOf(bc.logical, lh)
    }

    constructor (l: Layout, bc: Cache, others: nat -> seq<Act>, patience: nat)
      requires bc.Valid() && bc.pinned == map[] && HeaderOk(l, bc.disk)
      ensures this.l == l && this.bc == bc && this.others == others && lh == [] && outstanding == 0
    {
      this.l, this.bc, this.others, this.patience := l, bc, others, patience;
      lh, outstanding, now := [], 0, 0;
    }

    /** log_write by the holder of buffer b. False is one of the two panics, and the first of them
        fires on a full log even when the block is in it already. Otherwise the holder's contents
        become the logged contents of the block and the transaction gains exactly that block. */
    method LogWrite(b: nat) returns (ok: bool)
      requires Valid() && b < bc.nbuf
      requires bc.bufs[b].locked && bc.bufs[b].valid && bc.bufs[b].dev == ROOTDEV
      requires !l.InLog(bc.bufs[b].blockno)
      modifies this`lh, bc`bufs, bc`pinned, bc`logical
      ensures ok <==> old(|lh|) < l.logBlocks && outstanding >= 1
      ensures !ok ==> lh == old(lh) && bc.logical == old(bc.logical) && bc.pinned == old(bc.pinned)
      ensures ok ==> Valid()
      ensures ok ==> var x := old(bc.bufs)[b].blockno;
                     && x < |bc.disk|
                     && lh == (if x in old(lh) then old(lh) else old(lh) + [x])
                     && bc.logical == old(bc.logical)[x := old(bc.bufs)[b].data]
      ensures |bc.bufs| == bc.nbuf && bc.bufs == old(bc.bufs)[b := old(bc.bufs)[b].(refcnt := bc.bufs[b].refcnt)]
    {
      hide Unique, Counted, HeadCount;
      if |lh| >= l.logBlocks || outstanding < 1 { return false; }
      var x := bc.bufs[b].blockno;
      var i := 0;
      while i < |lh| && lh[i] != x
        invariant 0 <= i <= |lh|
        invariant forall j :: 0 <= j < i ==> lh[j] != x
      {
        i := i + 1;
      }
      if i == |lh| {
        assert x !in lh;
        bc.Bpin(b);
        lh := lh + [x];
      } else {
        bc.Absorb(b);
        lh := lh[i := x];
        assert lh == old(lh);
      }
      return true;
    }

    /** One step of another process, if it can be taken. */
    method OneAct(a: Act, mine: set<nat>, want: int) returns (out: Outcome)
      requires Busy(mine, want, false)
      modifies bc`bufs, bc`waiting, bc`next, bc`prev, bc`ring
      ensures bc.Valid() && (out.Done? || (out.Halted? && NoRoom(bc.bufs, bc.disk, out.x)))
      ensures out.Done? ==> Busy(mine, want, false) && Kept(old(bc.bufs), bc.bufs, mine, want)
    {
      out := Done;
      match a
      case Get(x) => out := ActGet(x, mine, want);
      case Take(b) => if b < |bc.bufs| && !bc.bufs[b].locked && Refs(bc.waiting, want, b) > 0 { ActTake(b, mine, want); }
      case Fetch(b) => if b < |bc.bufs| && bc.bufs[b].locked && b !in mine { ActFetch(b, mine, want); }
      case Unlock(b) => if b < |bc.bufs| && bc.bufs[b].locked && b !in mine { ActUnlock(b, mine, want); }
      case Unref(b) => if b < |bc.bufs| && Refs(bc.waiting, want, b) > 0 { ActUnref(b, mine, want); }
    }

    method ActGet(x: nat, mine: set<nat>, want: int) returns (out: Outcome)
      requires Busy(mine, want, false)
      modifies bc`bufs, bc`waiting
      ensures bc.Valid() && (out.Done? || (out.Halted? && NoRoom(bc.bufs, bc.disk, out.x)))
      ensures out.Done? ==> Busy(mine, want, false) && Kept(old(bc.bufs), bc.bufs, mine, want)
    {
      if x >= |bc.disk| || l.InLog(x) { return Done; }
      ghost var bufs, waiting := bc.bufs, bc.waiting;
      var r, _ := bc.Bget(ROOTDEV, x);
      if r.None? { return Halted(x); }
      SharedBuf(l, bufs, waiting, bc.logical, mine, want, false, r.value);
      SharedAt(l, bufs, waiting, bc.bufs, bc.waiting, bc.logical, mine, mine, want, want, false, r.value);
      out := Done;
    }

    method ActTake(b: nat, mine: set<nat>, want: int)
      requires Busy(mine, want, false) && b < |bc.bufs| && !bc.bufs[b].locked && Refs(bc.waiting, want, b) > 0
      modifies bc`bufs, bc`waiting
      ensures Busy(mine, want, false) && Kept(old(bc.bufs), bc.bufs, mine, want)
    {
      ghost var bufs, waiting := bc.bufs, bc.waiting;
      SharedBuf(l, bufs, waiting, bc.logical, mine, want, false, b);
      bc.Lock(b);
      SharedAt(l, bufs, waiting, bc.bufs, bc.waiting, bc.logical, mine, mine, want, want, false, b);
    }

    method ActFetch(b: nat, mine: set<nat>, want: int)
      requires Busy(mine, want, false) && b < |bc.bufs| && bc.bufs[b].locked && b !in mine
      modifies bc`bufs
      ensures Busy(mine, want, false) && Kept(old(bc.bufs), bc.bufs, mine, want)
    {
      ghost var bufs := bc.bufs;
      SharedBuf(l, bufs, bc.waiting, bc.logical, mine, want, false, b);
      bc.Fill(b);
      SharedAt(l, bufs, bc.waiting, bc.bufs, bc.waiting, bc.logical, mine, mine, want, want, false, b);
    }

    method ActUnlock(b: nat, mine: set<nat>, want: int)
      requires Busy(mine, want, false) && b < |bc.bufs| && bc.bufs[b].locked && b !in mine
      modifies bc`bufs, bc`waiting
      ensures Busy(mine, want, false) && Kept(old(bc.bufs), bc.bufs, mine, want)
    {
      ghost var bufs, waiting := bc.bufs, bc.waiting;
      SharedBuf(l, bufs, waiting, bc.logical, mine, want, false, b);
      bc.Unlock(b);
      SharedAt(l, bufs, waiting, bc.bufs, bc.waiting, bc.logical, mine, mine, want, want, false, b);
    }

    method ActUnref(b: nat, mine: set<nat>, want: int)
      requires Busy(mine, want, false) && b < |bc.bufs| && Refs(bc.waiting, want, b) > 0
      modifies bc`bufs, bc`waiting, bc`next, bc`prev, bc`ring
      ensures Busy(mine, want, false) && Kept(old(bc.bufs), bc.bufs, mine, want)
    {
      ghost var bufs, waiting := bc.bufs, bc.waiting;
      SharedBuf(l, bufs, waiting, bc.logical, mine, want, false, b);
      bc.Unref(b);
      SharedAt(l, bufs, waiting, bc.bufs, bc.waiting, bc.logical, mine, mine, want, want, false, b);
    }

    /** Whatever the others do at this point of the run. */
    method Others(mine: set<nat>, want: int, ghost quiet: bool) returns (out: Outcome)
      requires Busy(mine, want, quiet)
      modifies this`now, bc`bufs, bc`waiting, bc`next, bc`prev, bc`ring
      ensures bc.Valid() && (out.Done? || (out.Halted? && NoRoom(bc.bufs, bc.disk, out.x)))
      ensures out.Done? ==> Busy(mine, want, quiet) && Kept(old(bc.bufs), bc.bufs, mine, want)
      ensures quiet ==> out.Done? && bc.bufs == old(bc.bufs) && bc.waiting == old(bc.waiting)
    {
      hide Shared, Kept, NoRoom;
      KeptSame(bc.bufs, mine, want);
      var script := others(now);
      now := now + 1;
      out := Done;
      if script == [] { return; }
      Louder(mine, want, quiet);
      ghost var bufs := bc.bufs;
      var i := 0;
      while i < |script|
        invariant 0 <= i <= |script| && out.Done? && Busy(mine, want, false) && Kept(bufs, bc.bufs, mine, want)
      {
        ghost var bufs1 := bc.bufs;
        out := OneAct(script[i], mine, want);
        if !out.Done? { return; }
        KeptTrans(bufs, bufs1, bc.bufs, mine, want);
        i := i + 1;
      }
    }

    /** Others may be there when nothing says they are not. */
    lemma Louder(mine: set<nat>, want: int, quiet: bool)
      requires Busy(mine, want, quiet) && !quiet
      ensures Busy(mine, want, false)
    {
    }

    /** bget up to its sleep lock, with others before and after: a reference to a buffer for block x. */
    method Reference(x: nat, mine: set<nat>, ghost quiet: bool) returns (b: nat, out: Outcome)
      requires Busy(mine, -1, quiet) && x < |bc.disk| && forall h :: h in mine ==> !bc.bufs[h].Holds(ROOTDEV, x)
      modifies this`now, bc`bufs, bc`waiting, bc`next, bc`prev, bc`ring
      ensures bc.Valid() && !out.Blocked? && (out.Halted? ==> NoRoom(bc.bufs, bc.disk, out.x))
      ensures out.Done? ==> b < bc.nbuf && b !in mine && Busy(mine, b, quiet) && bc.bufs[b].Holds(ROOTDEV, x)
      ensures out.Done? ==> Kept(old(bc.bufs), bc.bufs, mine, -1)
      ensures quiet ==> (out.Halted? <==> old(NoRoom(bc.bufs, bc.disk, x)))
      ensures quiet && out.Done? ==> !bc.bufs[b].locked && bc.bufs == old(bc.bufs)[b := bc.bufs[b]]
    {
      b := 0;
      ghost var bufs0 := bc.bufs;
      out := Others(mine, -1, quiet);
      if !out.Done? { return; }
      ghost var bufs1 := bc.bufs;
      b, out := Bref(x, mine, quiet);
      if !out.Done? { return; }
      ghost var bufs2 := bc.bufs;
      out := Others(mine, b, quiet);
      if out.Done? {
        KeptTrans(bufs0, bufs1, bufs2, mine, -1);
        KeptLess(bufs2, bc.bufs, mine, mine, b);
        KeptTrans(bufs0, bufs2, bc.bufs, mine, -1);
      }
    }

    method Bref(x: nat, mine: set<nat>, ghost quiet: bool) returns (b: nat, out: Outcome)
      requires Busy(mine, -1, quiet) && x < |bc.disk| && forall h :: h in mine ==> !bc.bufs[h].Holds(ROOTDEV, x)
      modifies bc`bufs, bc`waiting
      ensures bc.Valid() && !out.Blocked? && (out.Halted? <==> old(NoRoom(bc.bufs, bc.disk, x)))
      ensures out.Halted? ==> out.x == x && bc.bufs == old(bc.bufs)
      ensures out.Done? ==> b < bc.nbuf && b !in mine && Busy(mine, b, quiet) && bc.bufs[b].Holds(ROOTDEV, x)
      ensures out.Done? ==> Kept(old(bc.bufs), bc.bufs, mine, -1) && bc.bufs == old(bc.bufs)[b := bc.bufs[b]]
      ensures quiet && out.Done? ==> !bc.bufs[b].locked
    {
      ghost var bufs, waiting := bc.bufs, bc.waiting;
      var r, _ := bc.Bget(ROOTDEV, x);
      if r.None? { return 0, Halted(x); }
      b, out := r.value, Done;
      if Cached(bufs, ROOTDEV, x) { assert bufs[b].Holds(ROOTDEV, x); }
      GotShared(l, bufs, waiting, bc.bufs, bc.waiting, bc.pinned, bc.logical, mine, quiet, b, x);
    }

    /** acquiresleep in bget: look at the lock again and again while others run. */
    method Await(b: nat, x: nat, mine: set<nat>, ghost quiet: bool) returns (out: Outcome)
      requires Busy(mine, b, quiet) && b < bc.nbuf && b !in mine && bc.bufs[b].Holds(ROOTDEV, x)
      requires quiet ==> !bc.bufs[b].locked
      modifies this`now, bc`bufs, bc`waiting, bc`next, bc`prev, bc`ring
      ensures bc.Valid() && (out.Halted? ==> NoRoom(bc.bufs, bc.disk, out.x))
      ensures out.Done? ==> Busy(mine, b, quiet) && bc.bufs[b].Holds(ROOTDEV, x) && !bc.bufs[b].locked
      ensures out.Done? ==> Kept(old(bc.bufs), bc.bufs, mine, -1)
      ensures quiet ==> out.Done? && bc.bufs == old(bc.bufs)
    {
      hide Shared, NoRoom;
      ghost var bufs := bc.bufs;
      KeptSame(bufs, mine, b);
      var tries := 0;
      while bc.bufs[b].locked && tries < patience
        invariant tries <= patience && Busy(mine, b, quiet) && Kept(bufs, bc.bufs, mine, b)
        invariant quiet ==> bc.bufs == bufs
      {
        ghost var bufs1 := bc.bufs;
        out := Others(mine, b, quiet);
        if !out.Done? { return; }
        KeptTrans(bufs, bufs1, bc.bufs, mine, b);
        tries := tries + 1;
      }
      KeptLess(bufs, bc.bufs, mine, mine, b);
      out := if bc.bufs[b].locked then Blocked else Done;
    }

    /** The lock is free: take it, and fetch the contents if need be, with others in between. */
    method Open(b: nat, x: nat, mine: set<nat>, ghost quiet: bool) returns (out: Outcome)
      requires Busy(mine, b, quiet) && b < bc.nbuf && b !in mine && bc.bufs[b].Holds(ROOTDEV, x) && !bc.bufs[b].locked
      modifies this`now, bc`bufs, bc`waiting, bc`next, bc`prev, bc`ring
      ensures bc.Valid() && !out.Blocked? && (out.Halted? ==> NoRoom(bc.bufs, bc.disk, out.x))
      ensures out.Done? ==> Busy(mine + {b}, -1, quiet) && Kept(old(bc.bufs), bc.bufs, mine, -1)
      ensures out.Done? ==>
        bc.bufs[b].Holds(ROOTDEV, x) && bc.bufs[b].valid && x < |bc.logical| && bc.bufs[b].data == bc.logical[x]
      ensures quiet ==> out.Done? && bc.bufs == old(bc.bufs)[b := bc.bufs[b]]
    {
      hide NoRoom;
      ghost var bufs0 := bc.bufs;
      Seize(b, x, mine, quiet);
      ghost var bufs1 := bc.bufs;
      out := Others(mine + {b}, -1, quiet);
      if !out.Done? { return; }
      ghost var bufs2 := bc.bufs;
      assert Stays(bufs1[b], bufs2[b]);
      Bfill(b, mine + {b}, quiet);
      ghost var bufs3 := bc.bufs;
      out := Others(mine + {b}, -1, quiet);
      if !out.Done? { return; }
      assert Stays(bufs3[b], bc.bufs[b]);
      hide *;
      KeptLess(bufs1, bufs2, mine + {b}, mine, -1);
      KeptLess(bufs2, bufs3, mine + {b} - {b}, mine, -1);
      KeptLess(bufs3, bc.bufs, mine + {b}, mine, -1);
      KeptTrans(bufs0, bufs1, bufs2, mine, -1);
      KeptTrans(bufs0, bufs2, bufs3, mine, -1);
      KeptTrans(bufs0, bufs3, bc.bufs, mine, -1);
    }

    method Seize(b: nat, x: nat, mine: set<nat>, ghost quiet: bool)
      requires Busy(mine, b, quiet) && b < bc.nbuf && !bc.bufs[b].locked && bc.bufs[b].Holds(ROOTDEV, x)
      modifies bc`bufs, bc`waiting
      ensures Busy(mine + {b}, -1, quiet) && Kept(old(bc.bufs), bc.bufs, mine, -1) && x < |bc.logical|
      ensures bc.bufs == old(bc.bufs)[b := old(bc.bufs)[b].(locked := true)]
      ensures bc.bufs[b].valid ==> bc.bufs[b].data == bc.logical[x]
    {
      ghost var bufs, waiting := bc.bufs, bc.waiting;
      SharedBuf(l, bufs, waiting, bc.logical, mine, b, quiet, b);
      bc.Lock(b);
      LockedShared(l, bufs, waiting, bc.bufs, bc.waiting, bc.logical, mine, quiet, b);
    }

    method Bfill(b: nat, mine: set<nat>, ghost quiet: bool)
      requires Busy(mine, -1, quiet) && b in mine && b < bc.nbuf && bc.bufs[b].dev == ROOTDEV
      modifies bc`bufs
      ensures Busy(mine, -1, quiet) && Kept(old(bc.bufs), bc.bufs, mine - {b}, -1) && bc.bufs[b].valid
      ensures bc.bufs == old(bc.bufs)[b := old(bc.bufs)[b].(valid := true, data := bc.bufs[b].data)]
      ensures bc.bufs[b].blockno < |bc.logical|
      ensures bc.bufs[b].data == if old(bc.bufs)[b].valid then old(bc.bufs)[b].data else bc.logical[bc.bufs[b].blockno]
    {
      ghost var bufs := bc.bufs;
      bc.Fill(b);
      FilledShared(l, bufs, bc.waiting, bc.bufs, bc.logical, mine, quiet, b);
    }

    /** bread of block x. It panics exactly if, at the time of bget, x is not cached and every buffer is in use. */
    method Read(x: nat, mine: set<nat>, ghost quiet: bool) returns (b: nat, out: Outcome)
      requires Busy(mine, -1, quiet) && x < |bc.disk| && forall h :: h in mine ==> !bc.bufs[h].Holds(ROOTDEV, x)
      modifies this`now, bc`bufs, bc`waiting, bc`next, bc`prev, bc`ring
      ensures bc.Valid() && (out.Halted? ==> NoRoom(bc.bufs, bc.disk, out.x))
      ensures out.Done? ==> b < bc.nbuf && b !in mine && Busy(mine + {b}, -1, quiet) && Kept(old(bc.bufs), bc.bufs, mine, -1)
      ensures out.Done? ==> bc.bufs[b].Holds(ROOTDEV, x) && bc.bufs[b].valid && bc.bufs[b].data == bc.logical[x]
      ensures quiet ==> !out.Blocked? && (out.Halted? <==> old(NoRoom(bc.bufs, bc.disk, x)))
      ensures quiet && out.Done? ==> bc.bufs == old(bc.bufs)[b := bc.bufs[b]]
    {
      hide Shared, NoRoom, Kept, Unique, Counted, Current, Agrees;
      ghost var bufs0 := bc.bufs;
      b, out := Reference(x, mine, quiet);
      if !out.Done? { return; }
      ghost var bufs1 := bc.bufs;
      out := Await(b, x, mine, quiet);
      if !out.Done? { return; }
      ghost var bufs2 := bc.bufs;
      KeptTrans(bufs0, bufs1, bufs2, mine, -1);
      out := Open(b, x, mine, quiet);
      if out.Done? { KeptTrans(bufs0, bufs2, bc.bufs, mine, -1); }
    }

    /** memmove into a buffer the committer holds, then bwrite: one disk write, whatever follows. */
    method Store(b: nat, data: Block, mine: set<nat>, ghost quiet: bool) returns (out: Outcome)
      requires Busy(mine, -1, quiet) && b in mine && b < bc.nbuf && bc.bufs[b].valid && bc.bufs[b].dev == ROOTDEV
      modifies this`now, bc`bufs, bc`waiting, bc`next, bc`prev, bc`ring, bc`disk, bc`logical, bc`trace
      ensures bc.Valid() && !out.Blocked? && (out.Halted? ==> NoRoom(bc.bufs, bc.disk, out.x))
      ensures var x := old(bc.bufs)[b].blockno;
              && x < |old(bc.disk)| && bc.disk == old(bc.disk)[x := data] && bc.logical == old(bc.logical)[x := data]
              && bc.trace == old(bc.trace) + [bc.disk]
      ensures out.Done? ==>
        Busy(mine, -1, quiet) && Kept(old(bc.bufs)[b := old(bc.bufs)[b].(data := data)], bc.bufs, mine, -1)
      ensures quiet ==> out.Done? && bc.bufs == old(bc.bufs)[b := old(bc.bufs)[b].(data := data)]
    {
      hide NoRoom, Kept;
      Put(b, data, mine, quiet);
      hide Shared;
      out := Others(mine, -1, quiet);
    }

    method Put(b: nat, data: Block, mine: set<nat>, ghost quiet: bool)
      requires Busy(mine, -1, quiet) && b in mine && b < bc.nbuf && bc.bufs[b].valid && bc.bufs[b].dev == ROOTDEV
      modifies bc`bufs, bc`disk, bc`logical, bc`trace
      ensures Busy(mine, -1, quiet) && bc.bufs == old(bc.bufs)[b := old(bc.bufs)[b].(data := data)]
      ensures var x := old(bc.bufs)[b].blockno;
              && x < |old(bc.disk)| && bc.disk == old(bc.disk)[x := data] && bc.logical == old(bc.logical)[x := data]
              && bc.trace == old(bc.trace) + [bc.disk]
    {
      hide Counted, BufOk;
      ghost var bufs, logical := bc.bufs, bc.logical;
      bc.Modify(b, data);
      FilledShared(l, bufs, bc.waiting, bc.bufs, logical, mine, quiet, b);
      bc.Bwrite(b);
      WroteShared(l, bc.bufs, bc.waiting, logical, mine, quiet, b, data);
    }

    /** brelse of a buffer that agrees with the logged contents of its block. */
    method Drop(b: nat, mine: set<nat>, ghost quiet: bool) returns (out: Outcome)
      requires Busy(mine, -1, quiet) && b in mine && b < bc.nbuf && bc.bufs[b].valid && bc.bufs[b].dev == ROOTDEV
      requires bc.bufs[b].blockno < |bc.logical| && bc.bufs[b].data == bc.logical[bc.bufs[b].blockno]
      modifies this`now, bc`bufs, bc`waiting, bc`next, bc`prev, bc`ring
      ensures bc.Valid() && !out.Blocked? && (out.Halted? ==> NoRoom(bc.bufs, bc.disk, out.x))
      ensures out.Done? ==> Busy(mine - {b}, -1, quiet) && Kept(old(bc.bufs), bc.bufs, mine - {b}, -1)
      ensures quiet ==> out.Done? && bc.bufs == old(bc.bufs)[b := bc.bufs[b]] && bc.bufs[b].blockno == old(bc.bufs)[b].blockno
      ensures quiet ==> bc.bufs[b].refcnt == if bc.bufs[b].blockno in bc.pinned then 1 else 0
    {
      ghost var bufs0 := bc.bufs;
      Bunlock(b, mine, quiet);
      ghost var bufs1 := bc.bufs;
      out := Others(mine - {b}, b, quiet);
      if !out.Done? { return; }
      ghost var bufs2 := bc.bufs;
      Bunref(b, mine - {b}, quiet);
      ghost var bufs3 := bc.bufs;
      if quiet { QuietCount(l, bc.bufs, bc.waiting, bc.pinned, bc.logical, mine - {b}, b); }
      hide NoRoom, Unique, Counted, Current, Agrees, BufOk;
      out := Others(mine - {b}, -1, quiet);
      if !out.Done? { return; }
      hide *;
      KeptLess(bufs1, bufs2, mine - {b}, mine - {b}, b);
      KeptTrans(bufs0, bufs1, bufs2, mine - {b}, -1);
      KeptTrans(bufs0, bufs2, bufs3, mine - {b}, -1);
      KeptTrans(bufs0, bufs3, bc.bufs, mine - {b}, -1);
    }

    method Bunlock(b: nat, mine: set<nat>, ghost quiet: bool)
      requires Busy(mine, -1, quiet) && b in mine && b < bc.nbuf
      requires bc.bufs[b].blockno < |bc.logical| && bc.bufs[b].data == bc.logical[bc.bufs[b].blockno]
      modifies bc`bufs, bc`waiting
      ensures Busy(mine - {b}, b, quiet) && Kept(old(bc.bufs), bc.bufs, mine - {b}, -1)
      ensures bc.bufs == old(bc.bufs)[b := old(bc.bufs)[b].(locked := false)]
    {
      ghost var bufs, waiting := bc.bufs, bc.waiting;
      bc.Unlock(b);
      UnlockedShared(l, bufs, waiting, bc.bufs, bc.waiting, bc.logical, mine, quiet, b);
    }

    method Bunref(b: nat, mine: set<nat>, ghost quiet: bool)
      requires Busy(mine, b, quiet) && b !in mine && b < bc.nbuf
      modifies bc`bufs, bc`waiting, bc`next, bc`prev, bc`ring
      ensures Busy(mine, -1, quiet) && Kept(old(bc.bufs), bc.bufs, mine, -1)
      ensures bc.bufs == old(bc.bufs)[b := old(bc.bufs)[b].(refcnt := bc.bufs[b].refcnt)]
    {
      ghost var bufs, waiting := bc.bufs, bc.waiting;
      SharedBuf(l, bufs, waiting, bc.logical, mine, b, quiet, b);
      bc.Unref(b);
      UnrefShared(l, bufs, waiting, bc.bufs, bc.waiting, bc.logical, mine, quiet, b);
    }

    /** With nobody else there and nothing or block y pinned, a buffer can be had for y beside buffer a. */
    lemma RoomForHome(a: nat, y: nat)
      requires Busy({a}, -1, true) && y < |bc.disk| && (y in bc.pinned || (bc.pinned == map[] && bc.nbuf >= 2))
      ensures !NoRoom(bc.bufs, bc.disk, y)
    {
      if y in bc.pinned {
        assert bc.bufs[bc.pinned[y]].Holds(ROOTDEV, y);
      } else {
        QuietCount(l, bc.bufs, bc.waiting, bc.pinned, bc.logical, {a}, if a == 0 then 1 else 0);
      }
    }

    /** The two breads of a copy: first log block x, then home block y. */
    method ReadTwo(x: nat, y: nat, ghost quiet: bool) returns (a: nat, b: nat, out: Outcome)
      requires Busy({}, -1, quiet) && x < |bc.disk| && y < |bc.disk| && x != y
      requires quiet ==> y in bc.pinned || (bc.pinned == map[] && bc.nbuf >= 2)
      modifies this`now, bc`bufs, bc`waiting, bc`next, bc`prev, bc`ring
      ensures bc.Valid() && (out.Halted? ==> NoRoom(bc.bufs, bc.disk, out.x))
      ensures out.Done? ==>
        && a != b && a < bc.nbuf && b < bc.nbuf && Busy({a, b}, -1, quiet)
        && bc.bufs[a].Holds(ROOTDEV, x) && bc.bufs[a].valid && bc.bufs[a].data == bc.logical[x]
        && bc.bufs[b].Holds(ROOTDEV, y) && bc.bufs[b].valid && bc.bufs[b].data == bc.logical[y]
      ensures quiet ==> !out.Blocked? && (out.Halted? <==> old(NoRoom(bc.bufs, bc.disk, x)))
    {
      hide Shared, NoRoom, Unique, Counted, Agrees, Current;
      b := 0;
      a, out := Read(x, {}, quiet);
      if !out.Done? { return; }
      assert {} + {a} == {a};
      ghost var bufs := bc.bufs;
      if quiet { RoomForHome(a, y); }
      b, out := Read(y, {a}, quiet);
      if !out.Done? { return; }
      assert {a} + {b} == {a, b};
      assert Stays(bufs[a], bc.bufs[a]);
    }

    method Unpin(b: nat, mine: set<nat>, ghost quiet: bool) returns (out: Outcome)
      requires Busy(mine, -1, quiet) && b in mine && b < bc.nbuf && Pinned(bc.bufs[b], bc.pinned)
      requires bc.bufs[b].blockno < |bc.disk| == |bc.logical| && bc.disk[bc.bufs[b].blockno] == bc.logical[bc.bufs[b].blockno]
      modifies this`now, bc`bufs, bc`waiting, bc`next, bc`prev, bc`ring, bc`pinned
      ensures bc.Valid() && !out.Blocked? && (out.Halted? ==> NoRoom(bc.bufs, bc.disk, out.x))
      ensures bc.pinned == old(bc.pinned) - {old(bc.bufs)[b].blockno}
      ensures out.Done? ==> Busy(mine, -1, quiet) && Kept(old(bc.bufs), bc.bufs, mine, -1)
      ensures quiet ==> out.Done?
    {
      hide NoRoom, Unique, Counted, Agrees, Current, BufOk;
      ghost var bufs := bc.bufs;
      bc.Bunpin(b);
      FilledShared(l, bufs, bc.waiting, bc.bufs, bc.logical, mine, quiet, b);
      ghost var bufs1 := bc.bufs;
      assert Kept(bufs, bufs1, mine, -1);
      hide Shared, Kept;
      out := Others(mine, -1, quiet);
      if out.Done? { KeptTrans(bufs, bufs1, bc.bufs, mine, -1); }
    }

    method DropTwo(a: nat, b: nat, ghost quiet: bool) returns (out: Outcome)
      requires a != b && Busy({a, b}, -1, quiet) && a < bc.nbuf && b < bc.nbuf
      requires forall h :: h in {a, b} ==>
        && bc.bufs[h].valid && bc.bufs[h].dev == ROOTDEV
        && bc.bufs[h].blockno < |bc.logical| && bc.bufs[h].data == bc.logical[bc.bufs[h].blockno]
      requires bc.bufs[b].blockno !in bc.pinned
      modifies this`now, bc`bufs, bc`waiting, bc`next, bc`prev, bc`ring
      ensures bc.Valid() && !out.Blocked? && (out.Halted? ==> NoRoom(bc.bufs, bc.disk, out.x))
      ensures out.Done? ==> Busy({}, -1, quiet)
      ensures quiet ==> out.Done? && !Full(bc.bufs)
    {
      hide Shared, NoRoom, Unique, Counted, Agrees, Current;
      ghost var bufs := bc.bufs;
      out := Drop(a, {a, b}, quiet);
      if !out.Done? { return; }
      assert {a, b} - {a} == {b} && Stays(bufs[b], bc.bufs[b]);
      out := Drop(b, {b}, quiet);
      assert {b} - {b} == {};
      assert quiet ==> bc.bufs[b].refcnt == 0;
    }

    /** The rest of a copy: contents of src to dst, dst to the disk, and both buffers released. */
    method Move(src: nat, dst: nat, unpin: bool, ghost quiet: bool) returns (out: Outcome)
      requires src != dst && Busy({src, dst}, -1, quiet) && src < bc.nbuf && dst < bc.nbuf
      requires bc.bufs[src].valid && bc.bufs[src].dev == ROOTDEV && bc.bufs[dst].valid && bc.bufs[dst].dev == ROOTDEV
      requires bc.bufs[src].blockno < |bc.logical| && bc.bufs[src].data == bc.logical[bc.bufs[src].blockno]
      requires bc.bufs[src].blockno != bc.bufs[dst].blockno
      requires if unpin then bc.bufs[dst].blockno in bc.pinned else bc.bufs[dst].blockno !in bc.pinned
      modifies this`now, bc
      ensures bc.Valid() && !out.Blocked? && (out.Halted? ==> NoRoom(bc.bufs, bc.disk, out.x))
      ensures var x := old(bc.bufs)[dst].blockno; var data := old(bc.bufs)[src].data;
              && x < |old(bc.disk)| && bc.disk == old(bc.disk)[x := data] && bc.logical == old(bc.logical)[x := data]
              && bc.trace == old(bc.trace) + [bc.disk]
      ensures out.Done? ==> Busy({}, -1, quiet) && bc.pinned == old(bc.pinned) - {old(bc.bufs)[dst].blockno}
      ensures quiet ==> out.Done? && !Full(bc.bufs)
    {
      hide Shared, NoRoom, Unique, Counted, Agrees, Full;
      ghost var bufs := bc.bufs;
      out := Store(dst, bc.bufs[src].data, {src, dst}, quiet);
      if !out.Done? { return; }
      ghost var bufs1 := bc.bufs;
      assert bufs1[src] == bufs[src].(refcnt := bufs1[src].refcnt);
      assert bufs1[dst] == bufs[dst].(data := bufs[src].data, refcnt := bufs1[dst].refcnt);
      hide Current;
      if unpin {
        out := Unpin(dst, {src, dst}, quiet);
        if !out.Done? { return; }
        assert Stays(bufs1[src], bc.bufs[src]) && Stays(bufs1[dst], bc.bufs[dst]);
      }
      out := DropTwo(src, dst, quiet);
    }

    /** write_head: one disk write that replaces the header by the current transaction, if it gets to it. */
    method WriteHead(ghost quiet: bool) returns (out: Outcome, ghost wrote: bool)
      requires Busy({}, -1, quiet) && |lh| <= l.logBlocks && l.start !in bc.pinned && (quiet ==> !Full(bc.bufs))
      modifies this`now, bc
      ensures bc.Valid() && (out.Halted? ==> NoRoom(bc.bufs, bc.disk, out.x)) && bc.pinned == old(bc.pinned)
      ensures !wrote ==> bc.disk == old(bc.disk) && bc.trace == old(bc.trace) && !out.Done?
      ensures wrote ==> bc.disk == old(bc.disk)[l.start := EncodeHead(old(bc.disk)[l.start], lh)]
      ensures wrote ==> bc.logical == old(bc.logical)[l.start := bc.disk[l.start]] && bc.trace == old(bc.trace) + [bc.disk]
      ensures out.Done? ==> Busy({}, -1, quiet)
      ensures quiet ==> out.Done? && !Full(bc.bufs)
    {
      wrote := false;
      hide Shared, Unique, Counted, Agrees;
      var b;
      b, out := Read(l.start, {}, quiet);
      if !out.Done? { return; }
      assert {} + {b} == {b};
      var hb := HeadImage(bc.bufs[b].data);
      ghost var bufs := bc.bufs;
      out := Store(b, hb, {b}, quiet);
      wrote := true;
      if !out.Done? { return; }
      assert bc.bufs[b] == bufs[b].(data := hb, refcnt := bc.bufs[b].refcnt);
      hide Current, NoRoom, Full;
      out := Drop(b, {b}, quiet);
      assert {b} - {b} == {};
      if quiet { NotFull(b); }
    }

    lemma NotFull(b: nat)
      requires b < |bc.bufs| && bc.bufs[b].refcnt == 0
      ensures !Full(bc.bufs)
    {
    }

    /** The loop of write_head. */
    method HeadImage(was: Block) returns (hb: Block)
      requires |lh| < WORDS
      ensures hb == EncodeHead(was, lh)
    {
      hb := was[0 := |lh|];
      var i := 0;
      while i < |lh|
        invariant 0 <= i <= |lh| && hb == [|lh|] + lh[..i] + was[1 + i..]
      {
        hb := hb[1 + i := lh[i]];
        i := i + 1;
      }
    }

    /** One iteration of write_log: the log block gets the contents that readers see. */
    method CopyToLog(tail: nat, ghost quiet: bool) returns (out: Outcome, ghost wrote: bool)
      requires Busy({}, -1, quiet) && InLog() && tail < |lh|
      modifies this`now, bc
      ensures bc.Valid() && (out.Halted? ==> NoRoom(bc.bufs, bc.disk, out.x))
      ensures !wrote ==> bc.disk == old(bc.disk) && bc.logical == old(bc.logical) && bc.trace == old(bc.trace) && !out.Done?
      ensures wrote ==> bc.disk == old(bc.disk)[l.start + tail + 1 := old(bc.logical)[lh[tail]]]
      ensures wrote ==> bc.logical == old(bc.logical)[l.start + tail + 1 := old(bc.logical)[lh[tail]]]
      ensures wrote ==> bc.trace == old(bc.trace) + [bc.disk]
      ensures out.Done? ==> Busy({}, -1, quiet) && bc.pinned == old(bc.pinned)
      ensures quiet ==> !out.Blocked? && (out.Halted? <==> old(NoRoom(bc.bufs, bc.disk, l.start + tail + 1)))
      ensures quiet && out.Done? ==> !Full(bc.bufs)
    {
      hide Shared, NoRoom, Unique, Counted, Agrees, Full;
      wrote := false;
      assert lh[tail] in bc.pinned;
      var to, from;
      assert l.start + tail + 1 !in bc.pinned;
      ghost var pinned := bc.pinned;
      to, from, out := ReadTwo(l.start + tail + 1, lh[tail], quiet);
      if !out.Done? { return; }
      wrote := true;
      assert {to, from} == {from, to};
      out := Move(from, to, false, quiet);
      assert pinned - {l.start + tail + 1} == pinned;
    }

    /** One iteration of write_log, in terms of the disk d0 the loop started from. */
    method CopyNext(tail: nat, ghost d0: Disk, ghost data: seq<Block>, ghost quiet: bool) returns (out: Outcome, ghost k: nat)
      requires Busy({}, -1, quiet) && InLog() && tail < |lh| == |data| && data == Txn()
      requires l.Fits(d0) && bc.disk == LogWritten(l, d0, data, tail)
      modifies this`now, bc
      ensures bc.Valid() && (out.Halted? ==> NoRoom(bc.bufs, bc.disk, out.x))
      ensures tail <= k <= tail + 1 && bc.disk == LogWritten(l, d0, data, k)
      ensures bc.trace == old(bc.trace) + if k == tail then [] else [bc.disk]
      ensures out.Done? ==> k == tail + 1 && Busy({}, -1, quiet) && InLog() && bc.pinned == old(bc.pinned) && data == Txn()
      ensures quiet ==> !out.Blocked? && (out.Halted? <==> old(NoRoom(bc.bufs, bc.disk, l.start + tail + 1)))
      ensures quiet && out.Done? ==> !Full(bc.bufs)
    {
      hide Shared, NoRoom, Unique, Counted, Agrees, Full, LogWritten, TxnOf;
      ghost var wrote;
      ghost var t0, logical := bc.trace, bc.logical;
      ghost var x := l.start + tail + 1;
      LogStep(l, d0, data, tail);
      assert |logical| == |bc.disk|;
      TxnKept(l, logical, lh, x, logical[lh[tail]]);
      hide Current;
      out, wrote := CopyToLog(tail, quiet);
      assert t0 + [] == t0;
      k := if wrote then tail + 1 else tail;
    }

    /** write_log: copy every block of the transaction, as readers see it, into the log area. It can stop
        at any bread of a log block; with nobody else there it stops exactly when the transaction has
        pinned every buffer of the cache. */
    method WriteLog(ghost quiet: bool) returns (out: Outcome, ghost k: nat)
      requires Valid() && Busy({}, -1, quiet) && lh != []
      modifies this`now, bc
      ensures bc.Valid() && (out.Halted? ==> NoRoom(bc.bufs, bc.disk, out.x))
      ensures k <= |lh| && bc.disk == LogWritten(l, old(bc.disk), old(Txn()), k)
      ensures bc.trace == old(bc.trace) + LogTrace(l, old(bc.disk), old(Txn()), k)
      ensures out.Done? ==> k == |lh| && Busy({}, -1, quiet) && InLog() && bc.pinned == old(bc.pinned)
      ensures quiet ==> !out.Blocked? && (out.Done? <==> |lh| < bc.nbuf)
      ensures quiet && out.Done? ==> !Full(bc.bufs)
    {
      hide Unique, Counted, Current, Agrees, Shared;
      ghost var d0, data, t0 := bc.disk, Txn(), bc.trace;
      if quiet { CommitRoom(); }
      out, k := WriteLoop(d0, data, t0, quiet);
    }

    method WriteLoop(ghost d0: Disk, ghost data: seq<Block>, ghost t0: seq<Disk>, ghost quiet: bool)
      returns (out: Outcome, ghost k: nat)
      requires Busy({}, -1, quiet) && InLog() && lh != [] && |lh| == |data| && data == Txn() && l.Fits(d0) && bc.disk == d0 && bc.trace == t0
      modifies this`now, bc
      ensures bc.Valid() && (out.Halted? ==> NoRoom(bc.bufs, bc.disk, out.x))
      ensures k <= |lh| && bc.disk == LogWritten(l, d0, data, k) && bc.trace == t0 + LogTrace(l, d0, data, k)
      ensures out.Done? ==> k == |lh| && Busy({}, -1, quiet) && InLog() && bc.pinned == old(bc.pinned)
      ensures quiet ==> !out.Blocked? && (out.Halted? <==> old(NoRoom(bc.bufs, bc.disk, l.start + 1)))
      ensures quiet && out.Done? ==> !Full(bc.bufs)
    {
      hide Unique, Counted, Current, Agrees, Shared, Cached, Full, LogWritten, NoRoom;
      assert t0 + LogTrace(l, d0, data, 0) == t0 && LogWritten(l, d0, data, 0) == d0 by { NothingWritten(l, d0, data); }
      out, k := Done, 0;
      ghost var pinned := bc.pinned;
      ghost var first := NoRoom(bc.bufs, bc.disk, l.start + 1);
      var tail := 0;
      while tail < |lh|
        invariant k == tail <= |lh| && out.Done? && Busy({}, -1, quiet) && InLog() && bc.pinned == pinned && data == Txn()
        invariant bc.disk == LogWritten(l, d0, data, k) && bc.trace == t0 + LogTrace(l, d0, data, k)
        invariant quiet && k == 0 ==> (NoRoom(bc.bufs, bc.disk, l.start + 1) <==> first)
        invariant quiet && k > 0 ==> !Full(bc.bufs) && !first
      {
        LogStep(l, d0, data, tail);
        if quiet && tail > 0 { RoomIfNotFull(l.start + tail + 1); }
        out, k := CopyNext(tail, d0, data, quiet);
        assert t0 + LogTrace(l, d0, data, tail) + [LogWritten(l, d0, data, tail + 1)] == t0 + LogTrace(l, d0, data, tail + 1);
        if !out.Done? { return; }
        tail := tail + 1;
      }
    }

    lemma RoomIfNotFull(x: nat)
      requires !Full(bc.bufs)
      ensures !NoRoom(bc.bufs, bc.disk, x)
    {
    }

    /** Whether write_log's first bread finds a buffer depends, with nobody else there, only on the number of
        logged blocks. */
    lemma CommitRoom()
      requires Valid() && Busy({}, -1, true) && lh != []
      ensures NoRoom(bc.bufs, bc.disk, l.start + 1) <==> |lh| >= bc.nbuf
    {
      DistinctSize(lh);
      assert bc.pinned.Keys == Elems(lh);
      FullIffAllPinned(l, bc.bufs, bc.waiting, bc.pinned, bc.disk, bc.logical);
    }

    /** One iteration of install_trans: copy a log block to its home and, outside recovery, unpin. */
    method InstallOne(tail: nat, recovering: bool, ghost quiet: bool) returns (out: Outcome, ghost wrote: bool)
      requires Busy({}, -1, quiet) && tail < |lh| <= l.logBlocks && lh[tail] < |bc.disk| && !l.InLog(lh[tail])
      requires (forall x :: x in bc.pinned ==> !l.InLog(x)) && (quiet ==> !Full(bc.bufs))
      requires if recovering then bc.pinned == map[] && bc.nbuf >= 2 else lh[tail] in bc.pinned
      modifies this`now, bc
      ensures bc.Valid() && (out.Halted? ==> NoRoom(bc.bufs, bc.disk, out.x))
      ensures !wrote ==> bc.disk == old(bc.disk) && bc.trace == old(bc.trace) && !out.Done?
      ensures wrote ==> bc.disk == old(bc.disk)[lh[tail] := old(bc.disk)[l.start + tail + 1]]
      ensures wrote ==> bc.trace == old(bc.trace) + [bc.disk]
      ensures out.Done? ==> Busy({}, -1, quiet) && bc.pinned == old(bc.pinned) - {lh[tail]}
      ensures quiet ==> out.Done? && !Full(bc.bufs)
    {
      hide Shared, NoRoom, Unique, Counted, Agrees, Full;
      wrote := false;
      var x, y := l.start + tail + 1, lh[tail];
      assert bc.logical[x] == bc.disk[x];
      hide Current;
      if quiet { RoomIfNotFull(x); }
      var lbuf, dbuf;
      lbuf, dbuf, out := ReadTwo(x, y, quiet);
      if !out.Done? { return; }
      wrote := true;
      out := Move(lbuf, dbuf, !recovering, quiet);
    }

    /** One iteration of install_trans, in terms of the disk d0 the loop started from. */
    method InstallNext(tail: nat, recovering: bool, ghost d0: Disk, ghost quiet: bool) returns (out: Outcome, ghost k: nat)
      requires Busy({}, -1, quiet) && (quiet ==> !Full(bc.bufs))
      requires HeaderOk(l, d0) && HeadDsts(l, d0) == lh && tail < |lh| && bc.disk == Install(l, d0, tail)
      requires StillPinned(bc.pinned, lh, tail, recovering) && (recovering ==> bc.nbuf >= 2)
      modifies this`now, bc
      ensures bc.Valid() && (out.Halted? ==> NoRoom(bc.bufs, bc.disk, out.x))
      ensures tail <= k <= tail + 1 && bc.disk == Install(l, d0, k)
      ensures bc.trace == old(bc.trace) + if k == tail then [] else [bc.disk]
      ensures out.Done? ==> k == tail + 1 && Busy({}, -1, quiet) && StillPinned(bc.pinned, lh, tail + 1, recovering)
      ensures quiet ==> out.Done? && !Full(bc.bufs)
    {
      InstallStep(l, d0, tail);
      InstallPins(l, d0, bc.pinned, tail, recovering);
      hide Shared, NoRoom, Unique, Counted, Agrees, Full, Current, Install, StillPinned;
      ghost var wrote;
      ghost var t0 := bc.trace;
      if recovering { NonePinned(bc.pinned, lh, tail, recovering); }
      out, wrote := InstallOne(tail, recovering, quiet);
      assert t0 + [] == t0;
      k := if wrote then tail + 1 else tail;
    }

    lemma NonePinned(pinned: map<nat, nat>, lh: seq<nat>, tail: nat, recovering: bool)
      requires tail <= |lh| && StillPinned(pinned, lh, tail, recovering) && (recovering || tail == |lh|)
      ensures pinned == map[]
    {
      if !recovering { assert lh[tail..] == []; }
    }

    /** install_trans for the transaction named by both headers. */
    method InstallTrans(recovering: bool, ghost quiet: bool) returns (out: Outcome, ghost k: nat)
      requires Busy({}, -1, quiet) && (quiet ==> !Full(bc.bufs)) && HeaderOk(l, bc.disk) && HeadDsts(l, bc.disk) == lh
      requires StillPinned(bc.pinned, lh, 0, recovering) && (recovering ==> bc.nbuf >= 2)
      modifies this`now, bc
      ensures bc.Valid() && (out.Halted? ==> NoRoom(bc.bufs, bc.disk, out.x))
      ensures k <= |lh| && bc.disk == Install(l, old(bc.disk), k) && bc.trace == old(bc.trace) + InstallTrace(l, old(bc.disk), k)
      ensures out.Done? ==> k == |lh| && Busy({}, -1, quiet) && bc.pinned == map[]
      ensures quiet ==> out.Done? && !Full(bc.bufs)
    {
      hide Unique, Counted, Current, Agrees, Shared, Full, NoRoom, StillPinned;
      ghost var d0, t0 := bc.disk, bc.trace;
      assert t0 + [] == t0;
      out, k := Done, 0;
      var tail := 0;
      while tail < |lh|
        invariant k == tail <= |lh| && out.Done? && Busy({}, -1, quiet) && (quiet ==> !Full(bc.bufs))
        invariant StillPinned(bc.pinned, lh, tail, recovering)
        invariant bc.disk == Install(l, d0, tail) && bc.trace == t0 + InstallTrace(l, d0, tail)
      {
        out, k := InstallNext(tail, recovering, d0, quiet);
        InstallStep(l, d0, tail);
        assert t0 + InstallTrace(l, d0, tail) + [Install(l, d0, tail + 1)] == t0 + InstallTrace(l, d0, tail + 1);
        if !out.Done? { return; }
        tail := tail + 1;
      }
      NonePinned(bc.pinned, lh, tail, recovering);
    }

    /** The last write of both commit and recovery: an empty header. */
    method Erase(ghost h: Disk, ghost quiet: bool) returns (out: Outcome, ghost wrote: bool)
      requires Busy({}, -1, quiet) && (quiet ==> !Full(bc.bufs)) && bc.pinned == map[]
      requires HeaderOk(l, h) && bc.disk == Install(l, h, HeadCount(l, h))
      modifies this`lh, this`now, bc
      ensures bc.Valid() && (out.Halted? ==> NoRoom(bc.bufs, bc.disk, out.x))
      ensures !wrote ==> bc.disk == old(bc.disk) && bc.trace == old(bc.trace) && !out.Done?
      ensures wrote ==> bc.disk == Recovered(l, h) && bc.trace == old(bc.trace) + [bc.disk]
      ensures out.Done? ==> lh == [] && Valid() && Busy({}, -1, quiet) && bc.pinned == map[] && bc.logical == bc.disk
      ensures quiet ==> out.Done?
    {
      hide Unique, Counted, Agrees, Shared, Full, NoRoom, Current, Install;
      InstallKeepsLog(l, h, HeadCount(l, h));
      lh := [];
      out, wrote := WriteHead(quiet);
      if out.Done? {
        RecoveredIdle(l, h);
        NothingPinned();
      }
    }

    lemma NothingPinned()
      requires bc.Valid() && bc.pinned == map[]
      ensures bc.logical == bc.disk
    {
    }

    /** How far a commit of transaction (dsts, data) on disk d0 has come, the trace having been t0: k writes. */
    ghost predicate Written(d0: Disk, dsts: seq<nat>, data: seq<Block>, t0: seq<Disk>, k: nat)
      reads bc
    {
      && l.Fits(d0) && TxnOk(l, d0, dsts, data) && k <= 2 * |dsts| + 2
      && bc.disk == CommitState(l, d0, dsts, data, k) && bc.trace == t0 + CommitTrace(l, d0, dsts, data, k)
    }

    /** commit after write_log: the commit point, the home copies, and the erased header. */
    method Finish(ghost d0: Disk, ghost data: seq<Block>, ghost t0: seq<Disk>, ghost quiet: bool) returns (out: Outcome, ghost k: nat)
      requires Busy({}, -1, quiet) && InLog() && (quiet ==> !Full(bc.bufs)) && lh != []
      requires |d0| == |bc.disk| && |data| == |lh| && Written(d0, lh, data, t0, |lh|)
      modifies this`lh, this`now, bc
      ensures bc.Valid() && (out.Halted? ==> NoRoom(bc.bufs, bc.disk, out.x))
      ensures k <= 2 * old(|lh|) + 2 && Written(d0, old(lh), data, t0, k)
      ensures out.Done? ==> k == 2 * old(|lh|) + 2 && lh == [] && Valid() && Busy({}, -1, quiet)
      ensures out.Done? ==> bc.pinned == map[] && bc.logical == bc.disk
      ensures quiet ==> out.Done?
    {
      hide Unique, Counted, Current, Agrees, Shared, Full, NoRoom, Install;
      ghost var h, dsts, n := Headed(l, d0, lh, data), lh, |lh|;
      HeadedOk(l, d0, lh, data);
      ghost var wrote;
      k := n;
      HeadStep(d0, dsts, data, t0);
      out, wrote := WriteHead(quiet);
      if wrote { k := n + 1; }
      if !out.Done? { return; }
      assert StillPinned(bc.pinned, lh, 0, false) by { assert lh[0..] == lh; }
      ghost var t1 := bc.trace;
      ghost var kk;
      out, kk := InstallTrans(false, quiet);
      k := n + 1 + kk;
      InstallWritten(d0, dsts, data, t0, t1, kk);
      if !out.Done? { return; }
      ghost var t2 := bc.trace;
      out, wrote := Erase(h, quiet);
      if wrote { EraseWritten(d0, dsts, data, t0, t2); k := 2 * n + 2; }
    }

    /** Where the header write leads. */
    lemma HeadStep(d0: Disk, dsts: seq<nat>, data: seq<Block>, t0: seq<Disk>)
      requires Written(d0, dsts, data, t0, |dsts|)
      ensures var h := Headed(l, d0, dsts, data);
              && CommitState(l, d0, dsts, data, |dsts| + 1) == h
              && h == bc.disk[l.start := EncodeHead(bc.disk[l.start], dsts)]
              && t0 + CommitTrace(l, d0, dsts, data, |dsts| + 1) == bc.trace + [h]
    {
      HeadedOk(l, d0, dsts, data);
      var h := Headed(l, d0, dsts, data);
      assert CommitState(l, d0, dsts, data, |dsts| + 1) == h;
    }

    lemma InstallWritten(d0: Disk, dsts: seq<nat>, data: seq<Block>, t0: seq<Disk>, t1: seq<Disk>, k: nat)
      requires l.Fits(d0) && TxnOk(l, d0, dsts, data) && k <= |dsts|
      requires t1 == t0 + CommitTrace(l, d0, dsts, data, |dsts| + 1)
      requires HeaderOk(l, Headed(l, d0, dsts, data)) && HeadCount(l, Headed(l, d0, dsts, data)) == |dsts|
      requires bc.disk == Install(l, Headed(l, d0, dsts, data), k)
      requires bc.trace == t1 + InstallTrace(l, Headed(l, d0, dsts, data), k)
      ensures Written(d0, dsts, data, t0, |dsts| + 1 + k)
    {
      CommitTraceInstall(l, d0, dsts, data, 0);
      CommitTraceInstall(l, d0, dsts, data, k);
      var h := Headed(l, d0, dsts, data);
      var a, b := LogTrace(l, d0, data, |dsts|), InstallTrace(l, h, k);
      assert t0 + (a + ([h] + InstallTrace(l, h, 0))) + b == t0 + (a + ([h] + b));
    }

    lemma EraseWritten(d0: Disk, dsts: seq<nat>, data: seq<Block>, t0: seq<Disk>, t2: seq<Disk>)
      requires l.Fits(d0) && TxnOk(l, d0, dsts, data) && t2 == t0 + CommitTrace(l, d0, dsts, data, 2 * |dsts| + 1)
      requires HeaderOk(l, Headed(l, d0, dsts, data)) && bc.disk == Recovered(l, Headed(l, d0, dsts, data))
      requires bc.trace == t2 + [bc.disk]
      ensures Written(d0, dsts, data, t0, 2 * |dsts| + 2)
    {
      var n := 2 * |dsts| + 2;
      assert CommitTrace(l, d0, dsts, data, n) == CommitTrace(l, d0, dsts, data, n - 1) + [CommitState(l, d0, dsts, data, n)];
    }

    /** The transaction is what readers see of its blocks; the other blocks are on the disk. */
    lemma TxnReady()
      requires Valid()
      ensures TxnOk(l, bc.disk, lh, Txn()) && |bc.logical| == |bc.disk|
      ensures forall i :: 0 <= i < |lh| ==> Txn()[i] == bc.logical[lh[i]]
      ensures forall x :: 0 <= x < |bc.disk| && x !in lh ==> bc.disk[x] == bc.logical[x]
    {
      hide Unique, Counted, Agrees;
    }

    /** commit, while other processes read. However it ends, the disk has gone through the first k states of
        CommitTrace and no others. It ends in a panic only when some bread finds its block uncached and every
        buffer in use. When it completes, the home blocks hold what readers saw before, and the log is empty. */
    method Commit(ghost quiet: bool) returns (out: Outcome, ghost k: nat)
      requires Valid() && Busy({}, -1, quiet)
      modifies this`lh, this`now, bc
      ensures bc.Valid() && (out.Halted? ==> NoRoom(bc.bufs, bc.disk, out.x))
      ensures old(lh) == [] ==> out.Done? && bc.disk == old(bc.disk) && bc.trace == old(bc.trace)
      ensures old(lh) != [] ==> k <= 2 * |old(lh)| + 2 && Written(old(bc.disk), old(lh), old(Txn()), old(bc.trace), k)
      ensures out.Done? ==> Valid() && Busy({}, -1, quiet) && lh == [] && bc.pinned == map[] && bc.logical == bc.disk
      ensures out.Done? && old(lh) != [] ==> k == 2 * |old(lh)| + 2 && SameHome(l, bc.disk, old(bc.logical))
      ensures quiet ==> !out.Blocked? && (out.Done? <==> old(lh) == [] || old(|lh|) < bc.nbuf)
    {
      if lh == [] {
        assert bc.pinned == map[];
        NothingPinned();
        return Done, 0;
      }
      hide Unique, Counted, Agrees, Shared, Full, NoRoom, Current, CommitState, CommitTrace, LogWritten, LogTrace, TxnOf;
      ghost var d0, data, t0, lh0 := bc.disk, Txn(), bc.trace, lh;
      TxnReady();
      CommitHome(l, d0, bc.logical, lh0, data);
      out, k := WriteLog(quiet);
      CommitTraceLog(l, d0, lh0, data, k);
      LogWrittenState(l, d0, lh0, data, k);
      if !out.Done? { return; }
      out, k := Finish(d0, data, t0, quiet);
    }

    /** begin_op, up to the point where it waits: false while the log may run full. */
    method BeginOp() returns (ok: bool)
      requires Valid()
      modifies this`outstanding
      ensures Valid() && (ok <==> |lh| + (old(outstanding) + 1) * LogOps.MAXOPBLOCKS <= l.logBlocks)
      ensures outstanding == old(outstanding) + if ok then 1 else 0
    {
      ok := |lh| + (outstanding + 1) * LogOps.MAXOPBLOCKS <= l.logBlocks;
      if ok { outstanding := outstanding + 1; }
    }

    /** end_op: the last call to end commits. */
    method EndOp(ghost quiet: bool) returns (out: Outcome, ghost k: nat)
      requires Valid() && Busy({}, -1, quiet) && outstanding >= 1
      modifies this`outstanding, this`lh, this`now, bc
      ensures outstanding == old(outstanding) - 1
      ensures outstanding > 0 ==> out.Done? && Valid() && lh == old(lh) && bc.disk == old(bc.disk) && bc.trace == old(bc.trace)
      ensures outstanding == 0 && old(lh) != [] ==> k <= 2 * |old(lh)| + 2 && Written(old(bc.disk), old(lh), old(Txn()), old(bc.trace), k)
      ensures outstanding == 0 && out.Done? ==> Valid() && lh == [] && bc.pinned == map[] && (old(lh) != [] ==> SameHome(l, bc.disk, old(bc.logical)))
      ensures out.Halted? ==> NoRoom(bc.bufs, bc.disk, out.x)
    {
      hide Unique, Counted, Agrees, Shared, Full, NoRoom, Current, CommitState, CommitTrace;
      outstanding := outstanding - 1;
      if outstanding > 0 { return Done, 0; }
      out, k := Commit(quiet);
    }

    /** A crash at any point of a commit, finished or not: recovery from the disk after any of its writes gives
        either the home blocks before it or those after it, with an empty log. */
    lemma CommitCrashSafe(d0: Disk, dsts: seq<nat>, data: seq<Block>, t0: seq<Disk>, k: nat, i: nat)
      requires Written(d0, dsts, data, t0, k) && HeadCount(l, d0) == 0 && |t0| <= i < |bc.trace|
      ensures var d := bc.trace[i];
              && HeaderOk(l, d) && HeadCount(l, Recovered(l, d)) == 0
              && SameHome(l, Recovered(l, d), if i - |t0| < |dsts| then d0 else NewHome(d0, dsts, data))
    {
      hide CommitState, Recovered, NewHome, SameHome;
      if k > 0 { CommitTraceAt(l, d0, dsts, data, k, 0); }
      var j := i - |t0|;
      CommitTraceAt(l, d0, dsts, data, k, j);
      CommitAtomic(l, d0, dsts, data, j + 1);
    }

    /** read_head: the on-disk header becomes the in-memory one. */
    method ReadHead()
      requires Busy({}, -1, true) && HeaderOk(l, bc.disk) && l.start !in bc.pinned && !Full(bc.bufs)
      modifies this`lh, this`now, bc`bufs, bc`waiting, bc`next, bc`prev, bc`ring
      ensures Busy({}, -1, true) && !Full(bc.bufs) && lh == HeadDsts(l, bc.disk)
    {
      hide Shared, Unique, Counted, Agrees;
      RoomIfNotFull(l.start);
      var b, out := Read(l.start, {}, true);
      assert {} + {b} == {b};
      var hb := bc.bufs[b].data;
      assert hb == bc.disk[l.start];
      hide Current, NoRoom, Full;
      var n := hb[0];
      lh := [];
      var i := 0;
      while i < n
        invariant 0 <= i <= n && lh == hb[1..1 + i]
        modifies this`lh
      {
        lh := lh + [hb[1 + i]];
        i := i + 1;
      }
      out := Drop(b, {b}, true);
      assert {b} - {b} == {};
      NotFull(b);
    }

    lemma BootRoom()
      requires Busy({}, -1, true) && bc.pinned == map[] && bc.nbuf >= 2
      ensures !Full(bc.bufs)
    {
      QuietCount(l, bc.bufs, bc.waiting, bc.pinned, bc.logical, {}, 0);
    }

    /** recover_from_log at boot, before any other process runs, from any disk whose header is well formed. */
    method RecoverFromLog()
      requires Busy({}, -1, true) && HeaderOk(l, bc.disk) && bc.pinned == map[] && bc.nbuf >= 2
      modifies this`lh, this`now, bc
      ensures Valid() && Busy({}, -1, true) && lh == [] && bc.pinned == map[] && bc.logical == bc.disk
      ensures bc.disk == Recovered(l, old(bc.disk))
      ensures bc.trace == old(bc.trace) + RecoveryTrace(l, old(bc.disk), HeadCount(l, old(bc.disk)) + 1)
    {
      ghost var d0, t0 := bc.disk, bc.trace;
      ghost var n := HeadCount(l, d0);
      hide Unique, Counted, Agrees, Shared, Full, NoRoom, Current, Install;
      BootRoom();
      ReadHead();
      var out, k := InstallTrans(true, true);
      ghost var wrote;
      out, wrote := Erase(d0, true);
      RecoveryTraceInstall(l, d0, n);
      assert bc.trace == t0 + InstallTrace(l, d0, n) + [bc.disk];
    }

    /** Alone, the cache has a free buffer exactly if fewer blocks are logged than there are buffers. */
    lemma PinCount()
      requires Valid() && Busy({}, -1, true)
      ensures |bc.pinned.Keys| == |lh| <= bc.nbuf && (Full(bc.bufs) <==> |lh| == bc.nbuf)
    {
      DistinctSize(lh);
      assert bc.pinned.Keys == Elems(lh);
      hide Shared;
      FullIffAllPinned(l, bc.bufs, bc.waiting, bc.pinned, bc.disk, bc.logical);
    }

    /** One log_write by a process that is alone: block x joins the transaction. */
    method LogBlock(x: nat)
      requires Valid() && Busy({}, -1, true) && outstanding >= 1 && |lh| < l.logBlocks && |lh| < bc.nbuf
      requires x < |bc.disk| && !l.InLog(x) && x !in lh
      modifies this`lh, this`now, bc
      ensures Valid() && Busy({}, -1, true) && lh == old(lh) + [x] && |bc.disk| == |old(bc.disk)|
    {
      hide Shared, Unique, Agrees, Counted, Current, Full, NoRoom;
      PinCount();
      RoomIfNotFull(x);
      var b, out := Read(x, {}, true);
      assert {} + {b} == {b};
      LogHeld(b);
      out := Drop(b, {b}, true);
      assert {b} - {b} == {};
    }

    method LogHeld(b: nat)
      requires Valid() && Busy({b}, -1, true) && outstanding >= 1 && |lh| < l.logBlocks && b < bc.nbuf
      requires bc.bufs[b].valid && bc.bufs[b].dev == ROOTDEV && bc.bufs[b].blockno < |bc.disk| && !l.InLog(bc.bufs[b].blockno)
      requires bc.bufs[b].blockno !in lh
      modifies this`lh, bc`bufs, bc`pinned, bc`logical
      ensures Valid() && Busy({b}, -1, true) && lh == old(lh) + [old(bc.bufs)[b].blockno]
      ensures bc.bufs[b] == old(bc.bufs)[b].(refcnt := bc.bufs[b].refcnt)
      ensures bc.bufs[b].blockno < |bc.logical| && bc.logical[bc.bufs[b].blockno] == bc.bufs[b].data
    {
      ghost var bufs, logical := bc.bufs, bc.logical;
      SharedBuf(l, bufs, bc.waiting, logical, {b}, -1, true, b);
      var ok := LogWrite(b);
      hide BufOk;
      FilledShared(l, bufs, bc.waiting, bc.bufs, logical, {b}, true, b);
      WroteShared(l, bc.bufs, bc.waiting, logical, {b}, true, b, bc.bufs[b].data);
    }

    /** A transaction of the blocks `xs` is built and committed by a process that is alone. If they are as
        many as the buffers of the cache, which NBUF == LOGBLOCKS allows, the commit panics. */
    method FullTransactionHalts(xs: seq<nat>) returns (out: Outcome)
      requires Valid() && Busy({}, -1, true) && lh == [] && outstanding >= 1 && 1 <= |xs| == bc.nbuf <= l.logBlocks
      requires Distinct(xs) && forall i :: 0 <= i < |xs| ==> xs[i] < |bc.disk| && !l.InLog(xs[i])
      modifies this`lh, this`now, bc
      ensures out.Halted? && NoRoom(bc.bufs, bc.disk, out.x)
    {
      hide Shared, Full, NoRoom;
      var i := 0;
      while i < |xs|
        invariant 0 <= i <= |xs| && Valid() && Busy({}, -1, true) && lh == xs[..i]
        invariant |bc.disk| == old(|bc.disk|)
      {
        LogBlock(xs[i]);
        i := i + 1;
      }
      ghost var k;
      out, k := Commit(true);
    }

    /** One buffer less is enough: if a reader takes the last buffer for a home block y, the bread of the
        first log block panics. */
    method ReaderHaltsCommit(y: nat) returns (r: Option<nat>)
      requires Valid() && Busy({}, -1, true) && lh != [] && |lh| + 1 == bc.nbuf
      requires y < |bc.disk| && !l.InLog(y) && y !in lh
      modifies bc`bufs, bc`waiting
      ensures r.None? && NoRoom(bc.bufs, bc.disk, l.start + 1)
    {
      ghost var bufs, waiting := bc.bufs, bc.waiting;
      PinCount();
      hide Shared, Unique, Agrees, Counted, Current;
      var a, _ := bc.Bget(ROOTDEV, y);
      assert Cached(bufs, ROOTDEV, y) ==> bufs[a.value].Holds(ROOTDEV, y);
      AllTaken(l, bufs, waiting, bc.pinned, bc.disk, bc.logical, bc.bufs, a.value, y);
      ghost var pos;
      r, pos := bc.Bget(ROOTDEV, l.start + 1);
    }
  }
}
