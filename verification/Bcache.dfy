/** The circular doubly linked list of kernel/bio.c, as index links around a head. */
module Ring {
  /** The walk along the list from the head back to the head. */
  ghost function Path(ring: seq<nat>, head: nat): seq<nat> { [head] + ring + [head] }

  ghost predicate NextOk(next: seq<nat>, path: seq<nat>) {
    forall i, j :: 0 <= i && j == i + 1 < |path| ==> path[i] < |next| && next[path[i]] == path[j]
  }

  ghost predicate PrevOk(prev: seq<nat>, path: seq<nat>) {
    forall i, j :: 0 <= i && j == i + 1 < |path| ==> path[j] < |prev| && prev[path[j]] == path[i]
  }

  /** `ring` lists head.next, head.next.next, ... and back to the head, in both directions. */
  ghost predicate Linked(next: seq<nat>, prev: seq<nat>, ring: seq<nat>, head: nat) {
    && |next| == |prev| && head < |next|
    && (forall i :: 0 <= i < |ring| ==> ring[i] < |next| && ring[i] != head)
    && (forall i, j :: 0 <= i < j < |ring| ==> ring[i] != ring[j])
    && NextOk(next, Path(ring, head)) && PrevOk(prev, Path(ring, head))
  }

  ghost function IndexOf(ring: seq<nat>, b: nat): (k: nat)
    requires b in ring
    ensures k < |ring| && ring[k] == b
  {
    if ring[0] == b then 0 else 1 + IndexOf(ring[1..], b)
  }

  function Without(ring: seq<nat>, k: nat): seq<nat>
    requires k < |ring|
  {
    ring[..k] + ring[k + 1..]
  }

  /** No element of a linked list occurs twice on the walk around it, except the head. */
  lemma PathDistinct(next: seq<nat>, prev: seq<nat>, ring: seq<nat>, head: nat, i: nat, j: nat)
    requires Linked(next, prev, ring, head) && i < j < |ring| + 2 && (i > 0 || j < |ring| + 1)
    ensures Path(ring, head)[i] != Path(ring, head)[j]
  {
  }

  lemma UnlinkNext(next: seq<nat>, prev: seq<nat>, ring: seq<nat>, head: nat, k: nat)
    requires Linked(next, prev, ring, head) && k < |ring|
    ensures var b := ring[k];
            prev[b] < |next| && next[b] < |prev| && NextOk(next[prev[b] := next[b]], Path(Without(ring, k), head))
  {
    var b := ring[k];
    var path, path' := Path(ring, head), Path(Without(ring, k), head);
    assert path[k + 1] == b && path[k] == prev[b] && path[k + 2] == next[b];
    forall i, j | 0 <= i && j == i + 1 < |path'|
      ensures path'[i] < |next| && next[prev[b] := next[b]][path'[i]] == path'[j]
    {
      var q := if i <= k then i else i + 1;
      assert path'[i] == path[q] && next[path[q]] == path[q + 1];
      if q < k { PathDistinct(next, prev, ring, head, q, k); } else if q > k { PathDistinct(next, prev, ring, head, k, q); }
    }
  }

  lemma UnlinkPrev(next: seq<nat>, prev: seq<nat>, ring: seq<nat>, head: nat, k: nat)
    requires Linked(next, prev, ring, head) && k < |ring|
    ensures var b := ring[k];
            prev[b] < |next| && next[b] < |prev| && PrevOk(prev[next[b] := prev[b]], Path(Without(ring, k), head))
  {
    var b := ring[k];
    var path, path' := Path(ring, head), Path(Without(ring, k), head);
    assert path[k + 1] == b && path[k] == prev[b] && path[k + 2] == next[b];
    forall i, j | 0 <= i && j == i + 1 < |path'|
      ensures path'[j] < |prev| && prev[next[b] := prev[b]][path'[j]] == path'[i]
    {
      var r := if j <= k then j else j + 1;
      assert path'[j] == path[r] && prev[path[r]] == path[r - 1];
      if r < k + 2 { PathDistinct(next, prev, ring, head, r, k + 2); }
      else if r > k + 2 { PathDistinct(next, prev, ring, head, k + 2, r); }
    }
  }

  /** Splicing out one element leaves the others linked in the same order. */
  lemma Unlink(next: seq<nat>, prev: seq<nat>, ring: seq<nat>, head: nat, k: nat)
    requires Linked(next, prev, ring, head) && k < |ring|
    ensures var b := ring[k];
            && prev[b] < |next| && next[b] < |prev|
            && Linked(next[prev[b] := next[b]], prev[next[b] := prev[b]], Without(ring, k), head)
  {
    UnlinkNext(next, prev, ring, head, k);
    UnlinkPrev(next, prev, ring, head, k);
  }

  lemma PushNext(next: seq<nat>, prev: seq<nat>, ring: seq<nat>, head: nat, b: nat)
    requires Linked(next, prev, ring, head) && b < |next| && b != head && b !in ring
    ensures NextOk(next[b := next[head]][head := b], Path([b] + ring, head))
  {
    var path, path' := Path(ring, head), Path([b] + ring, head);
    assert path[0] == head && path[1] == next[head];
    forall i, j | 0 <= i && j == i + 1 < |path'|
      ensures path'[i] < |next| && next[b := next[head]][head := b][path'[i]] == path'[j]
    {
      if i >= 2 { assert path'[i] == path[i - 1] && path'[j] == path[j - 1] && next[path[i - 1]] == path[j - 1]; }
    }
  }

  lemma PushPrev(next: seq<nat>, prev: seq<nat>, ring: seq<nat>, head: nat, b: nat)
    requires Linked(next, prev, ring, head) && b < |next| && b != head && b !in ring
    ensures next[head] < |prev| && PrevOk(prev[b := head][next[head] := b], Path([b] + ring, head))
  {
    var path, path' := Path(ring, head), Path([b] + ring, head);
    assert path[0] == head && path[1] == next[head];
    forall i, j | 0 <= i && j == i + 1 < |path'|
      ensures path'[j] < |prev| && prev[b := head][next[head] := b][path'[j]] == path'[i]
    {
      if j >= 2 { assert path'[j] == path[j - 1]; }
      if j >= 3 {
        assert path'[i] == path[i - 1] && prev[path[j - 1]] == path[i - 1];
        PathDistinct(next, prev, ring, head, 1, j - 1);
      }
    }
  }

  /** Linking an unlisted element in after the head. */
  lemma PushFront(next: seq<nat>, prev: seq<nat>, ring: seq<nat>, head: nat, b: nat)
    requires Linked(next, prev, ring, head)
    requires b < |next| && b != head && b !in ring
    ensures next[head] < |prev|
    ensures Linked(next[b := next[head]][head := b], prev[b := head][next[head] := b], [b] + ring, head)
  {
    PushNext(next, prev, ring, head, b);
    PushPrev(next, prev, ring, head, b);
  }

  /** Splicing an element out and back in at the front keeps the list linked with the same elements. */
  lemma MoveToFront(next: seq<nat>, prev: seq<nat>, ring: seq<nat>, head: nat, k: nat)
    requires Linked(next, prev, ring, head) && k < |ring|
    ensures prev[ring[k]] < |next| && next[ring[k]] < |prev|
    ensures var b := ring[k];
            var next', prev' := next[prev[b] := next[b]], prev[next[b] := prev[b]];
            && next'[head] < |prev|
            && Linked(next'[b := next'[head]][head := b], prev'[b := head][next'[head] := b],
                      [b] + Without(ring, k), head)
    ensures forall x :: x in ring ==> x in [ring[k]] + Without(ring, k)
  {
    var b := ring[k];
    Unlink(next, prev, ring, head, k);
    PushFront(next[prev[b] := next[b]], prev[next[b] := prev[b]], Without(ring, k), head, b);
    var after := [b] + Without(ring, k);
    forall x | x in ring ensures x in after {
      var m :| 0 <= m < |ring| && ring[m] == x;
      if m < k { assert after[m + 1] == x; } else if m > k { assert after[m] == x; }
    }
  }
}

/** The buffer cache of kernel/bio.c over one disk.

    Each method is one critical section of the source (or one step by the holder of a buffer's sleep
    lock), so any sequence of calls is an interleaving of processes. The ghost fields say who the
    reference counts stand for and what each block is supposed to hold. */
module Bcache {
  import opened LogSpec
  import opened Options
  import opened Ring

  const ROOTDEV: nat := 1

  datatype Buf = Buf(valid: bool, dev: nat, blockno: nat, refcnt: nat, locked: bool, data: Block) {
    predicate Holds(dev: nat, blockno: nat) { this.dev == dev && this.blockno == blockno }
  }

  const UNUSED: Buf := Buf(false, 0, 0, 0, false, seq(WORDS, i => 0))

  /** No two buffers hold the same block (binit leaves every buffer at device 0, block 0). */
  ghost predicate Unique(bufs: seq<Buf>) {
    forall i, j :: 0 <= i < j < |bufs| && bufs[i].dev != 0 ==> !bufs[j].Holds(bufs[i].dev, bufs[i].blockno)
  }

  ghost predicate Pinned(b: Buf, pinned: map<nat, nat>) {
    b.dev == ROOTDEV && b.blockno in pinned
  }

  /** A reference count is exactly the callers on their way in or out, the holder, and the log's pin. */
  ghost predicate Counted(bufs: seq<Buf>, waiting: seq<nat>, pinned: map<nat, nat>) {
    && |bufs| == |waiting|
    && forall i :: 0 <= i < |bufs| ==>
         bufs[i].refcnt ==
         waiting[i] + (if bufs[i].locked then 1 else 0) + (if Pinned(bufs[i], pinned) then 1 else 0)
  }

  /** Every pinned block sits in its buffer, and every other block's disk copy is current. */
  ghost predicate Current(bufs: seq<Buf>, pinned: map<nat, nat>, disk: Disk, logical: Disk) {
    && |logical| == |disk|
    && (forall x :: x in pinned ==>
          x < |disk| && pinned[x] < |bufs| && bufs[pinned[x]].Holds(ROOTDEV, x) && bufs[pinned[x]].valid)
    && (forall x :: 0 <= x < |disk| && x !in pinned ==> disk[x] == logical[x])
  }

  /** A buffer that nobody holds agrees with the logged contents of its block. */
  ghost predicate Agrees(bufs: seq<Buf>, logical: Disk) {
    forall i :: 0 <= i < |bufs| && bufs[i].dev == ROOTDEV ==>
      bufs[i].blockno < |logical| &&
      (bufs[i].valid && !bufs[i].locked ==> bufs[i].data == logical[bufs[i].blockno])
  }

  ghost predicate Cached(bufs: seq<Buf>, dev: nat, blockno: nat) {
    exists i :: 0 <= i < |bufs| && bufs[i].Holds(dev, blockno)
  }

  ghost predicate Full(bufs: seq<Buf>) {
    forall i :: 0 <= i < |bufs| ==> bufs[i].refcnt > 0
  }

  lemma Unpinned(bufs: seq<Buf>, waiting: seq<nat>, pinned: map<nat, nat>, disk: Disk, logical: Disk, b: nat)
    requires b < |bufs| && Pinned(bufs[b], pinned)
    requires Unique(bufs) && Counted(bufs, waiting, pinned) && Current(bufs, pinned, disk, logical)
    requires disk[bufs[b].blockno] == logical[bufs[b].blockno]
    ensures var bufs' := bufs[b := bufs[b].(refcnt := bufs[b].refcnt - 1)];
            var pinned' := pinned - {bufs[b].blockno};
            Counted(bufs', waiting, pinned') && Current(bufs', pinned', disk, logical)
  {
    var x := bufs[b].blockno;
    assert pinned[x] == b;
    assert forall i :: 0 <= i < |bufs| && i != b ==> !bufs[i].Holds(ROOTDEV, x);
  }

  class Cache {
    const nbuf: nat
    var bufs: seq<Buf>
    var next: seq<nat>  // index nbuf is the list head
    var prev: seq<nat>
    var disk: Disk
    // Per buffer, references without the sleep lock: bget on its way in, brelse on its way out.
    var waiting: seq<nat>

    ghost var ring: seq<nat>         // buffers in list order, most recently used first
    ghost var pinned: map<nat, nat>  // blocks pinned by the log, and the buffer each is in
    ghost var logical: Disk          // the last logged contents of each block
    ghost var trace: seq<Disk>       // the disk after each write, oldest first

    /** The list holds every buffer exactly once. */
    ghost predicate Listed()
      reads this`next, this`prev, this`ring
    {
      && |ring| == nbuf && |next| == nbuf + 1
      && Linked(next, prev, ring, nbuf)
      && (forall i :: 0 <= i < nbuf ==> i in ring)
    }

    ghost predicate Valid()
      reads this
    {
      && Listed() && |bufs| == nbuf
      && Unique(bufs) && Counted(bufs, waiting, pinned)
      && Current(bufs, pinned, disk, logical) && Agrees(bufs, logical)
    }

    constructor (n: nat, d: Disk)
      ensures nbuf == n && disk == logical == d && pinned == map[] && trace == []
      ensures Valid() && waiting == seq(n, i => 0)
      ensures forall i :: 0 <= i < n ==> bufs[i] == UNUSED
    {
      nbuf := n;
      bufs := seq(n, i => UNUSED);
      waiting := seq(n, i => 0);
      disk, logical, pinned, trace := d, d, map[], [];
      next, prev := seq(n + 1, i => n), seq(n + 1, i => n);
      ring := [];
      new;
      var b := 0;
      while b < nbuf
        invariant b <= nbuf == n
        invariant |next| == n + 1 && |ring| == b && Linked(next, prev, ring, n)
        invariant forall i :: 0 <= i < n ==> (i in ring <==> i < b)
        invariant disk == logical == d && pinned == map[] && trace == []
        invariant bufs == seq(n, i => UNUSED) && waiting == seq(n, i => 0)
      {
        PushFront(next, prev, ring, n, b);
        LinkFront(b);
        b := b + 1;
      }
    }

    /** The pointer updates shared by binit and brelse: b goes right after the head. */
    method LinkFront(b: nat)
      requires |next| == |prev| == nbuf + 1 && b < nbuf && next[nbuf] <= nbuf
      modifies this`next, this`prev, this`ring
      ensures next == old(next)[b := old(next)[nbuf]][nbuf := b]
      ensures prev == old(prev)[b := nbuf][old(next)[nbuf] := b]
      ensures ring == [b] + old(ring)
    {
      next := next[b := next[nbuf]];
      prev := prev[b := nbuf];
      prev := prev[next[nbuf] := b];
      next := next[nbuf := b];
      ring := [b] + ring;
    }

    /** The first loop of bget: walk the list from its head. */
    method FindCached(dev: nat, blockno: nat) returns (r: Option<nat>)
      requires Listed() && |bufs| == nbuf
      ensures r.Some? ==> r.value < nbuf && bufs[r.value].Holds(dev, blockno)
      ensures r.None? ==> !Cached(bufs, dev, blockno)
    {
      ghost var k := 0;
      ghost var path := Path(ring, nbuf);
      assert path[0] == nbuf && next[path[0]] == path[1];
      var b := next[nbuf];
      while b != nbuf
        invariant 0 <= k <= nbuf && b == path[k + 1]
        invariant forall j :: 0 <= j < k ==> !bufs[ring[j]].Holds(dev, blockno)
        decreases nbuf - k
      {
        if bufs[b].dev == dev && bufs[b].blockno == blockno { return Some(b); }
        assert next[path[k + 1]] == path[k + 2];
        b, k := next[b], k + 1;
      }
      forall i | 0 <= i < nbuf ensures !bufs[i].Holds(dev, blockno) {
        assert i in ring;
      }
      return None;
    }

    /** The second loop of bget: walk backwards to the least recently used unreferenced buffer. */
    method FindUnused() returns (r: Option<nat>, ghost pos: nat)
      requires Listed() && |bufs| == nbuf
      ensures r.None? <==> Full(bufs)
      ensures r.Some? ==> pos < nbuf && r.value == ring[pos] && bufs[r.value].refcnt == 0
      ensures r.Some? ==> forall j :: pos < j < nbuf ==> bufs[ring[j]].refcnt > 0
    {
      ghost var k := nbuf;
      ghost var path := Path(ring, nbuf);
      assert path[nbuf + 1] == nbuf && prev[path[nbuf + 1]] == path[nbuf];
      var b := prev[nbuf];
      while b != nbuf
        invariant 0 <= k <= nbuf && b == path[k]
        invariant forall j :: k <= j < nbuf ==> bufs[ring[j]].refcnt > 0
        decreases k
      {
        if bufs[b].refcnt == 0 { return Some(b), k - 1; }
        assert prev[path[k]] == path[k - 1];
        b, k := prev[b], k - 1;
      }
      forall i | 0 <= i < nbuf ensures bufs[i].refcnt > 0 {
        assert i in ring;
      }
      return None, 0;
    }

    /** bget up to the point where it waits for the buffer's sleep lock; None is the panic. The block
        gets one more reference. A referenced buffer is never recycled: the only buffer that can
        change identity is an unreferenced one, and then the least recently used. */
    method Bget(dev: nat, blockno: nat) returns (r: Option<nat>, ghost pos: nat)
      requires Valid() && dev == ROOTDEV && blockno < |disk|
      modifies this`bufs, this`waiting
      ensures Valid()
      ensures r.None? <==> old(!Cached(bufs, dev, blockno) && Full(bufs))
      ensures r.None? ==> bufs == old(bufs) && waiting == old(waiting)
      ensures r.Some? ==> r.value < nbuf && bufs[r.value].Holds(dev, blockno)
                          && waiting == old(waiting)[r.value := old(waiting)[r.value] + 1]
      ensures r.Some? && old(Cached(bufs, dev, blockno)) ==>
                var was := old(bufs)[r.value]; bufs == old(bufs)[r.value := was.(refcnt := was.refcnt + 1)]
      ensures r.Some? && !old(Cached(bufs, dev, blockno)) ==>
                && pos < nbuf && r.value == ring[pos] && old(bufs)[r.value].refcnt == 0
                && (forall j :: pos < j < nbuf ==> old(bufs)[ring[j]].refcnt > 0)
                && bufs == old(bufs)[r.value := old(bufs)[r.value].(dev := dev, blockno := blockno, valid := false, refcnt := 1)]
    {
      r := FindCached(dev, blockno);
      pos := 0;
      if r.Some? {
        var b := r.value;
        bufs := bufs[b := bufs[b].(refcnt := bufs[b].refcnt + 1)];
        waiting := waiting[b := waiting[b] + 1];
      } else {
        r, pos := FindUnused();
        if r.Some? { Recycle(r.value, dev, blockno); }
      }
    }

    method Recycle(b: nat, dev: nat, blockno: nat)
      requires Valid() && b < nbuf && bufs[b].refcnt == 0
      requires dev == ROOTDEV && blockno < |disk| && !Cached(bufs, dev, blockno)
      modifies this`bufs, this`waiting
      ensures Valid()
      ensures bufs == old(bufs)[b := old(bufs)[b].(dev := dev, blockno := blockno, valid := false, refcnt := 1)]
      ensures waiting == old(waiting)[b := 1] && old(waiting)[b] == 0
    {
      assert !Pinned(bufs[b], pinned);
      assert forall i :: 0 <= i < nbuf ==> !bufs[i].Holds(dev, blockno);
      bufs := bufs[b := bufs[b].(dev := dev, blockno := blockno, valid := false, refcnt := 1)];
      waiting := waiting[b := 1];
    }

    /** acquiresleep returns for one of the callers waiting for buffer b. */
    method Lock(b: nat)
      requires Valid() && b < nbuf && waiting[b] > 0 && !bufs[b].locked
      modifies this`bufs, this`waiting
      ensures Valid()
      ensures bufs == old(bufs)[b := old(bufs)[b].(locked := true)]
      ensures waiting == old(waiting)[b := old(waiting)[b] - 1]
    {
      bufs := bufs[b := bufs[b].(locked := true)];
      waiting := waiting[b := waiting[b] - 1];
    }

    /** The rest of bread: fetch the contents if the buffer was recycled. What the holder then sees
        is the last logged contents of the block. */
    method Fill(b: nat)
      requires Valid() && b < nbuf && bufs[b].locked && bufs[b].dev == ROOTDEV
      modifies this`bufs
      ensures Valid() && bufs[b].valid
      ensures bufs == old(bufs)[b := old(bufs)[b].(valid := true, data := bufs[b].data)]
      ensures bufs[b].data == if old(bufs)[b].valid then old(bufs)[b].data else logical[bufs[b].blockno]
    {
      if !bufs[b].valid {
        bufs := bufs[b := bufs[b].(data := disk[bufs[b].blockno], valid := true)];
      }
    }

    /** The holder changes the contents of its buffer. */
    method Modify(b: nat, data: Block)
      requires Valid() && b < nbuf && bufs[b].locked
      modifies this`bufs
      ensures Valid() && bufs == old(bufs)[b := old(bufs)[b].(data := data)]
    {
      bufs := bufs[b := bufs[b].(data := data)];
    }

    /** bwrite: the buffer's contents reach the disk, which is one more state a crash can expose. */
    method Bwrite(b: nat)
      requires Valid() && b < nbuf && bufs[b].locked && bufs[b].valid && bufs[b].dev == ROOTDEV
      modifies this`disk, this`logical, this`trace
      ensures Valid()
      ensures disk == old(disk)[bufs[b].blockno := bufs[b].data]
      ensures logical == old(logical)[bufs[b].blockno := bufs[b].data]
      ensures trace == old(trace) + [disk]
    {
      disk := disk[bufs[b].blockno := bufs[b].data];
      logical := logical[bufs[b].blockno := bufs[b].data];
      trace := trace + [disk];
    }

    /** The cache's part of log_write for a block that is not in the log yet: pin the buffer and make
        its contents the ones readers must see. */
    method Bpin(b: nat)
      requires Valid() && b < nbuf && bufs[b].locked && bufs[b].valid
      requires bufs[b].dev == ROOTDEV && bufs[b].blockno !in pinned
      modifies this`bufs, this`pinned, this`logical
      ensures Valid()
      ensures bufs == old(bufs)[b := old(bufs)[b].(refcnt := old(bufs)[b].refcnt + 1)]
      ensures pinned == old(pinned)[bufs[b].blockno := b]
      ensures logical == old(logical)[bufs[b].blockno := bufs[b].data]
    {
      var x := bufs[b].blockno;
      bufs := bufs[b := bufs[b].(refcnt := bufs[b].refcnt + 1)];
      logical := logical[x := bufs[b].data];
      pinned := pinned[x := b];
    }

    /** log absorption: the block is pinned already, its new contents replace the logged ones. */
    ghost method Absorb(b: nat)
      requires Valid() && b < nbuf && bufs[b].locked && Pinned(bufs[b], pinned)
      modifies this`logical
      ensures Valid() && logical == old(logical)[bufs[b].blockno := bufs[b].data]
    {
      logical := logical[bufs[b].blockno := bufs[b].data];
    }

    /** bunpin once the home copy is on the disk. */
    method Bunpin(b: nat)
      requires Valid() && b < nbuf && Pinned(bufs[b], pinned)
      requires disk[bufs[b].blockno] == logical[bufs[b].blockno]
      modifies this`bufs, this`pinned
      ensures Valid()
      ensures bufs == old(bufs)[b := old(bufs)[b].(refcnt := old(bufs)[b].refcnt - 1)]
      ensures pinned == old(pinned) - {bufs[b].blockno}
    {
      Unpinned(bufs, waiting, pinned, disk, logical, b);
      hide Counted, Current;
      pinned := pinned - {bufs[b].blockno};
      bufs := bufs[b := bufs[b].(refcnt := bufs[b].refcnt - 1)];
    }

    /** The first half of brelse, releasesleep, for a holder that has logged or written whatever it changed. */
    method Unlock(b: nat)
      requires Valid() && b < nbuf && bufs[b].locked
      requires bufs[b].valid && bufs[b].dev == ROOTDEV ==> bufs[b].data == logical[bufs[b].blockno]
      modifies this`bufs, this`waiting
      ensures Valid()
      ensures bufs == old(bufs)[b := old(bufs)[b].(locked := false)]
      ensures waiting == old(waiting)[b := old(waiting)[b] + 1]
    {
      bufs := bufs[b := bufs[b].(locked := false)];
      waiting := waiting[b := waiting[b] + 1];
    }

    /** The second half of brelse. The last reference moves the buffer to the most recently used end of
        the list. */
    method Unref(b: nat)
      requires Valid() && b < nbuf && waiting[b] > 0
      modifies this`bufs, this`waiting, this`next, this`prev, this`ring
      ensures Valid()
      ensures bufs == old(bufs)[b := old(bufs)[b].(refcnt := old(bufs)[b].refcnt - 1)]
      ensures waiting == old(waiting)[b := old(waiting)[b] - 1]
      ensures bufs[b].refcnt > 0 ==> ring == old(ring) && next == old(next) && prev == old(prev)
      ensures bufs[b].refcnt == 0 ==>
                b in old(ring) && ring == [b] + Without(old(ring), IndexOf(old(ring), b))
    {
      hide Unique, Counted, Current, Agrees, Linked;
      Uncount(b);
      if bufs[b].refcnt == 0 { ToFront(b); }
    }

    /** The reference count in brelse. */
    method Uncount(b: nat)
      requires Valid() && b < nbuf && waiting[b] > 0
      modifies this`bufs, this`waiting
      ensures Valid()
      ensures bufs == old(bufs)[b := old(bufs)[b].(refcnt := old(bufs)[b].refcnt - 1)]
      ensures waiting == old(waiting)[b := old(waiting)[b] - 1]
    {
      bufs := bufs[b := bufs[b].(refcnt := bufs[b].refcnt - 1)];
      waiting := waiting[b := waiting[b] - 1];
    }

    /** brelse's relinking. */
    method ToFront(b: nat)
      requires Listed() && b < nbuf
      modifies this`next, this`prev, this`ring
      ensures Listed()
      ensures b in old(ring) && ring == [b] + Without(old(ring), IndexOf(old(ring), b))
    {
      ghost var k := IndexOf(ring, b);
      MoveToFront(next, prev, ring, nbuf, k);
      var n, p := next[b], prev[b];
      prev := prev[n := p];
      next := next[p := n];
      ring := Without(ring, k);
      LinkFront(b);
    }
  }
}
