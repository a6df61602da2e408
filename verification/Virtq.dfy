/** The descriptors and rings of kernel/virtio_disk.c and the driver's work on them, and the same work
    done in place. */
module Virtq {
  import FsSpec
  import opened Options

  const NUM: nat := 8
  const IDX: nat := 0x1_0000           // ring indices are 16 bits wide

  /** What a descriptor points at: disk.ops[i], the data of buffer b, or disk.info[i].status. */
  datatype Addr = Nowhere | Header(i: nat) | Data(b: nat) | Status(i: nat)

  /** A descriptor with its flags VRING_DESC_F_NEXT and VRING_DESC_F_WRITE. */
  datatype Desc = Desc(addr: Addr, len: nat, more: bool, devWrites: bool, next: nat)

  const CLEAR := Desc(Nowhere, 0, false, false, 0)

  datatype Op = Op(write: bool, sector: nat)

  datatype Info = Info(b: int, status: nat)          // b is -1 for no buffer

  datatype Driver = Driver(desc: seq<Desc>, free: seq<bool>, avail: seq<nat>, availIdx: nat,
                           used: seq<nat>, usedIdx: nat, usedSeen: nat, info: seq<Info>, ops: seq<Op>)

  predicate Shape(q: Driver) {
    && |q.desc| == |q.free| == |q.avail| == |q.used| == |q.info| == |q.ops| == NUM
    && q.availIdx < IDX && q.usedIdx < IDX && q.usedSeen < IDX
  }

  datatype Three = Three(d0: nat, d1: nat, d2: nat)

  predicate Spread(d: Three) { d.d0 < NUM && d.d1 < NUM && d.d2 < NUM && d.d0 != d.d1 && d.d0 != d.d2 && d.d1 != d.d2 }

  predicate Has(d: Three, i: nat) { i == d.d0 || i == d.d1 || i == d.d2 }

  /** alloc_desc(): the first free descriptor, or -1. */
  function FirstFree(free: seq<bool>, from: nat): (i: int)
    requires from <= |free|
    ensures i == -1 || from <= i < |free|
    ensures if i == -1 then forall k: nat :: from <= k < |free| ==> !free[k] else free[i] && forall k: nat :: from <= k < i ==> !free[k]
    decreases |free| - from
  {
    if from == |free| then -1 else if free[from] then from else FirstFree(free, from + 1)
  }

  /** alloc3_desc(). */
  function Alloc3(free: seq<bool>): (r: Option<Three>)
    ensures r.Some? && |free| == NUM ==> Spread(r.value) && free[r.value.d0] && free[r.value.d1] && free[r.value.d2]
  {
    var d0 := FirstFree(free, 0);
    if d0 < 0 then None else
    var d1 := FirstFree(free[d0 := false], 0);
    if d1 < 0 then None else
    var d2 := FirstFree(free[d0 := false][d1 := false], 0);
    if d2 < 0 then None else Some(Three(d0, d1, d2))
  }

  function FreeSet(free: seq<bool>): set<nat> { set i: nat | i < |free| && free[i] }

  /** alloc3_desc() fails exactly when fewer than three descriptors are free. */
  lemma Alloc3Iff(free: seq<bool>)
    ensures Alloc3(free).None? <==> |FreeSet(free)| < 3
  {
    var d0 := FirstFree(free, 0);
    if d0 < 0 {
      assert FreeSet(free) == {};
    } else {
      var d1 := FirstFree(free[d0 := false], 0);
      if d1 < 0 {
        assert forall i: nat :: i < |free| && i != d0 ==> free[d0 := false][i] == free[i];
        assert FreeSet(free) == {d0};
      } else {
        var d2 := FirstFree(free[d0 := false][d1 := false], 0);
        assert forall i: nat :: i < |free| && i != d0 && i != d1 ==> free[d0 := false][d1 := false][i] == free[i];
        if d2 < 0 {
          assert FreeSet(free) == {d0, d1};
        } else {
          assert {d0, d1, d2} <= FreeSet(free);
          Subset({d0, d1, d2}, FreeSet(free));
        }
      }
    }
  }

  lemma Subset(a: set<nat>, b: set<nat>)
    requires a <= b
    ensures |a| <= |b|
  {
    assert b == a + (b - a);
  }

  /** What a failed alloc3_desc() leaves: the flags as they were, the descriptors it gave back cleared. */
  function GaveBack(q: Driver): (r: Driver)
    requires Shape(q)
    ensures Shape(r) && r == q.(desc := r.desc) && forall i: nat :: i < NUM && !q.free[i] ==> r.desc[i] == q.desc[i]
  {
    var d0 := FirstFree(q.free, 0);
    if d0 < 0 then q else
    var d1 := FirstFree(q.free[d0 := false], 0);
    if d1 < 0 then q.(desc := q.desc[d0 := CLEAR]) else q.(desc := q.desc[d0 := CLEAR][d1 := CLEAR])
  }

  /** The 32-bit product of virtio_disk_rw(). */
  function Sector(blockno: nat): nat { blockno * (FsSpec.BSIZE / 512) % 0x1_0000_0000 }

  /** The three descriptors of a request, filled in by virtio_disk_rw(). */
  function Format(q: Driver, b: nat, write: bool, blockno: nat, d: Three): (r: Driver)
    requires Shape(q) && Spread(d)
    ensures Shape(r)
  {
    q.(desc := q.desc[d.d0 := Desc(Header(d.d0), 16, true, false, d.d1)]
                     [d.d1 := Desc(Data(b), FsSpec.BSIZE, true, !write, d.d2)]
                     [d.d2 := Desc(Status(d.d0), 1, false, true, 0)],
       free := q.free[d.d0 := false][d.d1 := false][d.d2 := false],
       info := q.info[d.d0 := Info(b, 0xff)],
       ops := q.ops[d.d0 := Op(write, Sector(blockno))])
  }

  /** The request is put into the available ring. */
  function Publish(q: Driver, head: nat): (r: Driver)
    requires Shape(q)
    ensures Shape(r)
  {
    q.(avail := q.avail[q.availIdx % NUM := head], availIdx := (q.availIdx + 1) % IDX)
  }

  predicate Chain(q: Driver, d: Three) {
    && Shape(q) && Spread(d)
    && q.desc[d.d0].more && q.desc[d.d0].next == d.d1 && q.desc[d.d1].more && q.desc[d.d1].next == d.d2 && !q.desc[d.d2].more
  }

  /** The end of virtio_disk_rw(): no buffer any more, the three descriptors free and cleared. */
  function Freed(q: Driver, d: Three): (r: Driver)
    requires Shape(q) && Spread(d)
    ensures Shape(r)
  {
    q.(desc := q.desc[d.d0 := CLEAR][d.d1 := CLEAR][d.d2 := CLEAR], free := q.free[d.d0 := true][d.d1 := true][d.d2 := true],
       info := q.info[d.d0 := q.info[d.d0].(b := -1)])
  }

  function EntryBuf(q: Driver, i: nat): int
    requires Shape(q)
  {
    if q.used[i % NUM] < NUM then q.info[q.used[i % NUM]].b else -1
  }

  /** Entry i of the used ring names a request that has succeeded and its buffer. */
  predicate EntryOk(q: Driver, bufs: nat, i: nat)
    requires Shape(q)
  {
    q.used[i % NUM] < NUM && q.info[q.used[i % NUM]].status == 0 && 0 <= EntryBuf(q, i) < bufs
  }

  /** The entries from `from` up to `to` report buffer b. */
  ghost predicate Reports(q: Driver, from: nat, to: nat, b: nat)
    requires Shape(q)
  {
    exists i: nat :: from <= i < to && EntryBuf(q, i) == b
  }

  lemma ReportsNext(q: Driver, from: nat, to: nat, b: nat)
    requires Shape(q) && from <= to
    ensures Reports(q, from, to + 1, b) <==> Reports(q, from, to, b) || EntryBuf(q, to) == b
  {
  }

  lemma NextIndex(i: nat, end: nat)
    requires i <= end < i + IDX
    ensures (i % IDX + 1) % IDX == (i + 1) % IDX && (i % IDX == end % IDX <==> i == end)
  {
  }

  /** An index names the same slot before and after it wraps: 8 divides 2^16. */
  lemma SameEntry(i: nat)
    ensures (i % IDX) % NUM == i % NUM
  {
    var k := i / IDX;
    assert i == i % IDX + NUM * (0x2000 * k);
  }

  /** struct disk. */
  class Disk {
    var desc: seq<Desc>
    var free: seq<bool>
    var avail: seq<nat>
    var availIdx: nat
    var used: seq<nat>
    var usedIdx: nat
    var usedSeen: nat
    var info: seq<Info>
    var ops: seq<Op>
    var busy: seq<bool>          // b->disk of the buffers

    ghost function Value(): Driver
      reads this
    {
      Driver(desc, free, avail, availIdx, used, usedIdx, usedSeen, info, ops)
    }

    method AllocDesc() returns (i: int)
      requires Shape(Value())
      modifies this`free
      ensures i == old(FirstFree(free, 0)) && free == if i < 0 then old(free) else old(free)[i := false]
    {
      i := 0;
      while i < NUM
        invariant 0 <= i <= NUM && free == old(free) && FirstFree(free, 0) == FirstFree(free, i)
      {
        if free[i] {
          free := free[i := false];
          return;
        }
        i := i + 1;
      }
      i := -1;
    }

    method FreeDesc(i: nat)
      requires Shape(Value()) && i < NUM && !free[i]
      modifies this`free, this`desc
      ensures Shape(Value()) && free == old(free)[i := true] && desc == old(desc)[i := CLEAR]
    {
      desc := desc[i := CLEAR];
      free := free[i := true];
    }

    /** Neither panic of free_desc() is reached: the links visit the three descriptors once each. */
    method FreeChain(head: nat, ghost d: Three)
      requires Chain(Value(), d) && head == d.d0 && !free[d.d0] && !free[d.d1] && !free[d.d2]
      modifies this`free, this`desc
      ensures desc == old(desc)[d.d0 := CLEAR][d.d1 := CLEAR][d.d2 := CLEAR]
      ensures free == old(free)[d.d0 := true][d.d1 := true][d.d2 := true]
    {
      var i, more := head, true;
      while more
        invariant Shape(Value()) && (more ==> Has(d, i))
        invariant more && i == d.d0 ==> desc == old(desc) && free == old(free)
        invariant more && i == d.d1 ==> desc == old(desc)[d.d0 := CLEAR] && free == old(free)[d.d0 := true]
        invariant more && i == d.d2 ==>
          desc == old(desc)[d.d0 := CLEAR][d.d1 := CLEAR] && free == old(free)[d.d0 := true][d.d1 := true]
        invariant !more ==> desc == old(desc)[d.d0 := CLEAR][d.d1 := CLEAR][d.d2 := CLEAR]
        invariant !more ==> free == old(free)[d.d0 := true][d.d1 := true][d.d2 := true]
        decreases if !more then 0 else if i == d.d0 then 3 else if i == d.d1 then 2 else 1
      {
        var flag, next := desc[i].more, desc[i].next;
        FreeDesc(i);
        if flag { i := next; } else { more := false; }
      }
    }

    method AllocThree() returns (r: Option<Three>)
      requires Shape(Value())
      modifies this`free, this`desc
      ensures r == old(Alloc3(free))
      ensures r.None? ==> Value() == old(GaveBack(Value()))
      ensures r.Some? ==> desc == old(desc) && free == old(free)[r.value.d0 := false][r.value.d1 := false][r.value.d2 := false]
    {
      var idx: seq<nat> := [];
      while |idx| < 3
        invariant Shape(Value()) && |idx| <= 3 && desc == old(desc)
        invariant |idx| >= 1 ==> idx[0] == old(FirstFree(free, 0))
        invariant |idx| >= 2 ==> idx[1] == FirstFree(old(free)[idx[0] := false], 0)
        invariant |idx| == 3 ==> idx[2] == FirstFree(old(free)[idx[0] := false][idx[1] := false], 0)
        invariant free == if |idx| == 0 then old(free) else if |idx| == 1 then old(free)[idx[0] := false]
                          else if |idx| == 2 then old(free)[idx[0] := false][idx[1] := false]
                          else old(free)[idx[0] := false][idx[1] := false][idx[2] := false]
      {
        var i := AllocDesc();
        if i < 0 {
          if |idx| >= 1 { FreeDesc(idx[0]); }
          if |idx| == 2 { FreeDesc(idx[1]); }
          assert free == old(free);
          return None;
        }
        idx := idx + [i];
      }
      r := Some(Three(idx[0], idx[1], idx[2]));
    }

    /** The part of virtio_disk_rw() between the allocation and the available ring. */
    method Fill(b: nat, write: bool, blockno: nat, d: Three)
      requires Shape(Value()) && Spread(d) && b < |busy| && !free[d.d0] && !free[d.d1] && !free[d.d2]
      modifies this`ops, this`desc, this`info, this`busy
      ensures Value() == old(Format(Value(), b, write, blockno, d)) && busy == old(busy)[b := true]
    {
      ops := ops[d.d0 := Op(write, Sector(blockno))];
      desc := desc[d.d0 := Desc(Header(d.d0), 16, true, false, d.d1)];
      desc := desc[d.d1 := Desc(Data(b), FsSpec.BSIZE, true, !write, d.d2)];
      info := info[d.d0 := info[d.d0].(status := 0xff)];
      desc := desc[d.d2 := Desc(Status(d.d0), 1, false, true, 0)];
      busy := busy[b := true];
      info := info[d.d0 := info[d.d0].(b := b)];
    }

    /** virtio_disk_rw() up to the notification of the device, when descriptors can be had. */
    method Submit(b: nat, write: bool, blockno: nat) returns (r: Option<Three>)
      requires Shape(Value()) && b < |busy|
      modifies this
      ensures r == old(Alloc3(free))
      ensures r.None? ==> Value() == old(GaveBack(Value())) && busy == old(busy)
      ensures r.Some? ==> Value() == old(Publish(Format(Value(), b, write, blockno, Alloc3(free).value), Alloc3(free).value.d0))
      ensures r.Some? ==> busy == old(busy)[b := true]
    {
      hide Alloc3, GaveBack;
      r := AllocThree();
      if r.None? { return; }
      Fill(b, write, blockno, r.value);
      avail := avail[availIdx % NUM := r.value.d0];
      availIdx := (availIdx + 1) % IDX;
    }

    /** The loop of virtio_disk_intr(): the buffers of the new entries of the used ring, and no others, are done. */
    method Intr()
      requires Shape(Value())
      requires forall i: nat :: usedSeen <= i < usedSeen + (usedIdx - usedSeen) % IDX ==> EntryOk(Value(), |busy|, i)
      modifies this`usedSeen, this`busy
      ensures usedSeen == usedIdx && |busy| == old(|busy|)
      ensures forall b: nat :: b < |busy| ==>
        busy[b] == (old(busy[b]) && !Reports(Value(), old(usedSeen), old(usedSeen) + (usedIdx - old(usedSeen)) % IDX, b))
    {
      ghost var first, was, v := usedSeen, busy, Value();
      ghost var i, end := first, first + (usedIdx - first) % IDX;
      while usedSeen != usedIdx
        invariant Shape(Value()) && |busy| == |was| && first <= i <= end < first + IDX && usedSeen == i % IDX && usedIdx == end % IDX
        invariant forall b: nat :: b < |busy| ==> busy[b] == (was[b] && !Reports(v, first, i, b))
        decreases end - i
      {
        hide Reports;
        SameEntry(i);
        NextIndex(i, end);
        assert EntryOk(v, |busy|, i);
        forall b: nat | b < |busy| ensures Reports(v, first, i + 1, b) <==> Reports(v, first, i, b) || EntryBuf(v, i) == b {
          ReportsNext(v, first, i, b);
        }
        var id := used[usedSeen % NUM];
        busy := busy[info[id].b := false];
        usedSeen := (usedSeen + 1) % IDX;
        i := i + 1;
      }
      NextIndex(i, end);
      assert forall b: nat :: Reports(Value(), first, end, b) == Reports(v, first, end, b) by {
        assert forall j: nat :: EntryBuf(Value(), j) == EntryBuf(v, j);
      }
    }

    /** The end of virtio_disk_rw(). */
    method Finish(d: Three)
      requires Chain(Value(), d) && !free[d.d0] && !free[d.d1] && !free[d.d2]
      modifies this
      ensures Value() == old(Freed(Value(), d)) && busy == old(busy)
    {
      info := info[d.d0 := info[d.d0].(b := -1)];
      FreeChain(d.d0, d);
    }
  }
}
