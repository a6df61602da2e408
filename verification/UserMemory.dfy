/** The half of kernel/vm.c that copies images and moves bytes in and out of them. */
module UserMemory {
  import opened PageTable
  import opened Images
  import opened Vm

  /** One turn of the loop of uvmcopy(), on the way from mem0; on failure everything is undone. */
  method CopyStep(m: Memory, oldr: nat, newr: nat, i: nat, ghost mem0: seq<Page>, ghost own0: seq<Own>) returns (ok: bool)
    requires m.Valid() && IsRoot(m.own, oldr) && IsRoot(m.own, newr) && newr != oldr && i < TRAPFRAME
    requires TreeOk(mem0, own0) && IsRoot(own0, newr) && Copying(mem0, own0, m.mem, m.own, oldr, newr, i)
    requires forall v: nat :: v < TRAPFRAME ==> !Lookup(mem0, newr, v).v
    modifies m
    ensures m.Valid() && IsRoot(m.own, oldr) && IsRoot(m.own, newr)
    ensures ok ==> Copying(mem0, own0, m.mem, m.own, oldr, newr, i + 1) && |m.free| >= |old(m.free)| - 3
    ensures !ok ==> Built(mem0, own0, m.mem, m.own, newr) && MapsKept(mem0, own0, m.mem, newr, 0, 0)
                    && |old(m.free)| < 3
  {
    var p := m.Walk(oldr, i, false);
    ok := true;
    if p == 0 || !m.mem[p].ptes[i % 512].v {
      CopyingSkip(mem0, own0, m.mem, m.own, oldr, newr, i);
      return;
    }
    var pte := m.mem[p].ptes[i % 512];
    LookupOwned(m.mem, m.own, oldr, i);
    ok := CopyPage(m, oldr, newr, i, pte, mem0, own0);
  }

  /** Copies the page that pte maps at i; on failure everything is undone. */
  method CopyPage(m: Memory, oldr: nat, newr: nat, i: nat, pte: Pte, ghost mem0: seq<Page>, ghost own0: seq<Own>)
    returns (ok: bool)
    requires m.Valid() && IsRoot(m.own, oldr) && IsRoot(m.own, newr) && newr != oldr && i < TRAPFRAME
    requires TreeOk(mem0, own0) && IsRoot(own0, newr) && Copying(mem0, own0, m.mem, m.own, oldr, newr, i)
    requires forall v: nat :: v < TRAPFRAME ==> !Lookup(mem0, newr, v).v
    requires pte == Lookup(m.mem, oldr, i) && pte.v && IsLeaf(pte) && pte.page < |m.mem| && m.mem[pte.page].Bytes?
    modifies m
    ensures m.Valid() && IsRoot(m.own, oldr) && IsRoot(m.own, newr)
    ensures ok ==> Copying(mem0, own0, m.mem, m.own, oldr, newr, i + 1) && |m.free| >= |old(m.free)| - 3
    ensures !ok ==> Built(mem0, own0, m.mem, m.own, newr) && MapsKept(mem0, own0, m.mem, newr, 0, 0)
                    && |old(m.free)| < 3
  {
    ghost var mem1, own1 := m.mem, m.own;
    assert Lookup(m.mem, newr, i) == Lookup(mem0, newr, i);
    var q := m.MapNew(newr, i, m.mem[pte.page].bytes, pte.perm);
    BuiltRoot(mem1, own1, m.mem, m.own, newr, oldr);
    ok := q != 0;
    if ok {
      CopyingNext(mem0, own0, mem1, own1, m.mem, m.own, oldr, newr, i, q);
    } else {
      BuiltTrans(mem0, own0, mem1, own1, m.mem, m.own, newr, 0, i, i);
      ghost var mem2, own2 := m.mem, m.own;
      m.Uvmunmap(newr, 0, i, true);
      RolledBack(mem0, own0, mem2, own2, m.mem, m.own, newr, 0, i);
      BuiltRoot(mem0, own0, m.mem, m.own, newr, newr);
      assert PageUnmapped(mem2[oldr], own2[oldr], m.mem[oldr], m.own[oldr], newr, 0, i);
    }
  }

  /** Copies the image of oldr below sz into the empty image of newr, page by page; pages not allocated
      yet stay so. On failure newr is empty again. */
  method Uvmcopy(m: Memory, oldr: nat, newr: nat, sz: nat) returns (r: int)
    requires m.Valid() && Image(m.mem, m.own, oldr, sz) && IsRoot(m.own, newr) && newr != oldr
    requires forall v: nat :: v < TRAPFRAME ==> !Lookup(m.mem, newr, v).v
    modifies m
    ensures m.Valid() && Built(old(m.mem), old(m.own), m.mem, m.own, newr) && (r == 0 || r == -1)
    ensures r == 0 ==> Copied(m.mem, oldr, newr, Pages(sz))
                       && MapsKept(old(m.mem), old(m.own), m.mem, newr, 0, Pages(sz))
    ensures r == -1 ==> MapsKept(old(m.mem), old(m.own), m.mem, newr, 0, 0) && |old(m.free)| < 3 * Pages(sz)
  {
    ghost var mem0, own0 := m.mem, m.own;
    var i := 0;
    while i * PGSIZE < sz
      invariant 0 <= i <= Pages(sz) && |m.free| + 3 * i >= |old(m.free)|
      invariant m.Valid() && IsRoot(m.own, oldr) && IsRoot(m.own, newr)
      invariant Copying(mem0, own0, m.mem, m.own, oldr, newr, i)
      decreases Pages(sz) - i
    {
      var ok := CopyStep(m, oldr, newr, i, mem0, own0);
      if !ok { return -1; }
      i := i + 1;
    }
    r := 0;
  }

  /** The page behind a user address, or 0. */
  method Walkaddr(m: Memory, root: nat, v: nat) returns (q: nat)
    requires m.Valid() && IsRoot(m.own, root) && TopsGuarded(m.mem, root)
    modifies m
    ensures unchanged(m)
    ensures q != 0 <==> v < TRAPFRAME && Lookup(m.mem, root, v).v && Lookup(m.mem, root, v).perm.u
    ensures q != 0 ==> q == Lookup(m.mem, root, v).page && q < |m.own| && m.own[q].User? && m.own[q].root == root
                       && m.mem[q].Bytes?
  {
    if v >= MAXVPN { return 0; }
    var p := m.Walk(root, v, false);
    if p == 0 || !m.mem[p].ptes[v % 512].v || !m.mem[p].ptes[v % 512].perm.u { return 0; }
    LookupOwned(m.mem, m.own, root, v);
    q := m.mem[p].ptes[v % 512].page;
  }

  /** Allocates the page under va if it lies below psz and is not mapped; the process cannot tell. */
  method Vmfault(m: Memory, root: nat, psz: nat, va: nat) returns (q: nat)
    requires m.Valid() && IsRoot(m.own, root) && psz <= USER_LIMIT
    modifies m
    ensures m.Valid() && IsRoot(m.own, root) && Faulted(old(m.mem), old(m.own), m.mem, m.own, root, psz)
    ensures |m.free| <= |old(m.free)| && (TopsGuarded(old(m.mem), root) ==> TopsGuarded(m.mem, root))
    ensures q != 0 ==> va < psz && Present(m.mem, root, psz, va / PGSIZE, q)
    ensures q == 0 ==> va >= psz || Lookup(old(m.mem), root, va / PGSIZE).v || |m.free| < 3
  {
    if va >= psz { return 0; }
    var a := va / PGSIZE;
    var p := m.Walk(root, a, false);
    if p != 0 && m.mem[p].ptes[a % 512].v { return 0; }
    q := m.MapNew(root, a, Zeroes(), Perm(true, true, false, true));
    if q == 0 {
      NoChangeKeepsCells(old(m.mem), old(m.own), m.mem, m.own, root, psz, a);
    } else {
      FaultKeepsCells(old(m.mem), old(m.own), m.mem, m.own, root, psz, a);
    }
  }

  /** The page at page number v is mapped for the user, so that no fault is needed. */
  predicate Here(mem: seq<Page>, root: nat, v: nat) {
    v < TRAPFRAME && Lookup(mem, root, v).v && Lookup(mem, root, v).perm.u
  }

  /** The page at page number v, faulting it in if need be; 0 if the user has no access or memory is
      short. */
  method UserPage(m: Memory, root: nat, psz: nat, v: nat) returns (q: nat)
    requires m.Valid() && IsRoot(m.own, root) && TopsGuarded(m.mem, root) && psz <= USER_LIMIT
    modifies m
    ensures m.Valid() && IsRoot(m.own, root) && TopsGuarded(m.mem, root)
    ensures Faulted(old(m.mem), old(m.own), m.mem, m.own, root, psz)
    ensures q != 0 ==> Present(m.mem, root, psz, v, q)
    ensures q == 0 ==> !PageReadable(m.mem, root, psz, v) || |m.free| < 3
    ensures Here(old(m.mem), root, v) ==> unchanged(m) && q != 0
  {
    q := Walkaddr(m, root, v);
    if q == 0 {
      assert v * PGSIZE / PGSIZE == v;
      q := Vmfault(m, root, psz, v * PGSIZE);
    }
  }

  /** The n addresses from va on are mapped for the user. */
  ghost predicate AllHere(mem: seq<Page>, root: nat, va: nat, n: nat) {
    forall a: nat :: va <= a < va + n ==> Here(mem, root, a / PGSIZE)
  }

  /** Copies len bytes from user address srcva. */
  method Copyin(m: Memory, root: nat, psz: nat, srcva: nat, len: nat) returns (r: int, dst: seq<byte>)
    requires m.Valid() && IsRoot(m.own, root) && TopsGuarded(m.mem, root) && psz <= USER_LIMIT
    modifies m
    ensures m.Valid() && Faulted(old(m.mem), old(m.own), m.mem, m.own, root, psz) && (r == 0 || r == -1)
    ensures r == 0 ==> |dst| == len && ReadsAs(old(m.mem), root, psz, srcva, dst)
    ensures r == -1 ==> |m.free| < 3 || exists a: nat :: srcva <= a < srcva + len && !Readable(old(m.mem), root, psz, a)
    ensures AllHere(old(m.mem), root, srcva, len) ==> r == 0 && unchanged(m)
  {
    dst := [];
    while |dst| < len
      invariant |dst| <= len && m.Valid() && IsRoot(m.own, root) && TopsGuarded(m.mem, root)
      invariant Faulted(old(m.mem), old(m.own), m.mem, m.own, root, psz) && ReadsAs(old(m.mem), root, psz, srcva, dst)
      invariant AllHere(old(m.mem), root, srcva, len) ==> unchanged(m)
    {
      var va := srcva + |dst|;
      var v, off := va / PGSIZE, va % PGSIZE;
      ghost var mem1, own1 := m.mem, m.own;
      var q := UserPage(m, root, psz, v);
      FaultedTrans(old(m.mem), old(m.own), mem1, own1, m.mem, m.own, root, psz);
      if q == 0 {
        assert |m.free| >= 3 ==> !Readable(old(m.mem), root, psz, va);
        return -1, dst;
      }
      var n := if PGSIZE - off > len - |dst| then len - |dst| else PGSIZE - off;
      ReadNext(old(m.mem), m.mem, root, psz, srcva, dst, v, off, n, q);
      dst := dst + m.mem[q].bytes[off..off + n];
    }
    r := 0;
  }

  /** The state after d bytes of src went out to va, starting from mem0. */
  ghost predicate Sent(mem0: seq<Page>, own0: seq<Own>, mem: seq<Page>, own: seq<Own>, root: nat, sz: nat,
                       va: nat, src: seq<byte>, d: nat)
  {
    && d <= |src| && Private(mem0, own0, mem, own, root) && Wrote(mem0, mem, root, sz, va, src, d)
    && (forall a: nat :: va <= a < va + d ==> Writable(mem0, root, sz, a))
  }

  lemma SameAccess(mem0: seq<Page>, mem: seq<Page>, root: nat, sz: nat, va: nat, src: seq<byte>, d: nat, v: nat)
    requires d <= |src| && Wrote(mem0, mem, root, sz, va, src, d)
    ensures PageReadable(mem, root, sz, v) == PageReadable(mem0, root, sz, v)
    ensures PageWritable(mem, root, sz, v) == PageWritable(mem0, root, sz, v)
  {
    if v < TRAPFRAME { assert CellWritten(CellOf(mem0, root, sz, v), CellOf(mem, root, sz, v), v, va, src, d); }
  }

  lemma SentAccess(mem0: seq<Page>, own0: seq<Own>, mem: seq<Page>, own: seq<Own>, root: nat, sz: nat, va: nat,
                   src: seq<byte>, d: nat, v: nat)
    requires Sent(mem0, own0, mem, own, root, sz, va, src, d) && v == (va + d) / PGSIZE
    ensures PageWritable(mem, root, sz, v) == Writable(mem0, root, sz, va + d)
  {
    SameAccess(mem0, mem, root, sz, va, src, d, v);
  }

  lemma SentNothing(mem: seq<Page>, own: seq<Own>, root: nat, sz: nat, va: nat, src: seq<byte>)
    requires |mem| == |own|
    ensures Sent(mem, own, mem, own, root, sz, va, src, 0)
  {
    forall v: nat | v < TRAPFRAME ensures CellWritten(CellOf(mem, root, sz, v), CellOf(mem, root, sz, v), v, va, src, 0) {
    }
  }

  lemma SentFaulted(mem0: seq<Page>, own0: seq<Own>, mem1: seq<Page>, own1: seq<Own>, mem2: seq<Page>, own2: seq<Own>,
                    root: nat, sz: nat, va: nat, src: seq<byte>, d: nat)
    requires Sent(mem0, own0, mem1, own1, root, sz, va, src, d) && Faulted(mem1, own1, mem2, own2, root, sz)
    ensures Sent(mem0, own0, mem2, own2, root, sz, va, src, d)
  {
    WroteFaulted(mem0, own0, mem1, own1, mem2, own2, root, sz, va, src, d);
  }

  lemma SentNext(mem0: seq<Page>, own0: seq<Own>, mem: seq<Page>, own: seq<Own>, root: nat, sz: nat,
                 va: nat, src: seq<byte>, d: nat, v: nat, off: nat, n: nat, q: nat)
    requires TreeOk(mem, own) && IsRoot(own, root) && Sent(mem0, own0, mem, own, root, sz, va, src, d)
    requires va + d == v * PGSIZE + off && 0 < n <= PGSIZE - off && d + n <= |src|
    requires Present(mem, root, sz, v, q) && Lookup(mem, root, v).perm.w
    ensures own[q].User? && own[q].root == root
    ensures Sent(mem0, own0, mem[q := Bytes(Put(mem[q].bytes, off, src[d..d + n]))], own, root, sz, va, src, d + n)
  {
    WroteNext(mem0, mem, own, root, sz, va, src, d, v, off, n, q);
    var mem2 := mem[q := Bytes(Put(mem[q].bytes, off, src[d..d + n]))];
    assert CellWritten(CellOf(mem0, root, sz, v), CellOf(mem, root, sz, v), v, va, src, d);
    forall a: nat | va + d <= a < va + d + n ensures Writable(mem0, root, sz, a) { assert a / PGSIZE == v; }
    forall x: nat | 0 < x < |own0| ensures PagePrivate(mem0[x], own0[x], mem2[x], own[x], root) {
      assert PagePrivate(mem0[x], own0[x], mem[x], own[x], root);
    }
  }

  /** memmove() of n bytes of src into page q, which is at page number v. */
  method SendChunk(m: Memory, root: nat, psz: nat, dstva: nat, src: seq<byte>, d: nat, v: nat, off: nat, n: nat, q: nat,
                   ghost mem0: seq<Page>, ghost own0: seq<Own>)
    requires m.Valid() && IsRoot(m.own, root) && TopsGuarded(m.mem, root)
    requires Sent(mem0, own0, m.mem, m.own, root, psz, dstva, src, d) && dstva + d == v * PGSIZE + off
    requires 0 < n <= PGSIZE - off && d + n <= |src|
    requires Present(m.mem, root, psz, v, q) && Lookup(m.mem, root, v).perm.w
    modifies m
    ensures m.Valid() && IsRoot(m.own, root) && TopsGuarded(m.mem, root)
    ensures Sent(mem0, own0, m.mem, m.own, root, psz, dstva, src, d + n)
    ensures m.free == old(m.free) && forall x: nat :: x < TRAPFRAME ==> Lookup(m.mem, root, x) == Lookup(old(m.mem), root, x)
  {
    SentNext(mem0, own0, m.mem, m.own, root, psz, dstva, src, d, v, off, n, q);
    ghost var mem1 := m.mem;
    m.Store(q, Put(m.mem[q].bytes, off, src[d..d + n]));
    assert Lookup(m.mem, root, TRAMPOLINE) == Lookup(mem1, root, TRAMPOLINE);
    assert Lookup(m.mem, root, TRAPFRAME) == Lookup(mem1, root, TRAPFRAME);
  }

  /** One turn of the loop of copyout(): writes up to the end of the page. Returns the number of bytes, 0
      if the page may not be written or cannot be brought in. */
  method CopyoutStep(m: Memory, root: nat, psz: nat, dstva: nat, src: seq<byte>, d: nat, v: nat, off: nat,
                     ghost mem0: seq<Page>, ghost own0: seq<Own>) returns (n: nat)
    requires m.Valid() && IsRoot(m.own, root) && TopsGuarded(m.mem, root) && psz <= USER_LIMIT && d < |src|
    requires Sent(mem0, own0, m.mem, m.own, root, psz, dstva, src, d) && dstva + d == v * PGSIZE + off && off < PGSIZE
    modifies m
    ensures m.Valid() && IsRoot(m.own, root) && TopsGuarded(m.mem, root)
    ensures d + n <= |src| && Sent(mem0, own0, m.mem, m.own, root, psz, dstva, src, d + n)
    ensures n == 0 ==> |m.free| < 3 || !PageWritable(m.mem, root, psz, v)
    ensures Here(old(m.mem), root, v) ==>
      && m.free == old(m.free)
      && (forall x: nat :: x < TRAPFRAME ==> Lookup(m.mem, root, x) == Lookup(old(m.mem), root, x))
      && (n == 0 ==> !Lookup(m.mem, root, v).perm.w)
  {
    hide TreeOk, FreeListOk, Sent, TopsGuarded, IsRoot, Faulted;
    if v >= MAXVPN { return 0; }
    ghost var mem1, own1 := m.mem, m.own;
    var q := UserPage(m, root, psz, v);
    SentFaulted(mem0, own0, mem1, own1, m.mem, m.own, root, psz, dstva, src, d);
    if q == 0 { return 0; }
    var p := m.Walk(root, v, false);
    if !m.mem[p].ptes[v % 512].perm.w { return 0; }
    n := if PGSIZE - off > |src| - d then |src| - d else PGSIZE - off;
    SendChunk(m, root, psz, dstva, src, d, v, off, n, q, mem0, own0);
  }

  /** The n addresses from va on are mapped for the user to write. */
  ghost predicate AllOpen(mem: seq<Page>, root: nat, va: nat, n: nat) {
    forall a: nat :: va <= a < va + n ==> OpenAt(mem, root, a)
  }

  ghost predicate OpenAt(mem: seq<Page>, root: nat, a: nat) {
    Here(mem, root, a / PGSIZE) && Lookup(mem, root, a / PGSIZE).perm.w
  }

  /** The loop of copyout(). */
  method CopyoutLoop(m: Memory, root: nat, psz: nat, dstva: nat, src: seq<byte>, ghost mem0: seq<Page>, ghost own0: seq<Own>)
    returns (done: nat)
    requires m.Valid() && IsRoot(m.own, root) && TopsGuarded(m.mem, root) && psz <= USER_LIMIT
    requires Sent(mem0, own0, m.mem, m.own, root, psz, dstva, src, 0)
    modifies m
    ensures m.Valid() && IsRoot(m.own, root) && TopsGuarded(m.mem, root)
    ensures done <= |src| && Sent(mem0, own0, m.mem, m.own, root, psz, dstva, src, done)
    ensures done < |src| ==> |m.free| < 3 || !PageWritable(m.mem, root, psz, (dstva + done) / PGSIZE)
    ensures AllOpen(old(m.mem), root, dstva, |src|) ==>
      && m.free == old(m.free) && done == |src|
      && forall x: nat :: x < TRAPFRAME ==> Lookup(m.mem, root, x) == Lookup(old(m.mem), root, x)
  {
    hide TreeOk, FreeListOk, Sent, PageWritable, TopsGuarded, IsRoot;
    done := 0;
    ghost var mem1 := m.mem;
    while done < |src|
      invariant done <= |src| && m.Valid() && IsRoot(m.own, root) && TopsGuarded(m.mem, root)
      invariant AllOpen(mem1, root, dstva, |src|) ==>
        && m.free == old(m.free)
        && forall x: nat :: x < TRAPFRAME ==> Lookup(m.mem, root, x) == Lookup(mem1, root, x)
      invariant Sent(mem0, own0, m.mem, m.own, root, psz, dstva, src, done)
    {
      var va := dstva + done;
      assert AllOpen(mem1, root, dstva, |src|) ==> OpenAt(mem1, root, va);
      var n := CopyoutStep(m, root, psz, dstva, src, done, va / PGSIZE, va % PGSIZE, mem0, own0);
      if n == 0 { return; }
      done := done + n;
    }
  }

  /** Copies src to user address dstva. On failure the first `done` bytes are written. */
  method Copyout(m: Memory, root: nat, psz: nat, dstva: nat, src: seq<byte>) returns (r: int, ghost done: nat)
    requires m.Valid() && IsRoot(m.own, root) && TopsGuarded(m.mem, root) && psz <= USER_LIMIT
    modifies m
    ensures m.Valid() && IsRoot(m.own, root) && TopsGuarded(m.mem, root) && (r == 0 || r == -1)
    ensures Sent(old(m.mem), old(m.own), m.mem, m.own, root, psz, dstva, src, done)
    ensures r == 0 <==> done == |src|
    ensures r == -1 ==> |m.free| < 3 || !Writable(old(m.mem), root, psz, dstva + done)
    ensures AllOpen(old(m.mem), root, dstva, |src|) ==>
      && r == 0 && m.free == old(m.free)
      && forall x: nat :: x < TRAPFRAME ==> Lookup(m.mem, root, x) == Lookup(old(m.mem), root, x)
  {
    ghost var mem0, own0 := m.mem, m.own;
    SentNothing(mem0, own0, root, psz, dstva, src);
    hide TreeOk, FreeListOk, Sent, PageWritable, TopsGuarded, IsRoot;
    var d := CopyoutLoop(m, root, psz, dstva, src, mem0, own0);
    SentAccess(mem0, own0, m.mem, m.own, root, psz, dstva, src, d, (dstva + d) / PGSIZE);
    r, done := if d == |src| then 0 else -1, d;
  }
}
