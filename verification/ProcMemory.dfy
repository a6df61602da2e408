/** The memory side of processes: growproc and kfork of kernel/proc.c, sys_sbrk of
    kernel/sysproc.c and kexec of kernel/exec.c. */
module ProcMemory {
  import opened PageTable
  import opened Images
  import opened Vm
  import opened UserMemory

  /** The fields of struct proc that concern memory. */
  class Proc {
    var pagetable: nat
    var sz: nat
    var trapframe: nat

    constructor (root: nat, sz: nat, trapframe: nat)
      ensures this.pagetable == root && this.sz == sz && this.trapframe == trapframe
    {
      this.pagetable, this.sz, this.trapframe := root, sz, trapframe;
    }
  }

  /** The trapframe of the process is mapped below the trampoline, and the user can reach neither. */
  ghost predicate TopsAt(mem: seq<Page>, root: nat, tf: nat) {
    TopsGuarded(mem, root) && Lookup(mem, root, TRAPFRAME) == Pte(true, tf, TRAPFRAME_PERM)
  }

  ghost predicate ProcOk(m: Memory, p: Proc)
    reads m, p
  {
    && m.Valid() && Image(m.mem, m.own, p.pagetable, p.sz) && TopsAt(m.mem, p.pagetable, p.trapframe)
    && 0 < p.trapframe < |m.own| && m.own[p.trapframe].Kernel?
  }

  /** An eagerly grown image looks like the old tables at the new size: a lazily grown one. */
  lemma EagerIsLazy(mem0: seq<Page>, own0: seq<Own>, mem1: seq<Page>, own1: seq<Own>, root: nat, sz: nat, newsz: nat)
    requires TreeOk(mem0, own0) && Image(mem0, own0, root, sz) && sz <= newsz <= USER_LIMIT
    requires Grew(mem0, own0, mem1, own1, root, Pages(sz), Pages(newsz), LAZY_PERM)
    ensures CellsKept(mem0, mem1, root, newsz) && Image(mem1, own1, root, newsz)
    ensures TopsSame(mem0, mem1, root)
  {
    BuiltRoot(mem0, own0, mem1, own1, root, root);
    forall v: nat | v < TRAPFRAME
      ensures CellOf(mem1, root, newsz, v) == CellOf(mem0, root, newsz, v)
      ensures Lookup(mem1, root, v).v ==> v < Pages(newsz)
    {
      if Lookup(mem0, root, v).v { UserKept(mem0, own0, mem1, own1, root, root, v); }
    }
  }

  /** Shrinking cuts the image off at the page boundary and keeps what is below. */
  lemma Shrunk(mem0: seq<Page>, own0: seq<Own>, mem1: seq<Page>, own1: seq<Own>, root: nat, sz: nat, newsz: nat)
    requires TreeOk(mem0, own0) && Image(mem0, own0, root, sz) && newsz <= sz
    requires Unmapped(mem0, own0, mem1, own1, root, Pages(newsz), Pages(sz))
    ensures Image(mem1, own1, root, newsz)
    ensures forall v: nat :: v < TRAPFRAME ==>
      CellOf(mem1, root, newsz, v) == if v < Pages(newsz) then CellOf(mem0, root, sz, v) else NoCell
  {
    assert PageUnmapped(mem0[root], own0[root], mem1[root], own1[root], root, Pages(newsz), Pages(sz));
    forall v: nat | v < TRAPFRAME
      ensures CellOf(mem1, root, newsz, v) == if v < Pages(newsz) then CellOf(mem0, root, sz, v) else NoCell
      ensures Lookup(mem1, root, v).v ==> v < Pages(newsz)
    {
      if Lookup(mem0, root, v).v {
        LookupOwned(mem0, own0, root, v);
        var q := Lookup(mem0, root, v).page;
        assert PageUnmapped(mem0[q], own0[q], mem1[q], own1[q], root, Pages(newsz), Pages(sz));
      }
    }
  }

  const WRAP: int := 0x1_0000_0000_0000_0000      // 2^64: sizes are uint64

  /** The image at size newsz: the pages below it as they were, nothing above. */
  ghost predicate CutTo(mem0: seq<Page>, mem1: seq<Page>, root: nat, sz: nat, newsz: nat) {
    forall v: nat :: v < TRAPFRAME ==>
      CellOf(mem1, root, newsz, v) == if v < Pages(newsz) then CellOf(mem0, root, sz, v) else NoCell
  }

  /** growproc() with n > 0. */
  method Grow(m: Memory, p: Proc, n: nat) returns (r: int)
    requires ProcOk(m, p) && n > 0
    modifies m, p`sz
    ensures ProcOk(m, p) && (r == 0 || r == -1) && Only(old(m.mem), old(m.own), m.mem, m.own, p.pagetable)
    ensures p.sz == if r == 0 then old(p.sz) + n else old(p.sz)
    ensures CellsKept(old(m.mem), m.mem, p.pagetable, p.sz)
    ensures r == -1 ==> old(p.sz) + n > USER_LIMIT || |old(m.free)| < 3 * (Pages(old(p.sz) + n) - Pages(old(p.sz)))
  {
    ghost var mem0, own0 := m.mem, m.own;
    var sz := p.sz;
    if sz + n > USER_LIMIT { return -1; }
    sz := m.Uvmalloc(p.pagetable, sz, sz + n, Perm(true, true, false, true));
    BuiltPrivate(mem0, own0, m.mem, m.own, p.pagetable);
    PrivateOnly(mem0, own0, m.mem, m.own, p.pagetable);
    assert PageMine(mem0[p.trapframe], own0[p.trapframe], m.mem[p.trapframe], m.own[p.trapframe], p.pagetable);
    if sz == 0 {
      NoChangeKeepsCells(mem0, own0, m.mem, m.own, p.pagetable, p.sz, 0);
      return -1;
    }
    EagerIsLazy(mem0, own0, m.mem, m.own, p.pagetable, p.sz, sz);
    p.sz := sz;
    r := 0;
  }

  /** growproc() with n < 0: cuts -n bytes off; asked for more than there are, it does nothing. */
  method Shrink(m: Memory, p: Proc, n: int)
    requires ProcOk(m, p) && -0x8000_0000 <= n < 0
    modifies m, p`sz
    ensures ProcOk(m, p) && Only(old(m.mem), old(m.own), m.mem, m.own, p.pagetable)
    ensures -n <= old(p.sz) ==> p.sz == old(p.sz) + n && CutTo(old(m.mem), m.mem, p.pagetable, old(p.sz), p.sz)
    ensures -n > old(p.sz) ==> p.sz == old(p.sz) && unchanged(m)
  {
    ghost var mem0, own0 := m.mem, m.own;
    var newsz := if p.sz + n < 0 then p.sz + n + WRAP else p.sz + n;
    var sz := m.Uvmdealloc(p.pagetable, p.sz, newsz);
    ShrinkStep(mem0, own0, m.mem, m.own, p.pagetable, p.sz, newsz);
    assert PageMine(mem0[p.trapframe], own0[p.trapframe], m.mem[p.trapframe], m.own[p.trapframe], p.pagetable);
    p.sz := sz;
  }

  lemma ShrinkStep(mem0: seq<Page>, own0: seq<Own>, mem1: seq<Page>, own1: seq<Own>, root: nat, sz: nat, newsz: nat)
    requires TreeOk(mem0, own0) && Image(mem0, own0, root, sz)
    requires Pages(newsz) < Pages(sz) && newsz < sz ==> Unmapped(mem0, own0, mem1, own1, root, Pages(newsz), Pages(sz))
    requires !(Pages(newsz) < Pages(sz) && newsz < sz) ==> mem1 == mem0 && own1 == own0
    ensures Only(mem0, own0, mem1, own1, root) && TopsSame(mem0, mem1, root)
    ensures Image(mem1, own1, root, if newsz < sz then newsz else sz)
    ensures newsz < sz ==> CutTo(mem0, mem1, root, sz, newsz)
  {
    if Pages(newsz) < Pages(sz) && newsz < sz {
      UnmappedOnly(mem0, own0, mem1, own1, root, Pages(newsz), Pages(sz));
      Shrunk(mem0, own0, mem1, own1, root, sz, newsz);
    }
  }

  /** Grows or shrinks by n bytes. */
  method Growproc(m: Memory, p: Proc, n: int) returns (r: int)
    requires ProcOk(m, p) && -0x8000_0000 <= n < 0x8000_0000
    modifies m, p`sz
    ensures ProcOk(m, p) && (r == 0 || r == -1) && Only(old(m.mem), old(m.own), m.mem, m.own, p.pagetable)
    ensures n >= 0 ==> p.sz == (if r == 0 then old(p.sz) + n else old(p.sz))
                       && CellsKept(old(m.mem), m.mem, p.pagetable, p.sz)
    ensures n < 0 && -n <= old(p.sz) ==>
      p.sz == old(p.sz) + n && CutTo(old(m.mem), m.mem, p.pagetable, old(p.sz), p.sz)
    ensures n < 0 && -n > old(p.sz) ==> p.sz == old(p.sz) && unchanged(m)
    ensures r == -1 ==> n > 0 && (old(p.sz) + n > USER_LIMIT
                                  || |old(m.free)| < 3 * (Pages(old(p.sz) + n) - Pages(old(p.sz))))
  {
    r := 0;
    if n > 0 {
      r := Grow(m, p, n);
    } else if n < 0 {
      Shrink(m, p, n);
    }
  }

  /** What sys_sbrk() did to a process of sz0 bytes with `free` pages left: growing keeps what it sees, shrinking cuts it off
      unless asked for more than there is; -1 only if the new size is too large or, growing eagerly, memory may be short. */
  ghost predicate Sbrked(mem0: seq<Page>, mem1: seq<Page>, root: nat, sz0: nat, sz1: nat, free: nat, n: int, eager: bool, addr: int) {
    && (addr == sz0 || addr == -1)
    && (addr == -1 ==> n > 0 && (sz0 + n > USER_LIMIT || (eager && free < 3 * (Pages(sz0 + n) - Pages(sz0)))))
    && (n >= 0 ==> sz1 == (if addr >= 0 then sz0 + n else sz0) <= USER_LIMIT && CellsKept(mem0, mem1, root, sz1))
    && (n < 0 && -n <= sz0 ==> sz1 == sz0 + n && CutTo(mem0, mem1, root, sz0, sz1))
    && (n < 0 && -n > sz0 ==> sz1 == sz0 && mem1 == mem0)
  }

  /** sys_sbrk(): the old size, or -1. Lazy growth only moves sz. */
  method Sbrk(m: Memory, p: Proc, n: int, eager: bool) returns (addr: int)
    requires ProcOk(m, p) && -0x8000_0000 <= n < 0x8000_0000
    modifies m, p`sz
    ensures ProcOk(m, p) && Only(old(m.mem), old(m.own), m.mem, m.own, p.pagetable)
    ensures Sbrked(old(m.mem), m.mem, p.pagetable, old(p.sz), p.sz, |old(m.free)|, n, eager, addr)
    ensures n >= 0 && !eager ==> unchanged(m)
    ensures n < 0 && -n > old(p.sz) ==> unchanged(m)
  {
    addr := p.sz;
    if eager || n < 0 {
      var r := Growproc(m, p, n);
      if r < 0 { return -1; }
    } else {
      if addr + n > USER_LIMIT { return -1; }
      p.sz := p.sz + n;
    }
  }

  /** No physical page is mapped twice, in one page table or in two. */
  lemma OneMapping(mem: seq<Page>, own: seq<Own>, r1: nat, v1: nat, r2: nat, v2: nat)
    requires TreeOk(mem, own) && IsRoot(own, r1) && IsRoot(own, r2) && v1 < TRAPFRAME && v2 < TRAPFRAME
    requires Lookup(mem, r1, v1).v && Lookup(mem, r2, v2).v && Lookup(mem, r1, v1).page == Lookup(mem, r2, v2).page
    ensures r1 == r2 && v1 == v2
  {
    LookupOwned(mem, own, r1, v1);
    LookupOwned(mem, own, r2, v2);
  }

  /** A process being created owns one kernel page, its trapframe, and what its page table took. */
  ghost predicate Born(mem0: seq<Page>, own0: seq<Own>, mem1: seq<Page>, own1: seq<Own>, root: nat, tf: nat) {
    && |mem0| == |own0| == |mem1| == |own1| && 0 < tf < |own0| && own0[tf].Free? && own1[tf].Kernel?
    && forall q: nat :: 0 < q < |own0| && q != tf ==> PageBuilt(mem0[q], own0[q], mem1[q], own1[q], root)
  }

  lemma BornBuilt(mem0: seq<Page>, own0: seq<Own>, mem1: seq<Page>, own1: seq<Own>, mem2: seq<Page>, own2: seq<Own>,
                  root: nat, tf: nat)
    requires |mem0| == |own0| && 0 < tf < |own0| && own0[tf].Free?
    requires mem1 == mem0[tf := Junk] && own1 == own0[tf := Kernel] && Built(mem1, own1, mem2, own2, root)
    ensures Born(mem0, own0, mem2, own2, root, tf)
  {
    assert PageBuilt(mem1[tf], own1[tf], mem2[tf], own2[tf], root);
    forall q: nat | 0 < q < |own0| && q != tf ensures PageBuilt(mem0[q], own0[q], mem2[q], own2[q], root) {
      assert PageBuilt(mem1[q], own1[q], mem2[q], own2[q], root);
    }
  }

  lemma BornStep(mem0: seq<Page>, own0: seq<Own>, mem1: seq<Page>, own1: seq<Own>, mem2: seq<Page>, own2: seq<Own>,
                 root: nat, tf: nat)
    requires Born(mem0, own0, mem1, own1, root, tf) && Built(mem1, own1, mem2, own2, root)
    ensures Born(mem0, own0, mem2, own2, root, tf)
  {
    assert PageBuilt(mem1[tf], own1[tf], mem2[tf], own2[tf], root);
    forall q: nat | 0 < q < |own0| && q != tf ensures PageBuilt(mem0[q], own0[q], mem2[q], own2[q], root) {
      assert PageBuilt(mem0[q], own0[q], mem1[q], own1[q], root);
      assert PageBuilt(mem1[q], own1[q], mem2[q], own2[q], root);
    }
  }

  /** Giving back the trapframe and the page table undoes a birth. */
  lemma Unborn(mem0: seq<Page>, own0: seq<Own>, mem1: seq<Page>, own1: seq<Own>, mem2: seq<Page>, own2: seq<Own>,
               mem3: seq<Page>, own3: seq<Own>, root: nat, tf: nat, h: nat, c: Page)
    requires TreeOk(mem0, own0) && Born(mem0, own0, mem1, own1, root, tf) && 0 < root < |own0| && own0[root].Free?
    requires mem2 == mem1[tf := c] && own2 == own1[tf := Free(h)] && Destroyed(mem2, own2, mem3, own3, root)
    ensures Restored(mem0, own0, mem3, own3)
  {
    forall q: nat | 0 < q < |own0| ensures PageRestored(mem0[q], own0[q], mem3[q], own3[q]) {
      assert PageDestroyed(mem2[q], own2[q], mem3[q], own3[q], root);
      if q != tf { assert PageBuilt(mem0[q], own0[q], mem1[q], own1[q], root); }
      if OfRoot(own0[q], root) { NoOrphans(mem0, own0, root, q); }
    }
  }

  /** The memory half of allocproc(): a trapframe and a page table with only the two top pages, or (0, 0)
      and every page back. */
  method AllocImage(m: Memory, trampoline: nat) returns (tf: nat, root: nat)
    requires m.Valid()
    modifies m
    ensures m.Valid() && (root == 0 ==> tf == 0 && Restored(old(m.mem), old(m.own), m.mem, m.own) && |old(m.free)| < 6)
    ensures root != 0 ==> |m.free| + 6 >= |old(m.free)| && Born(old(m.mem), old(m.own), m.mem, m.own, root, tf) && IsRoot(m.own, root)
                          && old(m.own)[root].Free? && Blank(m.mem, root, trampoline, tf)
  {
    ghost var mem0, own0 := m.mem, m.own;
    tf := m.Kalloc();
    if tf == 0 { return 0, 0; }
    ghost var mem1, own1 := m.mem, m.own;
    root := m.ProcPagetable(trampoline, tf);
    if root == 0 {
      assert PageRestored(mem1[tf], own1[tf], m.mem[tf], m.own[tf]);
      ghost var mem2, own2 := m.mem, m.own;
      LooseChange(m.mem, m.own, tf, Free(|m.free|), Run(m.freelist));
      m.Kfree(tf);
      NotBorn(mem0, own0, mem1, own1, mem2, own2, m.mem, m.own, tf, |m.free| - 1, m.mem[tf]);
      return 0, 0;
    }
    BornBuilt(mem0, own0, mem1, own1, m.mem, m.own, root, tf);
  }

  lemma NotBorn(mem0: seq<Page>, own0: seq<Own>, mem1: seq<Page>, own1: seq<Own>, mem2: seq<Page>, own2: seq<Own>,
                mem3: seq<Page>, own3: seq<Own>, tf: nat, h: nat, c: Page)
    requires |mem0| == |own0| && 0 < tf < |own0| && own0[tf].Free?
    requires mem1 == mem0[tf := Junk] && own1 == own0[tf := Kernel] && Restored(mem1, own1, mem2, own2)
    requires mem3 == mem2[tf := c] && own3 == own2[tf := Free(h)]
    ensures Restored(mem0, own0, mem3, own3)
  {
    forall q: nat | 0 < q < |own0| ensures PageRestored(mem0[q], own0[q], mem3[q], own3[q]) {
      assert PageRestored(mem1[q], own1[q], mem2[q], own2[q]);
    }
  }

  lemma SameImage(mem0: seq<Page>, own0: seq<Own>, mem1: seq<Page>, own1: seq<Own>, r: nat, sz: nat)
    requires SameMaps(mem0, own0, mem1) && IsRoot(own0, r) && IsRoot(own1, r)
    ensures Image(mem0, own0, r, sz) <==> Image(mem1, own1, r, sz)
    ensures TopsSame(mem0, mem1, r)
  {
    forall v: nat | v < MAXVPN ensures Lookup(mem1, r, v) == Lookup(mem0, r, v) { }
    assert Lookup(mem1, r, TRAMPOLINE) == Lookup(mem0, r, TRAMPOLINE);
    assert Lookup(mem1, r, TRAPFRAME) == Lookup(mem0, r, TRAPFRAME);
  }

  /** The memory half of freeproc(), for a process with a trapframe and a page table. The trapframe goes
      first, while the page table still maps it. */
  method FreeImage(m: Memory, tf: nat, root: nat, sz: nat)
    requires m.Valid() && Image(m.mem, m.own, root, sz) && 0 < tf < |m.own| && m.own[tf].Kernel?
    modifies m
    ensures m.Valid()
    ensures Destroyed(old(m.mem)[tf := Run(old(m.freelist))], old(m.own)[tf := Free(|old(m.free)|)], m.mem, m.own, root)
  {
    LooseChange(m.mem, m.own, tf, Free(|m.free|), Run(m.freelist));
    m.Kfree(tf);
    SameImage(old(m.mem), old(m.own), m.mem, m.own, root, sz);
    m.ProcFreepagetable(root, sz);
  }

  /** The memory half of kfork(): the child sees what the parent sees and shares no page with it; if
      memory runs out, the free pages are the same as before and nothing else has changed. */
  method Fork(m: Memory, p: Proc, trampoline: nat) returns (child: Proc?)
    requires ProcOk(m, p)
    modifies m
    ensures ProcOk(m, p) && CellsKept(old(m.mem), m.mem, p.pagetable, p.sz)
    ensures child == null ==> Restored(old(m.mem), old(m.own), m.mem, m.own) && |old(m.free)| < 6 + 3 * Pages(p.sz)
    ensures child != null ==>
      && fresh(child) && ProcOk(m, child) && child.sz == p.sz && child.pagetable != p.pagetable
      && 0 < child.pagetable < |old(m.own)| && old(m.own)[child.pagetable].Free?
      && Born(old(m.mem), old(m.own), m.mem, m.own, child.pagetable, child.trapframe)
      && (forall v: nat :: v < TRAPFRAME ==>
            CellOf(m.mem, child.pagetable, child.sz, v) == CellOf(old(m.mem), p.pagetable, p.sz, v))
  {
    ghost var mem0, own0 := m.mem, m.own;
    var tf, root := AllocImage(m, trampoline);
    if root == 0 {
      RestoredKeeps(mem0, own0, m.mem, m.own, p.pagetable, p.sz);
      return null;
    }
    BornKeeps(mem0, own0, m.mem, m.own, root, tf, p.pagetable, p.sz);
    ghost var mem1, own1 := m.mem, m.own;
    var r := Uvmcopy(m, p.pagetable, root, p.sz);
    BornStep(mem0, own0, mem1, own1, m.mem, m.own, root, tf);
    BornKeeps(mem0, own0, m.mem, m.own, root, tf, p.pagetable, p.sz);
    BuiltRoot(mem1, own1, m.mem, m.own, root, root);
    if r < 0 {
      ghost var mem2, own2 := m.mem, m.own;
      ghost var h, c := |m.free|, Run(m.freelist);
      FreeImage(m, tf, root, 0);
      Unborn(mem0, own0, mem2, own2, mem2[tf := c], own2[tf := Free(h)], m.mem, m.own, root, tf, h, c);
      RestoredKeeps(mem0, own0, m.mem, m.own, p.pagetable, p.sz);
      return null;
    }
    ChildImage(mem0, own0, mem1, own1, m.mem, m.own, p.pagetable, root, p.sz, trampoline, tf);
    child := new Proc(root, p.sz, tf);
  }

  /** Pages of a process that already exists keep their owners and contents. */
  lemma RestoredKeeps(mem0: seq<Page>, own0: seq<Own>, mem1: seq<Page>, own1: seq<Own>, r: nat, sz: nat)
    requires TreeOk(mem0, own0) && TreeOk(mem1, own1) && IsRoot(own0, r) && Restored(mem0, own0, mem1, own1)
    ensures IsRoot(own1, r) && CellsKept(mem0, mem1, r, sz) && (Image(mem0, own0, r, sz) ==> Image(mem1, own1, r, sz))
    ensures TopsSame(mem0, mem1, r)
    ensures forall q: nat :: 0 < q < |own0| && own0[q].Kernel? ==> own1[q].Kernel?
  {
    forall q: nat | 0 < q < |own0| ensures PageMine(mem0[q], own0[q], mem1[q], own1[q], 0)
      ensures own0[q].Kernel? ==> own1[q].Kernel?
    {
      assert PageRestored(mem0[q], own0[q], mem1[q], own1[q]);
      if OfRoot(own0[q], 0) { NoOrphans(mem0, own0, 0, q); }
    }
    Isolation(mem0, own0, mem1, own1, 0, r, sz);
  }

  lemma BornKeeps(mem0: seq<Page>, own0: seq<Own>, mem1: seq<Page>, own1: seq<Own>, root: nat, tf: nat, r: nat, sz: nat)
    requires TreeOk(mem0, own0) && TreeOk(mem1, own1) && IsRoot(own0, r) && 0 < root < |own0| && own0[root].Free?
    requires Born(mem0, own0, mem1, own1, root, tf)
    ensures IsRoot(own1, r) && CellsKept(mem0, mem1, r, sz) && (Image(mem0, own0, r, sz) ==> Image(mem1, own1, r, sz))
    ensures TopsSame(mem0, mem1, r)
    ensures forall v: nat :: v < MAXVPN ==> Lookup(mem1, r, v) == Lookup(mem0, r, v)
    ensures forall q: nat :: 0 < q < |own0| && own0[q].Kernel? ==> own1[q].Kernel?
  {
    var own0', mem0' := own0[tf := Kernel], mem0[tf := mem1[tf]];
    LooseChange(mem0, own0, tf, Kernel, mem1[tf]);
    forall q: nat | 0 < q < |own0| ensures PageMine(mem0'[q], own0'[q], mem1[q], own1[q], root)
      ensures own0[q].Kernel? ==> own1[q].Kernel?
    {
      if q != tf { assert PageBuilt(mem0[q], own0[q], mem1[q], own1[q], root); }
      if OfRoot(own0[q], root) { NoOrphans(mem0, own0, root, q); }
    }
    Isolation(mem0', own0', mem1, own1, root, r, sz);
    SameImage(mem0, own0, mem0', own0', r, sz);
    forall v: nat | v < TRAPFRAME ensures CellOf(mem0', r, sz, v) == CellOf(mem0, r, sz, v) {
      if Lookup(mem0, r, v).v { LookupOwned(mem0, own0, r, v); }
    }
  }

  /** After a successful copy the child shows the parent's image. */
  lemma ChildImage(mem0: seq<Page>, own0: seq<Own>, mem1: seq<Page>, own1: seq<Own>, mem2: seq<Page>, own2: seq<Own>,
                   r: nat, root: nat, sz: nat, trampoline: nat, tf: nat)
    requires TreeOk(mem1, own1) && IsRoot(own1, root) && r != root && IsRoot(own2, root)
    requires Blank(mem1, root, trampoline, tf) && MapsKept(mem1, own1, mem2, root, 0, Pages(sz))
    requires Copied(mem2, r, root, Pages(sz)) && Image(mem2, own2, r, sz) && CellsKept(mem0, mem2, r, sz)
    ensures Image(mem2, own2, root, sz) && TopsAt(mem2, root, tf)
    ensures forall v: nat :: v < TRAPFRAME ==> CellOf(mem2, root, sz, v) == CellOf(mem0, r, sz, v)
  {
    forall v: nat | v < TRAPFRAME
      ensures Lookup(mem2, root, v).v ==> v < Pages(sz)
      ensures CellOf(mem2, root, sz, v) == CellOf(mem0, r, sz, v)
    {
      if v < Pages(sz) { assert PageCopied(mem2, r, root, v); }
      assert CellOf(mem2, r, sz, v) == CellOf(mem0, r, sz, v);
    }
  }
}
