/** kernel/kalloc.c and the page-table half of kernel/vm.c over one physical memory. */
module Vm {
  import opened PageTable
  import opened Teardown
  import opened Images

  class Memory {
    var mem: seq<Page>
    var freelist: nat
    ghost var free: seq<nat>
    ghost var own: seq<Own>

    ghost predicate Valid()
      reads this
    {
      |mem| == |own| && FreeListOk(mem, own, freelist, free) && TreeOk(mem, own)
    }

    /** kinit(): freerange pushes every page, lowest first. */
    constructor (npages: nat)
      ensures Valid() && |own| == npages + 1 && forall p: nat :: 0 < p < |own| ==> own[p].Free?
    {
      mem := seq(npages + 1, i => Junk);
      own := seq(npages + 1, i => Kernel);
      freelist, free := 0, [];
      new;
      var p := 1;
      while p <= npages
        invariant 1 <= p <= npages + 1 && |own| == npages + 1
        invariant FreeListOk(mem, own, freelist, free)
        invariant forall q: nat :: 0 < q < p ==> own[q].Free?
        invariant forall q: nat :: p <= q < |own| ==> own[q].Kernel?
      {
        Kfree(p);
        p := p + 1;
      }
    }

    /** Puts a page that belongs to no tree on the free list. */
    method Kfree(p: nat)
      requires FreeListOk(mem, own, freelist, free) && 0 < p < |own| && own[p].Kernel?
      modifies this
      ensures FreeListOk(mem, own, freelist, free)
      ensures free == old(free) + [p] && own == old(own)[p := Free(|old(free)|)]
      ensures mem == old(mem)[p := Run(old(freelist))]
    {
      PushFree(mem, own, freelist, free, p);
      mem := mem[p := Run(freelist)];
      freelist := p;
      own := own[p := Free(|free|)];
      free := free + [p];
    }

    /** Takes the page on top of the free list, or returns 0 if there is none. */
    method Kalloc() returns (p: nat)
      requires Valid()
      modifies this
      ensures Valid() && SameMaps(old(mem), old(own), mem)
      ensures p == 0 <==> old(free) == []
      ensures p == 0 ==> unchanged(this)
      ensures p != 0 ==> 0 < p < |old(own)| && old(own)[p].Free?
                         && own == old(own)[p := Kernel] && mem == old(mem)[p := Junk]
                         && free == old(free)[..|old(free)| - 1]
    {
      p := freelist;
      assert free != [] ==> RunOk(mem, own, free, |free| - 1);
      if p != 0 {
        PopFree(mem, own, freelist, free);
        LooseChange(mem, own, p, Kernel, Junk);
        freelist := mem[p].next;
        mem := mem[p := Junk];
        own := own[p := Kernel];
        free := free[..|free| - 1];
      }
    }

    /** One level of walk(): follows entry i of table pt, or hangs a new table there. */
    method WalkStep(root: nat, pt: nat, i: nat, alloc: bool) returns (p: nat)
      requires Valid() && 0 < pt < |own| && own[pt].Table? && own[pt].root == root && own[pt].level > 0 && i < 512
      requires VpnOf(own[pt], i) < Span(own[pt].level)
      modifies this
      ensures Valid() && Grown(old(mem), old(own), mem, own, root) && SameMaps(old(mem), old(own), mem)
      ensures p == 0 || IsTable(own, p, root, own[pt].level - 1, VpnOf(own[pt], i))
      ensures !alloc ==> unchanged(this) && p == Next(mem, pt, i)
      ensures |old(free)| >= |free| >= |old(free)| - 1 && (p == 0 && alloc ==> old(free) == [])
    {
      assert SlotsOk(mem, own, pt);
      assert SlotOk(own, pt, own[pt], i, mem[pt].ptes[i]);
      if mem[pt].ptes[i].v {
        p := mem[pt].ptes[i].page;
      } else if !alloc {
        p := 0;
      } else {
        p := Kalloc();
        if p != 0 {
          ghost var mem1, own1 := mem, own;
          mem := mem[p := Entries(NoEntries())];
          mem := mem[pt := Entries(mem[pt].ptes[i := Pte(true, p, NONE)])];
          own := own[p := Table(root, own[pt].level - 1, VpnOf(own[pt], i), pt)];
          NewTable(mem1, own1, freelist, free, pt, i, p, mem, own);
        }
      }
    }
  
    /** The lowest table for page vpn of the tree under root, building missing tables if asked to. The address of
        the page is split by PX, level by level. */
    method Walk(root: nat, vpn: nat, alloc: bool) returns (p: nat)
      requires Valid() && IsRoot(own, root) && vpn < MAXVPN
      modifies this
      ensures Valid() && Grown(old(mem), old(own), mem, own, root) && SameMaps(old(mem), old(own), mem)
      ensures p == 0 || (IsTable(own, p, root, 0, vpn / 512) && mem[p].Entries?
                         && mem[p].ptes[vpn % 512] == Lookup(mem, root, vpn))
      ensures !alloc ==> unchanged(this) && p == Walked(mem, root, vpn)
      ensures |old(free)| >= |free| >= |old(free)| - 2 && (p == 0 && alloc ==> |old(free)| < 2)
    {
      hide PX;
      p := root;
      var level := 2;
      while level > 0
        invariant 0 <= level <= 2 && IsTable(own, p, root, level, PrefixAt(vpn, level))
        invariant Valid() && Grown(old(mem), old(own), mem, own, root) && SameMaps(old(mem), old(own), mem)
        invariant !alloc ==> unchanged(this)
        invariant level == 2 ==> p == root
        invariant |old(free)| >= |free| >= |old(free)| - 2 + level
        invariant !alloc && level == 1 ==> p == Next(mem, root, vpn / 512 / 512 % 512)
        invariant !alloc && level == 0 ==> p == Walked(mem, root, vpn)
      {
        ghost var mem1, own1 := mem, own;
        WalkIndex(vpn, level);
        p := WalkStep(root, p, PX(level, vpn * PGSIZE), alloc);
        GrownTrans(old(mem), old(own), mem1, own1, mem, own, root);
        if p == 0 { return; }
        level := level - 1;
      }
      WalkedFinds(mem, own, root, vpn, p);
      assert SlotsOk(mem, own, p);
    }
  
    /** One turn of the loop of mappages(): maps page pa at page number a. */
    method MapStep(root: nat, a: nat, pa: nat, perm: Perm) returns (ok: bool)
      requires Valid() && IsRoot(own, root) && a < MAXVPN && (perm.r || perm.w || perm.x)
      requires !Lookup(mem, root, a).v
      requires a < TRAPFRAME ==> 0 < pa < |own| && own[pa].Kernel? && mem[pa].Bytes?
      modifies this
      ensures Valid() && Mapped(old(mem), old(own), mem, own, root, a, if ok then 1 else 0, pa, perm)
      ensures |old(free)| >= |free| >= |old(free)| - 2 && (!ok ==> |old(free)| < 2)
    {
      var p := Walk(root, a, true);
      if p == 0 {
        GrownMapped(old(mem), old(own), mem, own, root, a, pa, perm);
        return false;
      }
      ghost var mem1, own1 := mem, own;
      mem := mem[p := Entries(mem[p].ptes[a % 512 := Pte(true, pa, perm)])];
      own := if a < TRAPFRAME then own[pa := User(root, a, p)] else own;
      MappedOne(old(mem), old(own), mem1, own1, mem, own, freelist, free, root, a, pa, perm, p);
      ok := true;
    }

    /** Maps n pages from `page` on at vpn. The entries must be empty, or it would panic with "remap". On
        failure the first k stay mapped. */
    method Mappages(root: nat, vpn: nat, n: nat, page: nat, perm: Perm) returns (r: int, ghost k: nat)
      requires Valid() && IsRoot(own, root) && 0 < n && vpn + n <= MAXVPN && (perm.r || perm.w || perm.x)
      requires Mappable(mem, own, vpn, n, page)
      requires forall v: nat :: vpn <= v < vpn + n ==> !Lookup(mem, root, v).v
      modifies this
      ensures Valid() && Mapped(old(mem), old(own), mem, own, root, vpn, k, page, perm)
      ensures k <= n && (r == 0 || r == -1) && (r == 0 <==> k == n)
      ensures |old(free)| >= |free| >= |old(free)| - 2 * n && (r == -1 ==> |old(free)| < 2 * n)
    {
      hide TreeOk, FreeListOk, Lookup, Walked;
      var a, pa := vpn, page;
      k := 0;
      while true
        invariant k < n && a == vpn + k && pa == page + k && |old(free)| >= |free| >= |old(free)| - 2 * k
        invariant Valid() && IsRoot(own, root) && Mapped(old(mem), old(own), mem, own, root, vpn, k, page, perm)
        decreases n - k
      {
        assert a < TRAPFRAME ==> Given(pa, vpn, n, page);
        ghost var mem1, own1 := mem, own;
        var ok := MapStep(root, a, pa, perm);
        MappedTrans(old(mem), old(own), mem1, own1, mem, own, root, vpn, k, page, perm, if ok then 1 else 0);
        if !ok { return -1, k; }
        k := k + 1;
        RootMapped(old(mem), old(own), mem, own, root, vpn, k, page, perm, root);
        if a == vpn + n - 1 { break; }
        a, pa := a + 1, pa + 1;
      }
      r := 0;
    }

    /** Empties n page numbers from vpn on. User pages are freed; the two top pages are not owned by the
        table and are only unmapped. */
    method Uvmunmap(root: nat, vpn: nat, n: nat, doFree: bool)
      requires Valid() && IsRoot(own, root) && vpn + n <= MAXVPN
      requires if doFree then vpn + n <= TRAPFRAME else vpn >= TRAPFRAME
      modifies this
      ensures Valid() && Unmapped(old(mem), old(own), mem, own, root, vpn, vpn + n)
    {
      var a := vpn;
      while a < vpn + n
        invariant vpn <= a <= vpn + n
        invariant Valid() && IsRoot(own, root) && Unmapped(old(mem), old(own), mem, own, root, vpn, a)
      {
        var p := Walk(root, a, false);
        if p == 0 || !mem[p].ptes[a % 512].v {
          EmptyEntry(mem, own, root, a);
          UnmappedSkip(old(mem), old(own), mem, own, root, vpn, a);
        } else {
          UnmapOne(root, a, p, doFree, vpn, old(mem), old(own));
        }
        a := a + 1;
      }
    }
  
    /** One round of the loop of uvmunmap(), for an entry in use. */
    method UnmapOne(root: nat, a: nat, p: nat, doFree: bool, ghost vpn: nat, ghost mem0: seq<Page>, ghost own0: seq<Own>)
      requires Valid() && IsRoot(own, root) && TreeOk(mem0, own0) && IsRoot(own0, root) && vpn <= a < MAXVPN
      requires if doFree then a < TRAPFRAME else a >= TRAPFRAME
      requires IsTable(own, p, root, 0, a / 512) && mem[p].Entries? && mem[p].ptes[a % 512] == Lookup(mem, root, a)
      requires Lookup(mem, root, a).v && Unmapped(mem0, own0, mem, own, root, vpn, a)
      modifies this
      ensures Valid() && IsRoot(own, root) && Unmapped(mem0, own0, mem, own, root, vpn, a + 1)
    {
      ghost var mem1, own1, freelist1, free1 := mem, own, freelist, free;
      if doFree {
        LookupOwned(mem, own, root, a);
        var q := mem[p].ptes[a % 512].page;
        FreeListKept(mem, own, freelist, free, mem, own[q := Kernel]);
        own := own[q := Kernel];
        Kfree(q);
      }
      mem := mem[p := Entries(mem[p].ptes[a % 512 := NO_PTE])];
      UnmappedNext(mem0, own0, mem1, own1, mem, own, freelist1, free1, root, vpn, a, p, freelist, free);
    }

    /** Frees the tables under p, and p. All mappings must be gone, or it would panic with "leaf". `open`
        holds the tables above p that are being taken apart. */
    method Freewalk(p: nat, ghost open: set<nat>)
      requires FreeListOk(mem, own, freelist, free) && OpenTree(mem, own, open)
      requires 0 < p < |own| && own[p].Table? && own[p].level <= 2 && NoLeaves(mem, own, own[p].root)
      requires own[p].up == 0 || own[p].up in open
      requires forall x: nat :: x in open && 0 < x < |own| && own[x].Table? ==> own[x].level > own[p].level
      modifies this
      ensures FreeListOk(mem, own, freelist, free) && OpenTree(mem, own, open)
      ensures Torn(old(mem), old(own), mem, own, old(own)[p].root, old(own)[p].level, old(own)[p].prefix)
      decreases own[p].level, 1
    {
      ghost var w, mem0, own0 := own[p], mem, own;
      ghost var open1 := open + {p};
      var i := 0;
      while i < 512
        invariant 0 <= i <= 512 && |own| == |own0| && own[p] == w
        invariant FreeListOk(mem, own, freelist, free) && OpenTree(mem, own, open1) && NoLeaves(mem, own, w.root)
        invariant TornTo(mem0, own0, mem, own, p, i) && HalfOpen(mem, own, p, i)
        invariant forall x: nat :: x in open && 0 < x < |own| && own[x].Table? ==> own[x].level > own[p].level
      {
        FreeChild(p, i, open, mem0, own0);
        i := i + 1;
      }
      hide OpenTree, TornTo, Torn, NoLeaves, HalfOpen;
      ghost var mem1, own1 := mem, own;
      FreeListKept(mem, own, freelist, free, mem, own[p := Kernel]);
      own := own[p := Kernel];
      Kfree(p);
      SelfGone(mem0, own0, mem1, own1, mem, own, open, p, |free| - 1, mem[p]);
    }

    /** One round of the loop of freewalk. */
    method FreeChild(p: nat, i: nat, ghost open: set<nat>, ghost mem0: seq<Page>, ghost own0: seq<Own>)
      requires FreeListOk(mem, own, freelist, free) && OpenTree(mem, own, open + {p}) && i < 512
      requires 0 < p < |own| && own[p].Table? && own[p].level <= 2 && NoLeaves(mem, own, own[p].root)
      requires |own0| == |own| && own0[p].Table? && TornTo(mem0, own0, mem, own, p, i) && HalfOpen(mem, own, p, i)
      requires forall x: nat :: x in open && 0 < x < |own| && own[x].Table? ==> own[x].level > own[p].level
      modifies this
      ensures FreeListOk(mem, own, freelist, free) && OpenTree(mem, own, open + {p}) && |own| == |own0| && own[p] == old(own)[p]
      ensures NoLeaves(mem, own, own[p].root) && TornTo(mem0, own0, mem, own, p, i + 1) && HalfOpen(mem, own, p, i + 1)
      ensures forall x: nat :: x in open && 0 < x < |own| && own[x].Table? ==> own[x].level > own[p].level
      decreases own[p].level, 0
    {
      ghost var open1 := open + {p};
      var pte := mem[p].ptes[i];
      if pte.v {
        assert SlotOk(own, p, own[p], i, pte);
        ghost var mem1, own1 := mem, own;
        Freewalk(pte.page, open1);
        ghost var mem2 := mem;
        mem := mem[p := Entries(mem[p].ptes[i := NO_PTE])];
        ChildGone(mem0, own0, mem1, own1, mem2, own, mem, open1, p, i);
        FreeListKept(mem2, own, freelist, free, mem, own);
      } else {
        SkipEmpty(mem0, own0, mem, own, open1, p, i);
      }
    }

    /** kalloc() followed by filling the page. */
    method KallocFilled(bytes: Frame) returns (q: nat)
      requires Valid()
      modifies this
      ensures Valid() && SameMaps(old(mem), old(own), mem)
      ensures q == 0 ==> unchanged(this) && free == []
      ensures q != 0 ==> 0 < q < |old(own)| && old(own)[q].Free? && |free| == |old(free)| - 1
                         && own == old(own)[q := Kernel] && mem == old(mem)[q := Bytes(bytes)]
    {
      q := Kalloc();
      if q == 0 { return; }
      LooseChange(mem, own, q, Kernel, Bytes(bytes));
      FreeListKept(mem, own, freelist, free, mem[q := Bytes(bytes)], own);
      mem := mem[q := Bytes(bytes)];
      assert own[q := Kernel] == own;
      assert mem == old(mem)[q := Bytes(bytes)];
    }

    /** What uvmalloc, vmfault and uvmcopy do for one page: allocate it, fill it and map it at a, or give
        it back if a table is missing and cannot be built. Returns the page, or 0. */
    method MapNew(root: nat, a: nat, bytes: Frame, perm: Perm) returns (q: nat)
      requires Valid() && IsRoot(own, root) && a < TRAPFRAME && (perm.r || perm.w || perm.x)
      requires !Lookup(mem, root, a).v
      modifies this
      ensures Valid() && IsRoot(own, root) && Built(old(mem), old(own), mem, own, root)
      ensures MapsKept(old(mem), old(own), mem, root, a, if q == 0 then a else a + 1)
      ensures |old(free)| >= |free| >= |old(free)| - 3 && (q == 0 ==> |old(free)| < 3)
      ensures q != 0 ==> Lookup(mem, root, a) == Pte(true, q, perm) && 0 < q < |mem| && mem[q] == Bytes(bytes)
                         && old(own)[q].Free?
    {
      hide TreeOk, FreeListOk;
      q := KallocFilled(bytes);
      if q == 0 { return; }
      ghost var mem1, own1 := mem, own;
      var r, k := Mappages(root, a, 1, q, perm);
      if r == 0 {
        PageAdded(old(mem), old(own), mem1, own1, mem, own, q, bytes, root, a, perm);
      } else {
        ghost var mem2, own2 := mem, own;
        LooseChange(mem, own, q, Free(|free|), Run(freelist));
        Kfree(q);
        PageReturned(old(mem), old(own), mem1, own1, mem2, own2, mem, own, q, bytes, root, a, perm, mem[q], |free| - 1);
        q := 0;
      }
      BuiltRoot(old(mem), old(own), mem, own, root, root);
    }
  
    /** Shrinks a user image from oldsz to newsz; the whole pages above newsz are freed. */
    method Uvmdealloc(root: nat, oldsz: nat, newsz: nat) returns (sz: nat)
      requires Valid() && IsRoot(own, root) && oldsz <= USER_LIMIT
      modifies this
      ensures Valid() && sz == if newsz >= oldsz then oldsz else newsz
      ensures Pages(newsz) < Pages(oldsz) && newsz < oldsz ==>
        Unmapped(old(mem), old(own), mem, own, root, Pages(newsz), Pages(oldsz))
      ensures !(Pages(newsz) < Pages(oldsz) && newsz < oldsz) ==> unchanged(this)
    {
      if newsz >= oldsz { return oldsz; }
      if Pages(newsz) < Pages(oldsz) {
        Uvmunmap(root, Pages(newsz), Pages(oldsz) - Pages(newsz), true);
      }
      sz := newsz;
    }

    /** One turn of the loop of uvmalloc(), on the way from mem0: adds a page at a, or undoes them all. */
    method GrowStep(root: nat, lo: nat, a: nat, perm: Perm, ghost mem0: seq<Page>, ghost own0: seq<Own>)
      returns (ok: bool)
      requires Valid() && IsRoot(own, root) && lo <= a < TRAPFRAME && perm.r && !Lookup(mem, root, a).v
      requires TreeOk(mem0, own0) && IsRoot(own0, root) && Grew(mem0, own0, mem, own, root, lo, a, perm)
      requires forall v: nat :: lo <= v < TRAPFRAME ==> !Lookup(mem0, root, v).v
      modifies this
      ensures Valid() && IsRoot(own, root)
      ensures ok ==> Grew(mem0, own0, mem, own, root, lo, a + 1, perm) && |free| >= |old(free)| - 3
      ensures !ok ==> Built(mem0, own0, mem, own, root) && MapsKept(mem0, own0, mem, root, lo, lo) && |old(free)| < 3
    {
      var q := MapNew(root, a, Zeroes(), perm);
      BuiltTrans(mem0, own0, old(mem), old(own), mem, own, root, lo, a, if q == 0 then a else a + 1);
      ok := q != 0;
      if ok {
        ZeroedNext(old(mem), old(own), mem, own, root, lo, a, perm);
      } else {
        ghost var mem2, own2 := mem, own;
        var _ := Uvmdealloc(root, a * PGSIZE, lo * PGSIZE);
        RolledBack(mem0, own0, mem2, own2, mem, own, root, lo, a);
        BuiltRoot(mem0, own0, mem, own, root, root);
      }
    }

    /** Grows a user image from oldsz to newsz with zeroed pages; returns newsz, or 0 and the old image.
        kexec() may ask for more than fits below TRAPFRAME, but then memory runs out first. */
    method Uvmalloc(root: nat, oldsz: nat, newsz: nat, perm: Perm) returns (sz: nat)
      requires Valid() && Image(mem, own, root, oldsz) && perm.r
      requires newsz <= USER_LIMIT || (|mem| <= TRAPFRAME && AllMapped(mem, root, Pages(oldsz)))
      modifies this
      ensures Valid() && IsRoot(own, root)
      ensures newsz < oldsz ==> sz == oldsz && unchanged(this)
      ensures newsz >= oldsz ==> sz == newsz || sz == 0
      ensures newsz >= oldsz && sz == newsz ==>
        newsz <= USER_LIMIT && Grew(old(mem), old(own), mem, own, root, Pages(oldsz), Pages(newsz), perm)
        && |free| + 3 * (Pages(newsz) - Pages(oldsz)) >= |old(free)|
      ensures newsz >= oldsz && sz != newsz ==>
        Built(old(mem), old(own), mem, own, root) && MapsKept(old(mem), old(own), mem, root, 0, 0)
        && |old(free)| < 3 * (Pages(newsz) - Pages(oldsz))
    {
      hide FreeListOk, TreeOk, AllMapped;
      if newsz < oldsz { return oldsz; }
      var lo := Pages(oldsz);
      var a := lo;
      while a * PGSIZE < newsz
        invariant lo <= a <= TRAPFRAME && (a == lo || a <= Pages(newsz)) && |free| + 3 * (a - lo) >= |old(free)|
        invariant Valid() && IsRoot(own, root) && Grew(old(mem), old(own), mem, own, root, lo, a, perm)
        decreases TRAPFRAME - a
      {
        RoomToMap(old(mem), old(own), mem, own, root, oldsz, a, newsz, perm);
        var ok := GrowStep(root, lo, a, perm, old(mem), old(own));
        if !ok { return 0; }
        a := a + 1;
      }
      sz := newsz;
    }

    /** Frees the user pages below sz, then the tables. */
    method Uvmfree(root: nat, sz: nat)
      requires Valid() && Image(mem, own, root, sz)
      requires !Lookup(mem, root, TRAMPOLINE).v && !Lookup(mem, root, TRAPFRAME).v
      modifies this
      ensures Valid() && Destroyed(old(mem), old(own), mem, own, root)
    {
      var n := Pages(sz);
      if sz > 0 {
        Uvmunmap(root, 0, n, true);
      }
      ghost var mem1, own1 := mem, own;
      assert Unmapped(old(mem), old(own), mem1, own1, root, 0, n);
      EmptyNoLeaves(mem, own, root);
      ClosedTree(mem, own);
      Freewalk(root, {});
      UnmappedTorn(old(mem), old(own), mem1, own1, mem, own, root, n);
    }
  
    /** A page table with nothing mapped, or 0. */
    method Uvmcreate() returns (root: nat)
      requires Valid()
      modifies this
      ensures Valid()
      ensures root == 0 ==> unchanged(this) && free == []
      ensures root != 0 ==> IsRoot(own, root) && |own| == |old(own)| && old(own)[root].Free? && |free| + 1 == |old(free)|
                            && Built(old(mem), old(own), mem, own, root)
                            && forall v: nat :: v < MAXVPN ==> Lookup(mem, root, v) == NO_PTE
    {
      root := Kalloc();
      if root == 0 { return; }
      ghost var mem1, own1 := mem, own;
      mem := mem[root := Entries(NoEntries())];
      own := own[root := Table(root, 2, 0, 0)];
      NewRoot(mem1, own1, mem, own, root);
      FreeListKept(mem1, own1, freelist, free, mem, own);
    }

    /** A page table with only the two top pages mapped; if memory runs out, 0 and every page back. */
    method ProcPagetable(trampoline: nat, trapframe: nat) returns (root: nat)
      requires Valid()
      modifies this
      ensures Valid()
      ensures root == 0 ==> Restored(old(mem), old(own), mem, own) && |old(free)| < 5
      ensures root != 0 ==> IsRoot(own, root) && |own| == |old(own)| && old(own)[root].Free? && |free| + 5 >= |old(free)|
                            && Built(old(mem), old(own), mem, own, root) && Blank(mem, root, trampoline, trapframe)
    {
      root := Uvmcreate();
      if root == 0 { return; }
      ghost var mem1, own1 := mem, own;
      var r, k := Mappages(root, TRAMPOLINE, 1, trampoline, TRAMPOLINE_PERM);
      TopMapped(mem1, own1, mem, own, root, TRAMPOLINE, k, trampoline, TRAMPOLINE_PERM);
      BuiltRoot(mem1, own1, mem, own, root, root);
      BuiltStep(old(mem), old(own), mem1, own1, mem, own, root);
      ghost var mem2, own2 := mem, own;
      if r < 0 {
        Uvmfree(root, 0);
        BuiltDestroyed(old(mem), old(own), mem2, own2, mem, own, root);
        return 0;
      }
      r, k := Mappages(root, TRAPFRAME, 1, trapframe, TRAPFRAME_PERM);
      TopMapped(mem2, own2, mem, own, root, TRAPFRAME, k, trapframe, TRAPFRAME_PERM);
      BuiltRoot(mem2, own2, mem, own, root, root);
      BuiltStep(old(mem), old(own), mem2, own2, mem, own, root);
      if r < 0 {
        ghost var mem3, own3 := mem, own;
        Uvmunmap(root, TRAMPOLINE, 1, false);
        TopUnmapped(mem3, own3, mem, own, root, TRAMPOLINE);
        BuiltRoot(mem3, own3, mem, own, root, root);
        BuiltStep(old(mem), old(own), mem3, own3, mem, own, root);
        ghost var mem4, own4 := mem, own;
        Uvmfree(root, 0);
        BuiltDestroyed(old(mem), old(own), mem4, own4, mem, own, root);
        return 0;
      }
    }

    /** Unmaps the two top pages and frees everything else. */
    method ProcFreepagetable(root: nat, sz: nat)
      requires Valid() && Image(mem, own, root, sz)
      modifies this
      ensures Valid() && Destroyed(old(mem), old(own), mem, own, root)
    {
      Uvmunmap(root, TRAMPOLINE, 1, false);
      ghost var mem1, own1 := mem, own;
      TopUnmapped(old(mem), old(own), mem, own, root, TRAMPOLINE);
      BuiltRoot(old(mem), old(own), mem, own, root, root);
      Uvmunmap(root, TRAPFRAME, 1, false);
      ghost var mem2, own2 := mem, own;
      TopUnmapped(mem1, own1, mem, own, root, TRAPFRAME);
      BuiltRoot(mem1, own1, mem, own, root, root);
      Uvmfree(root, sz);
      TopsDestroyed(old(mem), old(own), mem1, own1, mem2, own2, mem, own, root);
    }
  
    /** memmove() into a user page. */
    method Store(q: nat, bytes: Frame)
      requires Valid() && 0 < q < |own| && own[q].User?
      modifies this`mem
      ensures Valid() && mem == old(mem)[q := Bytes(bytes)] && SameMaps(old(mem), own, mem)
    {
      UserWrite(mem, own, q, bytes);
      FreeListKept(mem, own, freelist, free, mem[q := Bytes(bytes)], own);
      mem := mem[q := Bytes(bytes)];
    }
  
    /** Takes a mapped page away from the user. Without a table for it this would panic. */
    method Uvmclear(root: nat, v: nat)
      requires Valid() && IsRoot(own, root) && v < TRAPFRAME && Lookup(mem, root, v).v && Lookup(mem, root, v).perm.r
      modifies this
      ensures Valid() && own == old(own) && Built(old(mem), old(own), mem, own, root)
      ensures forall r: nat, x: nat :: IsRoot(own, r) && x < MAXVPN ==>
        Lookup(mem, r, x) == if r == root && x == v then var e := Lookup(old(mem), r, x); e.(perm := e.perm.(u := false))
                             else Lookup(old(mem), r, x)
    {
      var p := Walk(root, v, false);
      var pte := mem[p].ptes[v % 512];
      ghost var mem1 := mem;
      mem := mem[p := Entries(mem[p].ptes[v % 512 := pte.(perm := pte.perm.(u := false))])];
      PermChange(mem1, own, p, v % 512, pte.perm.(u := false), mem);
      FreeListKept(mem1, own, freelist, free, mem, own);
    }
  }
}
