/** User images: what a page table and a size show to a process, and the relations that the
    operations of kernel/vm.c, kernel/proc.c and kernel/exec.c keep between images and pages. */
module Images {
  import opened PageTable
  import opened Teardown

  /** PGROUNDUP(sz) / PGSIZE. */
  function Pages(sz: nat): nat { (sz + PGSIZE - 1) / PGSIZE }

  const USER_LIMIT: nat := TRAPFRAME * PGSIZE

  /** The table under root maps no user page at or above sz. */
  ghost predicate Image(mem: seq<Page>, own: seq<Own>, root: nat, sz: nat) {
    && IsRoot(own, root) && sz <= USER_LIMIT
    && forall v: nat :: v < TRAPFRAME && Lookup(mem, root, v).v ==> v < Pages(sz)
  }

  predicate PageBuilt(m0: Page, w0: Own, m1: Page, w1: Own, root: nat) {
    if w0.Free? then w1.Free? || OfRoot(w1, root)
    else w1 == w0 && (m1 == m0 || (w0.Table? && w0.root == root))
  }

  /** root took some free pages and rewrote its tables; every other page is as it was. */
  ghost predicate Built(mem0: seq<Page>, own0: seq<Own>, mem1: seq<Page>, own1: seq<Own>, root: nat) {
    && |mem0| == |own0| == |mem1| == |own1|
    && forall q: nat :: 0 < q < |own0| ==> PageBuilt(mem0[q], own0[q], mem1[q], own1[q], root)
  }

  /** Flat maps changed at most at page numbers lo..hi of root. */
  ghost predicate MapsKept(mem0: seq<Page>, own0: seq<Own>, mem1: seq<Page>, root: nat, lo: nat, hi: nat) {
    forall r: nat, v: nat :: IsRoot(own0, r) && v < MAXVPN && !(r == root && lo <= v < hi) ==>
      Lookup(mem1, r, v) == Lookup(mem0, r, v)
  }

  lemma BuiltRoot(mem0: seq<Page>, own0: seq<Own>, mem1: seq<Page>, own1: seq<Own>, root: nat, r: nat)
    requires Built(mem0, own0, mem1, own1, root) && IsRoot(own0, r)
    ensures IsRoot(own1, r)
  {
    assert PageBuilt(mem0[r], own0[r], mem1[r], own1[r], root);
  }

  lemma BuiltTrans(mem0: seq<Page>, own0: seq<Own>, mem1: seq<Page>, own1: seq<Own>, mem2: seq<Page>, own2: seq<Own>,
                   root: nat, lo: nat, mid: nat, hi: nat)
    requires Built(mem0, own0, mem1, own1, root) && Built(mem1, own1, mem2, own2, root) && lo <= mid <= hi
    requires MapsKept(mem0, own0, mem1, root, lo, mid) && MapsKept(mem1, own1, mem2, root, mid, hi)
    ensures Built(mem0, own0, mem2, own2, root) && MapsKept(mem0, own0, mem2, root, lo, hi)
  {
    forall q: nat | 0 < q < |own0| ensures PageBuilt(mem0[q], own0[q], mem2[q], own2[q], root) {
      assert PageBuilt(mem0[q], own0[q], mem1[q], own1[q], root);
      assert PageBuilt(mem1[q], own1[q], mem2[q], own2[q], root);
    }
    forall r: nat | IsRoot(own0, r) ensures IsRoot(own1, r) { BuiltRoot(mem0, own0, mem1, own1, root, r); }
  }

  /** kalloc, fill, mappages: the page that was free is now mapped at a and nowhere else. */
  lemma PageAdded(mem0: seq<Page>, own0: seq<Own>, mem1: seq<Page>, own1: seq<Own>, mem2: seq<Page>, own2: seq<Own>,
                  q: nat, bytes: Frame, root: nat, a: nat, perm: Perm)
    requires |mem0| == |own0| && 0 < q < |own0| && own0[q].Free? && a < TRAPFRAME
    requires mem1 == mem0[q := Bytes(bytes)] && own1 == own0[q := Kernel] && SameMaps(mem0, own0, mem1)
    requires Mapped(mem1, own1, mem2, own2, root, a, 1, q, perm)
    ensures Built(mem0, own0, mem2, own2, root) && MapsKept(mem0, own0, mem2, root, a, a + 1) && mem2[q] == Bytes(bytes)
  {
    assert PageMapped(mem1[q], own1[q], mem2[q], own2[q], root, Given(q, a, 1, q), a + (q - q));
    forall x: nat | 0 < x < |own0| ensures PageBuilt(mem0[x], own0[x], mem2[x], own2[x], root) {
      assert PageMapped(mem1[x], own1[x], mem2[x], own2[x], root, Given(x, a, 1, q), a + (x - q));
    }
    forall r: nat | IsRoot(own0, r) ensures IsRoot(own1, r) { }
  }

  /** kalloc, fill, mappages fails, kfree: at most some tables were added. */
  lemma PageReturned(mem0: seq<Page>, own0: seq<Own>, mem1: seq<Page>, own1: seq<Own>, mem2: seq<Page>, own2: seq<Own>,
                     mem3: seq<Page>, own3: seq<Own>, q: nat, bytes: Frame, root: nat, a: nat, perm: Perm, c: Page, h: nat)
    requires |mem0| == |own0| && 0 < q < |own0| && own0[q].Free? && a < TRAPFRAME
    requires mem1 == mem0[q := Bytes(bytes)] && own1 == own0[q := Kernel] && SameMaps(mem0, own0, mem1)
    requires Mapped(mem1, own1, mem2, own2, root, a, 0, q, perm)
    requires mem3 == mem2[q := c] && own3 == own2[q := Free(h)] && SameMaps(mem2, own2, mem3)
    ensures Built(mem0, own0, mem3, own3, root) && MapsKept(mem0, own0, mem3, root, a, a)
  {
    forall x: nat | 0 < x < |own0| ensures PageBuilt(mem0[x], own0[x], mem3[x], own3[x], root) {
      assert PageMapped(mem1[x], own1[x], mem2[x], own2[x], root, Given(x, a, 0, q), a + (x - q));
    }
    forall r: nat | IsRoot(own0, r) ensures IsRoot(own1, r) && IsRoot(own2, r) {
      assert IsRoot(own1, r);
      RootMapped(mem1, own1, mem2, own2, root, a, 0, q, perm, r);
    }
  }

  /** Page numbers lo..hi of root show zero pages with this permission. */
  ghost predicate Zeroed(mem: seq<Page>, root: nat, lo: nat, hi: nat, perm: Perm) {
    forall v: nat :: lo <= v < hi ==>
      var e := Lookup(mem, root, v);
      e.v && e.perm == perm && e.page < |mem| && mem[e.page] == Bytes(Zeroes())
  }

  ghost predicate AllMapped(mem: seq<Page>, root: nat, n: nat) {
    forall v: nat :: v < n ==> Lookup(mem, root, v).v
  }

  lemma ZeroedNext(mem0: seq<Page>, own0: seq<Own>, mem1: seq<Page>, own1: seq<Own>, root: nat, lo: nat, a: nat,
                   perm: Perm)
    requires TreeOk(mem0, own0) && IsRoot(own0, root) && Built(mem0, own0, mem1, own1, root) && lo <= a < TRAPFRAME
    requires MapsKept(mem0, own0, mem1, root, a, a + 1) && Zeroed(mem0, root, lo, a, perm)
    requires var e := Lookup(mem1, root, a);
             e.v && e.perm == perm && e.page < |mem1| && mem1[e.page] == Bytes(Zeroes())
    ensures Zeroed(mem1, root, lo, a + 1, perm)
  {
    forall v: nat | lo <= v < a
      ensures var e := Lookup(mem1, root, v); e.v && e.perm == perm && e.page < |mem1| && mem1[e.page] == Bytes(Zeroes())
    {
      LookupOwned(mem0, own0, root, v);
      var q := Lookup(mem0, root, v).page;
      assert PageBuilt(mem0[q], own0[q], mem1[q], own1[q], root);
    }
  }

  /** root has grown by zero pages at lo..a. */
  ghost predicate Grew(mem0: seq<Page>, own0: seq<Own>, mem: seq<Page>, own: seq<Own>, root: nat, lo: nat, a: nat,
                       perm: Perm)
  {
    Built(mem0, own0, mem, own, root) && MapsKept(mem0, own0, mem, root, lo, a) && Zeroed(mem, root, lo, a, perm)
  }

  /** Undoing a growth from lo to a leaves the flat maps and all pages but free ones and tables of root
      as they were before it. */
  lemma RolledBack(mem0: seq<Page>, own0: seq<Own>, mem1: seq<Page>, own1: seq<Own>, mem2: seq<Page>, own2: seq<Own>,
                   root: nat, lo: nat, a: nat)
    requires TreeOk(mem0, own0) && IsRoot(own0, root) && lo <= a <= TRAPFRAME
    requires Built(mem0, own0, mem1, own1, root) && MapsKept(mem0, own0, mem1, root, lo, a)
    requires forall v: nat :: lo <= v < TRAPFRAME ==> !Lookup(mem0, root, v).v
    requires Unmapped(mem1, own1, mem2, own2, root, lo, a)
    ensures Built(mem0, own0, mem2, own2, root) && MapsKept(mem0, own0, mem2, root, lo, lo)
  {
    forall q: nat | 0 < q < |own0| ensures PageBuilt(mem0[q], own0[q], mem2[q], own2[q], root) {
      assert PageBuilt(mem0[q], own0[q], mem1[q], own1[q], root);
      assert PageUnmapped(mem1[q], own1[q], mem2[q], own2[q], root, lo, a);
      if own0[q].User? { UserFinds(mem0, own0, q); }
    }
    forall r: nat, v: nat | IsRoot(own0, r) && v < MAXVPN ensures Lookup(mem2, r, v) == Lookup(mem0, r, v) {
      BuiltRoot(mem0, own0, mem1, own1, root, r);
      if r == root && lo <= v < a { EmptyEntry(mem0, own0, root, v); }
    }
  }

  /** n mapped user pages need n distinct physical pages. */
  lemma MappedPages(mem: seq<Page>, own: seq<Own>, root: nat, n: nat) returns (s: set<nat>)
    requires TreeOk(mem, own) && IsRoot(own, root) && n <= TRAPFRAME && AllMapped(mem, root, n)
    ensures |s| == n
    ensures forall q :: q in s ==> 0 < q < |own| && own[q].User? && own[q].root == root && own[q].vpn < n
  {
    if n == 0 {
      s := {};
    } else {
      var s1 := MappedPages(mem, own, root, n - 1);
      LookupOwned(mem, own, root, n - 1);
      s := s1 + {Lookup(mem, root, n - 1).page};
    }
  }

  lemma RangeSize(s: set<nat>, n: nat)
    requires forall q :: q in s ==> 0 < q <= n
    ensures |s| <= n
  {
    if n > 0 {
      RangeSize(s - {n}, n - 1);
      assert |s| <= |s - {n}| + 1;
    } else {
      assert s == {};
    }
  }

  lemma MappedBound(mem: seq<Page>, own: seq<Own>, root: nat, n: nat)
    requires TreeOk(mem, own) && IsRoot(own, root) && n <= TRAPFRAME && AllMapped(mem, root, n)
    ensures n < |own|
  {
    var s := MappedPages(mem, own, root, n);
    RangeSize(s, |own| - 1);
  }

  /** The next page number a growing image needs is a user page and still empty. */
  lemma RoomToMap(mem0: seq<Page>, own0: seq<Own>, mem: seq<Page>, own: seq<Own>, root: nat, oldsz: nat, a: nat,
                  newsz: nat, perm: Perm)
    requires Image(mem0, own0, root, oldsz)
    requires newsz <= USER_LIMIT || (|mem0| <= TRAPFRAME && AllMapped(mem0, root, Pages(oldsz)))
    requires TreeOk(mem, own) && IsRoot(own, root) && |mem| == |mem0| && Pages(oldsz) <= a <= TRAPFRAME
    requires MapsKept(mem0, own0, mem, root, Pages(oldsz), a) && Zeroed(mem, root, Pages(oldsz), a, perm)
    requires a * PGSIZE < newsz
    ensures a < TRAPFRAME && !Lookup(mem, root, a).v
  {
    if newsz > USER_LIMIT {
      assert AllMapped(mem, root, a);
      MappedBound(mem, own, root, a);
    }
  }

  predicate PageDestroyed(m0: Page, w0: Own, m1: Page, w1: Own, root: nat) {
    if OfRoot(w0, root) then w1.Free? else w1 == w0 && m1 == m0
  }

  /** Every page of root is free now; no other page changed. */
  ghost predicate Destroyed(mem0: seq<Page>, own0: seq<Own>, mem1: seq<Page>, own1: seq<Own>, root: nat) {
    && |mem0| == |own0| == |mem1| == |own1|
    && forall q: nat :: 0 < q < |own0| ==> PageDestroyed(mem0[q], own0[q], mem1[q], own1[q], root)
  }

  predicate PageRestored(m0: Page, w0: Own, m1: Page, w1: Own) {
    if w0.Free? then w1.Free? else w1 == w0 && m1 == m0
  }

  /** The free pages are the same pages as before, and all others are untouched. */
  ghost predicate Restored(mem0: seq<Page>, own0: seq<Own>, mem1: seq<Page>, own1: seq<Own>) {
    && |mem0| == |own0| == |mem1| == |own1|
    && forall q: nat :: 0 < q < |own0| ==> PageRestored(mem0[q], own0[q], mem1[q], own1[q])
  }

  /** The prefix of a table lies below MAXVA. */
  lemma TableBound(mem: seq<Page>, own: seq<Own>, q: nat)
    requires TreeOk(mem, own) && 0 < q < |own| && own[q].Table?
    ensures own[q].level <= 2 && Under(own[q], own[q].root, 2, 0)
    ensures IsRoot(own, own[q].root)
  {
    assert UpOk(mem, own, q);
    var u := own[q].up;
    if u != 0 {
      assert SlotsOk(mem, own, u);
      assert SlotOk(own, u, own[u], own[q].prefix % 512, mem[u].ptes[own[q].prefix % 512]);
      assert UpOk(mem, own, u);
      if own[u].up != 0 { assert UpOk(mem, own, own[u].up); }
    }
  }

  /** A page that is not a root owns nothing. */
  lemma NoOrphans(mem: seq<Page>, own: seq<Own>, root: nat, q: nat)
    requires TreeOk(mem, own) && 0 < q < |own| && OfRoot(own[q], root)
    ensures IsRoot(own, root)
  {
    if own[q].User? { UserFinds(mem, own, q); } else { TableBound(mem, own, q); }
  }

  /** An empty flat map leaves nothing for freewalk() to panic about. */
  lemma EmptyNoLeaves(mem: seq<Page>, own: seq<Own>, root: nat)
    requires TreeOk(mem, own) && forall v: nat :: v < MAXVPN ==> !Lookup(mem, root, v).v
    ensures NoLeaves(mem, own, root)
  {
    forall q: nat | 0 < q < |own| && own[q].Table? && own[q].root == root && own[q].level == 0
      ensures mem[q].Entries? && Vacant(mem[q].ptes)
    {
      assert SlotsOk(mem, own, q);
      forall i: nat | i < 512 ensures !mem[q].ptes[i].v {
        assert SlotOk(own, q, own[q], i, mem[q].ptes[i]);
        var v := own[q].prefix * 512 + i;
        if v < MAXVPN {
          WalkedFinds(mem, own, root, v, q);
          assert Lookup(mem, root, v) == mem[q].ptes[i];
        }
      }
    }
  }

  /** Unmapping all user pages and then tearing down the tables destroys the whole of root. */
  lemma UnmappedTorn(mem0: seq<Page>, own0: seq<Own>, mem1: seq<Page>, own1: seq<Own>, mem2: seq<Page>, own2: seq<Own>,
                     root: nat, n: nat)
    requires TreeOk(mem0, own0) && IsRoot(own0, root) && TreeOk(mem1, own1)
    requires Unmapped(mem0, own0, mem1, own1, root, 0, n) && Torn(mem1, own1, mem2, own2, root, 2, 0)
    requires forall v: nat :: v < TRAPFRAME && Lookup(mem0, root, v).v ==> v < n
    ensures Destroyed(mem0, own0, mem2, own2, root)
  {
    forall q: nat | 0 < q < |own0| ensures PageDestroyed(mem0[q], own0[q], mem2[q], own2[q], root) {
      assert PageUnmapped(mem0[q], own0[q], mem1[q], own1[q], root, 0, n);
      assert PageTorn(mem1[q], own1[q], mem2[q], own2[q], Under(own1[q], root, 2, 0), false);
      if own0[q].User? { UserFinds(mem0, own0, q); }
      if own1[q].Table? { TableBound(mem1, own1, q); }
    }
  }

  /** What root built on pages that were free goes back when root is destroyed. */
  lemma BuiltDestroyed(mem0: seq<Page>, own0: seq<Own>, mem1: seq<Page>, own1: seq<Own>, mem2: seq<Page>, own2: seq<Own>,
                       root: nat)
    requires TreeOk(mem0, own0) && 0 < root < |own0| && own0[root].Free?
    requires Built(mem0, own0, mem1, own1, root) && Destroyed(mem1, own1, mem2, own2, root)
    ensures Restored(mem0, own0, mem2, own2)
  {
    forall q: nat | 0 < q < |own0| ensures PageRestored(mem0[q], own0[q], mem2[q], own2[q]) {
      assert PageBuilt(mem0[q], own0[q], mem1[q], own1[q], root);
      assert PageDestroyed(mem1[q], own1[q], mem2[q], own2[q], root);
      if OfRoot(own0[q], root) { NoOrphans(mem0, own0, root, q); }
    }
  }

  /** A page table whose own pages are untouched shows the same flat map. */
  lemma OthersKept(mem0: seq<Page>, own0: seq<Own>, mem1: seq<Page>, own1: seq<Own>, r: nat, v: nat)
    requires TreeOk(mem0, own0) && TreeOk(mem1, own1) && |own0| == |own1| && IsRoot(own0, r) && v < MAXVPN
    requires forall q: nat :: 0 < q < |own0| && OfRoot(own0[q], r) ==> own1[q] == own0[q] && mem1[q] == mem0[q]
    requires forall q: nat :: 0 < q < |own0| && OfRoot(own1[q], r) ==> own0[q] == own1[q]
    ensures IsRoot(own1, r) && Lookup(mem1, r, v) == Lookup(mem0, r, v)
    ensures v < TRAPFRAME && Lookup(mem0, r, v).v ==>
              var q := Lookup(mem0, r, v).page; q < |mem0| == |mem1| && mem1[q] == mem0[q]
  {
    forall p: nat | IsTable(own0, p, r, 0, v / 512) ensures mem0[p].Entries? { assert SlotsOk(mem0, own0, p); }
    LookupSame(mem0, own0, mem1, own1, r, v);
    if v < TRAPFRAME && Lookup(mem0, r, v).v { LookupOwned(mem0, own0, r, v); }
  }

  /** An empty page becomes the root of an empty page table. */
  lemma NewRoot(mem0: seq<Page>, own0: seq<Own>, mem1: seq<Page>, own1: seq<Own>, root: nat)
    requires TreeOk(mem0, own0) && 0 < root < |own0| && own0[root].Kernel?
    requires mem1 == mem0[root := Entries(NoEntries())] && own1 == own0[root := Table(root, 2, 0, 0)]
    ensures TreeOk(mem1, own1) && forall v: nat :: v < MAXVPN ==> Lookup(mem1, root, v) == NO_PTE
    ensures SameMaps(mem0, own0, mem1)
  {
    forall p: nat | 0 < p < |own1| ensures SlotsOk(mem1, own1, p) && UpOk(mem1, own1, p) {
      assert SlotsOk(mem0, own0, p) && UpOk(mem0, own0, p);
      if own1[p].Table? {
        forall i: nat | i < 512 ensures SlotOk(own1, p, own1[p], i, mem1[p].ptes[i]) {
          assert p != root ==> SlotOk(own0, p, own0[p], i, mem0[p].ptes[i]);
        }
      }
    }
    forall r: nat, v: nat | IsRoot(own0, r) && v < MAXVPN ensures Lookup(mem1, r, v) == Lookup(mem0, r, v) {
      forall p: nat | IsTable(own0, p, r, 0, v / 512) ensures mem0[p].Entries? { assert SlotsOk(mem0, own0, p); }
      LookupSame(mem0, own0, mem1, own1, r, v);
    }
  }

  /** Mapping one of the two top pages is a step of building. */
  lemma TopMapped(mem0: seq<Page>, own0: seq<Own>, mem1: seq<Page>, own1: seq<Own>, root: nat, a: nat, k: nat,
                  page: nat, perm: Perm)
    requires Mapped(mem0, own0, mem1, own1, root, a, k, page, perm) && a >= TRAPFRAME
    ensures Built(mem0, own0, mem1, own1, root) && MapsKept(mem0, own0, mem1, root, a, a + k)
  {
    forall q: nat | 0 < q < |own0| ensures PageBuilt(mem0[q], own0[q], mem1[q], own1[q], root) {
      assert PageMapped(mem0[q], own0[q], mem1[q], own1[q], root, Given(q, a, k, page), a + (q - page));
    }
  }

  /** So is unmapping one. */
  lemma TopUnmapped(mem0: seq<Page>, own0: seq<Own>, mem1: seq<Page>, own1: seq<Own>, root: nat, a: nat)
    requires TreeOk(mem0, own0) && Unmapped(mem0, own0, mem1, own1, root, a, a + 1) && a >= TRAPFRAME
    ensures Built(mem0, own0, mem1, own1, root) && MapsKept(mem0, own0, mem1, root, a, a + 1)
  {
    forall q: nat | 0 < q < |own0| ensures PageBuilt(mem0[q], own0[q], mem1[q], own1[q], root) {
      assert PageUnmapped(mem0[q], own0[q], mem1[q], own1[q], root, a, a + 1);
      if own0[q].User? { UserFinds(mem0, own0, q); }
    }
  }

  lemma BuiltStep(mem0: seq<Page>, own0: seq<Own>, mem1: seq<Page>, own1: seq<Own>, mem2: seq<Page>, own2: seq<Own>,
                  root: nat)
    requires Built(mem0, own0, mem1, own1, root) && Built(mem1, own1, mem2, own2, root)
    ensures Built(mem0, own0, mem2, own2, root)
  {
    forall q: nat | 0 < q < |own0| ensures PageBuilt(mem0[q], own0[q], mem2[q], own2[q], root) {
      assert PageBuilt(mem0[q], own0[q], mem1[q], own1[q], root);
      assert PageBuilt(mem1[q], own1[q], mem2[q], own2[q], root);
    }
  }

  const TRAMPOLINE_PERM := Perm(true, false, true, false)
  const TRAPFRAME_PERM := Perm(true, true, false, false)

  /** A page table with only the trampoline and the trapframe mapped. */
  ghost predicate Blank(mem: seq<Page>, root: nat, trampoline: nat, trapframe: nat) {
    forall v: nat :: v < MAXVPN ==>
      Lookup(mem, root, v) == if v == TRAMPOLINE then Pte(true, trampoline, TRAMPOLINE_PERM)
                              else if v == TRAPFRAME then Pte(true, trapframe, TRAPFRAME_PERM)
                              else NO_PTE
  }

  /** Unmapping the two top pages before destroying the rest changes nothing but tables of root. */
  lemma TopsDestroyed(mem0: seq<Page>, own0: seq<Own>, mem1: seq<Page>, own1: seq<Own>, mem2: seq<Page>, own2: seq<Own>,
                      mem3: seq<Page>, own3: seq<Own>, root: nat)
    requires TreeOk(mem0, own0) && TreeOk(mem1, own1)
    requires Unmapped(mem0, own0, mem1, own1, root, TRAMPOLINE, TRAMPOLINE + 1)
    requires Unmapped(mem1, own1, mem2, own2, root, TRAPFRAME, TRAPFRAME + 1)
    requires Destroyed(mem2, own2, mem3, own3, root)
    ensures Destroyed(mem0, own0, mem3, own3, root)
  {
    forall q: nat | 0 < q < |own0| ensures PageDestroyed(mem0[q], own0[q], mem3[q], own3[q], root) {
      assert PageUnmapped(mem0[q], own0[q], mem1[q], own1[q], root, TRAMPOLINE, TRAMPOLINE + 1);
      assert PageUnmapped(mem1[q], own1[q], mem2[q], own2[q], root, TRAPFRAME, TRAPFRAME + 1);
      assert PageDestroyed(mem2[q], own2[q], mem3[q], own3[q], root);
      if own0[q].User? { UserFinds(mem0, own0, q); }
      if own1[q].User? { UserFinds(mem1, own1, q); }
    }
  }

  /** Page number v of table r is a user page holding these bytes. */
  ghost predicate Holds(mem: seq<Page>, r: nat, v: nat, perm: Perm, bytes: Frame) {
    var e := Lookup(mem, r, v);
    e.v && e.perm == perm && e.page < |mem| && mem[e.page] == Bytes(bytes)
  }

  /** Page number v of the two tables: both unmapped, or both mapped with the same permission and bytes
      on different pages. */
  ghost predicate PageCopied(mem: seq<Page>, oldr: nat, newr: nat, v: nat) {
    var e, f := Lookup(mem, oldr, v), Lookup(mem, newr, v);
    && e.v == f.v
    && (e.v ==> e.perm == f.perm && e.page != f.page && e.page < |mem| && f.page < |mem|
                && mem[e.page].Bytes? && mem[f.page] == mem[e.page])
  }

  ghost predicate Copied(mem: seq<Page>, oldr: nat, newr: nat, n: nat) {
    forall v: nat :: v < n ==> PageCopied(mem, oldr, newr, v)
  }

  /** Building elsewhere does not disturb a user page. */
  lemma UserKept(mem0: seq<Page>, own0: seq<Own>, mem1: seq<Page>, own1: seq<Own>, root: nat, r: nat, v: nat)
    requires TreeOk(mem0, own0) && IsRoot(own0, r) && v < TRAPFRAME && Lookup(mem0, r, v).v
    requires Built(mem0, own0, mem1, own1, root)
    ensures var q := Lookup(mem0, r, v).page;
            && 0 < q < |mem0| == |mem1| && mem1[q] == mem0[q] && mem0[q].Bytes? && own0[q].User? && own1[q] == own0[q]
            && own0[q].root == r
  {
    LookupOwned(mem0, own0, r, v);
    var q := Lookup(mem0, r, v).page;
    assert PageBuilt(mem0[q], own0[q], mem1[q], own1[q], root);
  }

  lemma CopiedKept(mem0: seq<Page>, own0: seq<Own>, mem1: seq<Page>, own1: seq<Own>, oldr: nat, newr: nat, a: nat)
    requires TreeOk(mem0, own0) && IsRoot(own0, oldr) && IsRoot(own0, newr) && oldr != newr && a < TRAPFRAME
    requires Copied(mem0, oldr, newr, a) && Built(mem0, own0, mem1, own1, newr)
    requires MapsKept(mem0, own0, mem1, newr, a, a + 1)
    ensures Copied(mem1, oldr, newr, a)
  {
    forall v: nat | v < a ensures PageCopied(mem1, oldr, newr, v) {
      assert PageCopied(mem0, oldr, newr, v);
      if Lookup(mem0, oldr, v).v {
        UserKept(mem0, own0, mem1, own1, newr, oldr, v);
        UserKept(mem0, own0, mem1, own1, newr, newr, v);
      }
    }
  }

  /** newr has taken over the pages of oldr below i, from mem0 on. */
  ghost predicate Copying(mem0: seq<Page>, own0: seq<Own>, mem: seq<Page>, own: seq<Own>, oldr: nat, newr: nat, i: nat) {
    Built(mem0, own0, mem, own, newr) && MapsKept(mem0, own0, mem, newr, 0, i) && Copied(mem, oldr, newr, i)
  }

  /** One more page: copied, or not there in either image. */
  lemma CopyingNext(mem0: seq<Page>, own0: seq<Own>, mem1: seq<Page>, own1: seq<Own>, mem2: seq<Page>, own2: seq<Own>,
                    oldr: nat, newr: nat, a: nat, q: nat)
    requires TreeOk(mem1, own1) && IsRoot(own1, oldr) && IsRoot(own1, newr) && oldr != newr && a < TRAPFRAME
    requires Copying(mem0, own0, mem1, own1, oldr, newr, a) && Lookup(mem1, oldr, a).v
    requires Built(mem1, own1, mem2, own2, newr) && MapsKept(mem1, own1, mem2, newr, a, a + 1)
    requires 0 < q < |own1| && own1[q].Free? && Lookup(mem2, newr, a) == Pte(true, q, Lookup(mem1, oldr, a).perm)
    requires var p := Lookup(mem1, oldr, a).page; p < |mem1| && mem2[q] == mem1[p]
    ensures Copying(mem0, own0, mem2, own2, oldr, newr, a + 1)
  {
    BuiltTrans(mem0, own0, mem1, own1, mem2, own2, newr, 0, a, a + 1);
    CopiedKept(mem1, own1, mem2, own2, oldr, newr, a);
    CopiedHere(mem1, own1, mem2, own2, oldr, newr, a, q);
  }

  lemma CopyingSkip(mem0: seq<Page>, own0: seq<Own>, mem: seq<Page>, own: seq<Own>, oldr: nat, newr: nat, a: nat)
    requires IsRoot(own0, newr) && Copying(mem0, own0, mem, own, oldr, newr, a) && a < TRAPFRAME
    requires !Lookup(mem, oldr, a).v && !Lookup(mem0, newr, a).v
    ensures Copying(mem0, own0, mem, own, oldr, newr, a + 1)
  {
    assert Lookup(mem, newr, a) == Lookup(mem0, newr, a);
  }

  /** The page just copied. */
  lemma CopiedHere(mem0: seq<Page>, own0: seq<Own>, mem1: seq<Page>, own1: seq<Own>, oldr: nat, newr: nat, a: nat, q: nat)
    requires TreeOk(mem0, own0) && IsRoot(own0, oldr) && oldr != newr && a < TRAPFRAME && Lookup(mem0, oldr, a).v
    requires Built(mem0, own0, mem1, own1, newr) && MapsKept(mem0, own0, mem1, newr, a, a + 1)
    requires 0 < q < |own0| && own0[q].Free? && Lookup(mem1, newr, a) == Pte(true, q, Lookup(mem0, oldr, a).perm)
    requires var p := Lookup(mem0, oldr, a).page; p < |mem0| && mem1[q] == mem0[p]
    ensures PageCopied(mem1, oldr, newr, a)
  {
    UserKept(mem0, own0, mem1, own1, newr, oldr, a);
  }

  /** What a process sees at a page number: nothing, or a permission and bytes. Pages below sz that
      have not been allocated yet read as zeroes. */
  datatype Cell = NoCell | Cell(perm: Perm, bytes: Frame)

  const LAZY_PERM := Perm(true, true, false, true)

  function CellOf(mem: seq<Page>, root: nat, sz: nat, v: nat): Cell {
    var e := Lookup(mem, root, v);
    if e.v then if e.page < |mem| && mem[e.page].Bytes? then Cell(e.perm, mem[e.page].bytes) else NoCell
    else if v * PGSIZE < sz then Cell(LAZY_PERM, Zeroes())
    else NoCell
  }

  ghost predicate CellsKept(mem0: seq<Page>, mem1: seq<Page>, root: nat, sz: nat) {
    forall v: nat :: v < TRAPFRAME ==> CellOf(mem1, root, sz, v) == CellOf(mem0, root, sz, v)
  }

  /** The two top pages are out of the user's reach. */
  ghost predicate TopsGuarded(mem: seq<Page>, root: nat) {
    !Lookup(mem, root, TRAMPOLINE).perm.u && !Lookup(mem, root, TRAPFRAME).perm.u
  }

  /** The two top pages are mapped as they were. */
  ghost predicate TopsSame(mem0: seq<Page>, mem1: seq<Page>, root: nat) {
    && Lookup(mem1, root, TRAMPOLINE) == Lookup(mem0, root, TRAMPOLINE)
    && Lookup(mem1, root, TRAPFRAME) == Lookup(mem0, root, TRAPFRAME)
  }

  /** A page fault that maps a zero page below sz changes no image. */
  lemma FaultKeepsCells(mem0: seq<Page>, own0: seq<Own>, mem1: seq<Page>, own1: seq<Own>, root: nat, sz: nat, a: nat)
    requires TreeOk(mem0, own0) && IsRoot(own0, root) && a < TRAPFRAME && a * PGSIZE < sz
    requires Built(mem0, own0, mem1, own1, root) && MapsKept(mem0, own0, mem1, root, a, a + 1)
    requires !Lookup(mem0, root, a).v && Holds(mem1, root, a, LAZY_PERM, Zeroes())
    ensures CellsKept(mem0, mem1, root, sz)
  {
    forall v: nat | v < TRAPFRAME ensures CellOf(mem1, root, sz, v) == CellOf(mem0, root, sz, v) {
      if v != a && Lookup(mem0, root, v).v { UserKept(mem0, own0, mem1, own1, root, root, v); }
    }
  }

  lemma NoChangeKeepsCells(mem0: seq<Page>, own0: seq<Own>, mem1: seq<Page>, own1: seq<Own>, root: nat, sz: nat, a: nat)
    requires TreeOk(mem0, own0) && IsRoot(own0, root)
    requires Built(mem0, own0, mem1, own1, root) && MapsKept(mem0, own0, mem1, root, a, a)
    ensures CellsKept(mem0, mem1, root, sz)
  {
    forall v: nat | v < TRAPFRAME ensures CellOf(mem1, root, sz, v) == CellOf(mem0, root, sz, v) {
      if Lookup(mem0, root, v).v { UserKept(mem0, own0, mem1, own1, root, root, v); }
    }
  }

  /** The user may read the page with number v. */
  predicate PageReadable(mem: seq<Page>, root: nat, sz: nat, v: nat) {
    v < TRAPFRAME && var c := CellOf(mem, root, sz, v); c.Cell? && c.perm.u
  }

  predicate PageWritable(mem: seq<Page>, root: nat, sz: nat, v: nat) {
    PageReadable(mem, root, sz, v) && CellOf(mem, root, sz, v).perm.w
  }

  predicate Readable(mem: seq<Page>, root: nat, sz: nat, va: nat) { PageReadable(mem, root, sz, va / PGSIZE) }

  predicate Writable(mem: seq<Page>, root: nat, sz: nat, va: nat) { PageWritable(mem, root, sz, va / PGSIZE) }

  /** Page number v of root is present, on page q, and the user may read it. */
  predicate Present(mem: seq<Page>, root: nat, sz: nat, v: nat, q: nat) {
    && PageReadable(mem, root, sz, v) && Lookup(mem, root, v).v && Lookup(mem, root, v).page == q
    && 0 < q < |mem| && mem[q].Bytes?
  }

  /** Faults may have happened, but the image of root is the same. */
  ghost predicate Faulted(mem0: seq<Page>, own0: seq<Own>, mem1: seq<Page>, own1: seq<Own>, root: nat, sz: nat) {
    Built(mem0, own0, mem1, own1, root) && CellsKept(mem0, mem1, root, sz) && TopsSame(mem0, mem1, root)
  }

  lemma FaultedTrans(mem0: seq<Page>, own0: seq<Own>, mem1: seq<Page>, own1: seq<Own>, mem2: seq<Page>, own2: seq<Own>,
                     root: nat, sz: nat)
    requires Faulted(mem0, own0, mem1, own1, root, sz) && Faulted(mem1, own1, mem2, own2, root, sz)
    ensures Faulted(mem0, own0, mem2, own2, root, sz)
  {
    BuiltStep(mem0, own0, mem1, own1, mem2, own2, root);
    forall v: nat | v < TRAPFRAME ensures CellOf(mem2, root, sz, v) == CellOf(mem0, root, sz, v) {
      assert CellOf(mem1, root, sz, v) == CellOf(mem0, root, sz, v);
    }
  }

  /** The byte at a readable address. */
  function ByteAt(mem: seq<Page>, root: nat, sz: nat, va: nat): byte {
    var c := CellOf(mem, root, sz, va / PGSIZE);
    if c.Cell? then c.bytes[va % PGSIZE] else 0
  }

  /** Bytes dst are what addresses lo..lo+|dst| hold, all of them readable. */
  ghost predicate ReadsAs(mem: seq<Page>, root: nat, sz: nat, lo: nat, dst: seq<byte>) {
    forall a: nat :: lo <= a < lo + |dst| ==> Readable(mem, root, sz, a) && dst[a - lo] == ByteAt(mem, root, sz, a)
  }

  /** One more chunk of a read, inside one page. */
  lemma ReadNext(mem0: seq<Page>, mem: seq<Page>, root: nat, sz: nat, lo: nat, dst: seq<byte>, v: nat, off: nat, n: nat,
                 q: nat)
    requires CellsKept(mem0, mem, root, sz) && ReadsAs(mem0, root, sz, lo, dst) && Present(mem, root, sz, v, q)
    requires lo + |dst| == v * PGSIZE + off && 0 < n <= PGSIZE - off
    ensures ReadsAs(mem0, root, sz, lo, dst + mem[q].bytes[off..off + n])
  {
    assert CellOf(mem0, root, sz, v) == CellOf(mem, root, sz, v);
    var d := dst + CellOf(mem, root, sz, v).bytes[off..off + n];
    forall a: nat | lo <= a < lo + |d| ensures Readable(mem0, root, sz, a) && d[a - lo] == ByteAt(mem0, root, sz, a) {
      if a >= lo + |dst| { assert a / PGSIZE == v && a % PGSIZE == off + (a - lo - |dst|); }
    }
  }

  /** Pages of other page tables and of the kernel are untouched. */
  predicate PagePrivate(m0: Page, w0: Own, m1: Page, w1: Own, root: nat) {
    if w0.Free? then w1.Free? || OfRoot(w1, root) else w1 == w0 && (m1 == m0 || OfRoot(w0, root))
  }

  ghost predicate Private(mem0: seq<Page>, own0: seq<Own>, mem1: seq<Page>, own1: seq<Own>, root: nat) {
    && |mem0| == |own0| == |mem1| == |own1|
    && forall q: nat :: 0 < q < |own0| ==> PagePrivate(mem0[q], own0[q], mem1[q], own1[q], root)
  }

  lemma PrivateBuilt(mem0: seq<Page>, own0: seq<Own>, mem1: seq<Page>, own1: seq<Own>, mem2: seq<Page>, own2: seq<Own>,
                     root: nat)
    requires Private(mem0, own0, mem1, own1, root) && Built(mem1, own1, mem2, own2, root)
    ensures Private(mem0, own0, mem2, own2, root)
  {
    forall q: nat | 0 < q < |own0| ensures PagePrivate(mem0[q], own0[q], mem2[q], own2[q], root) {
      assert PagePrivate(mem0[q], own0[q], mem1[q], own1[q], root);
      assert PageBuilt(mem1[q], own1[q], mem2[q], own2[q], root);
    }
  }

  /** Writing bytes into a user page changes no table. */
  lemma UserWrite(mem: seq<Page>, own: seq<Own>, q: nat, bytes: Frame)
    requires TreeOk(mem, own) && 0 < q < |own| && own[q].User?
    ensures TreeOk(mem[q := Bytes(bytes)], own) && SameMaps(mem, own, mem[q := Bytes(bytes)])
  {
    var mem2 := mem[q := Bytes(bytes)];
    forall p: nat | 0 < p < |own| ensures SlotsOk(mem2, own, p) && UpOk(mem2, own, p) {
      assert SlotsOk(mem, own, p) && UpOk(mem, own, p);
    }
    forall r: nat, v: nat | IsRoot(own, r) && v < MAXVPN ensures Lookup(mem2, r, v) == Lookup(mem, r, v) {
      forall p: nat | IsTable(own, p, r, 0, v / 512) ensures mem[p].Entries? { assert SlotsOk(mem, own, p); }
      LookupSame(mem, own, mem2, own, r, v);
    }
  }

  /** The bytes of page v after the first n bytes of src went to addresses from va on. */
  ghost predicate BytesWritten(b0: Frame, b1: Frame, v: nat, va: nat, src: seq<byte>, n: nat)
    requires n <= |src|
  {
    forall k: nat :: k < PGSIZE ==>
      b1[k] == if va <= v * PGSIZE + k < va + n then src[v * PGSIZE + k - va] else b0[k]
  }

  ghost predicate CellWritten(c0: Cell, c1: Cell, v: nat, va: nat, src: seq<byte>, n: nat)
    requires n <= |src|
  {
    if c0.Cell? then c1.Cell? && c1.perm == c0.perm && BytesWritten(c0.bytes, c1.bytes, v, va, src, n) else c1 == c0
  }

  /** The image of root is the old one with the first n bytes of src written at va. */
  ghost predicate Wrote(mem0: seq<Page>, mem1: seq<Page>, root: nat, sz: nat, va: nat, src: seq<byte>, n: nat)
    requires n <= |src|
  {
    TopsSame(mem0, mem1, root) && forall v: nat :: v < TRAPFRAME ==> CellWritten(CellOf(mem0, root, sz, v), CellOf(mem1, root, sz, v), v, va, src, n)
  }

  /** memmove() of a chunk into page bytes. */
  function Put(b: Frame, off: nat, chunk: seq<byte>): Frame
    requires off + |chunk| <= PGSIZE
  {
    b[..off] + chunk + b[off + |chunk|..]
  }

  /** Faults do not disturb what has been written. */
  lemma WroteFaulted(mem0: seq<Page>, own0: seq<Own>, mem1: seq<Page>, own1: seq<Own>, mem2: seq<Page>, own2: seq<Own>,
                     root: nat, sz: nat, va: nat, src: seq<byte>, n: nat)
    requires n <= |src| && Private(mem0, own0, mem1, own1, root) && Wrote(mem0, mem1, root, sz, va, src, n)
    requires Faulted(mem1, own1, mem2, own2, root, sz)
    ensures Private(mem0, own0, mem2, own2, root) && Wrote(mem0, mem2, root, sz, va, src, n)
  {
    PrivateBuilt(mem0, own0, mem1, own1, mem2, own2, root);
    forall v: nat | v < TRAPFRAME
      ensures CellWritten(CellOf(mem0, root, sz, v), CellOf(mem2, root, sz, v), v, va, src, n)
    {
      assert CellWritten(CellOf(mem0, root, sz, v), CellOf(mem1, root, sz, v), v, va, src, n);
      assert CellOf(mem2, root, sz, v) == CellOf(mem1, root, sz, v);
    }
  }

  /** One more chunk of k bytes, inside one page. */
  lemma WroteNext(mem0: seq<Page>, mem1: seq<Page>, own1: seq<Own>, root: nat, sz: nat, va: nat, src: seq<byte>, n: nat,
                  a: nat, off: nat, k: nat, q: nat)
    requires TreeOk(mem1, own1) && IsRoot(own1, root) && 0 < k && n + k <= |src| && Wrote(mem0, mem1, root, sz, va, src, n)
    requires va + n == a * PGSIZE + off && off + k <= PGSIZE && Present(mem1, root, sz, a, q)
    ensures own1[q].User? && own1[q].root == root
    ensures Wrote(mem0, mem1[q := Bytes(Put(mem1[q].bytes, off, src[n..n + k]))], root, sz, va, src, n + k)
  {
    var b1 := mem1[q].bytes;
    var b2 := Put(b1, off, src[n..n + k]);
    var mem2 := mem1[q := Bytes(b2)];
    LookupOwned(mem1, own1, root, a);
    UserWrite(mem1, own1, q, b2);
    forall v: nat | v < TRAPFRAME
      ensures CellWritten(CellOf(mem0, root, sz, v), CellOf(mem2, root, sz, v), v, va, src, n + k)
    {
      assert CellWritten(CellOf(mem0, root, sz, v), CellOf(mem1, root, sz, v), v, va, src, n);
      if v != a && Lookup(mem1, root, v).v { LookupOwned(mem1, own1, root, v); }
      if v == a { PutBytes(CellOf(mem0, root, sz, v).bytes, b1, v, va, src, n, off, k); }
      if v != a && CellOf(mem0, root, sz, v).Cell? {
        OtherPage(CellOf(mem0, root, sz, v).bytes, CellOf(mem1, root, sz, v).bytes, v, va, src, n, a, off, k);
      }
    }
  }

  lemma PutBytes(b0: Frame, b1: Frame, v: nat, va: nat, src: seq<byte>, n: nat, off: nat, k: nat)
    requires 0 < k && n + k <= |src| && va + n == v * PGSIZE + off && off + k <= PGSIZE
    requires BytesWritten(b0, b1, v, va, src, n)
    ensures BytesWritten(b0, Put(b1, off, src[n..n + k]), v, va, src, n + k)
  {
  }

  lemma OtherPage(b0: Frame, b1: Frame, v: nat, va: nat, src: seq<byte>, n: nat, a: nat, off: nat, k: nat)
    requires n + k <= |src| && va + n == a * PGSIZE + off && off + k <= PGSIZE && v != a
    requires BytesWritten(b0, b1, v, va, src, n)
    ensures BytesWritten(b0, b1, v, va, src, n + k)
  {
  }

  /** Changing the permission of a user entry moves no page. */
  lemma PermChange(mem: seq<Page>, own: seq<Own>, p: nat, i: nat, perm: Perm, mem2: seq<Page>)
    requires TreeOk(mem, own) && 0 < p < |own| && i < 512 && own[p].Table? && own[p].level == 0
    requires mem[p].Entries? && mem[p].ptes[i].v && (perm.r || perm.w || perm.x)
    requires mem2 == mem[p := Entries(mem[p].ptes[i := mem[p].ptes[i].(perm := perm)])]
    ensures TreeOk(mem2, own)
    ensures forall r: nat, v: nat :: IsRoot(own, r) && v < MAXVPN ==>
      Lookup(mem2, r, v)
      == if r == own[p].root && v == VpnOf(own[p], i) then Lookup(mem, r, v).(perm := perm) else Lookup(mem, r, v)
  {
    forall r: nat | 0 < r < |own| ensures SlotsOk(mem2, own, r) && UpOk(mem2, own, r) {
      assert SlotsOk(mem, own, r) && UpOk(mem, own, r);
      if own[r].Table? {
        forall j: nat | j < 512 ensures SlotOk(own, r, own[r], j, mem2[r].ptes[j]) {
          assert SlotOk(own, r, own[r], j, mem[r].ptes[j]);
        }
      }
    }
    EntryChange(mem, own, p, i, mem[p].ptes[i].(perm := perm), mem2, own);
    forall v: nat | v < MAXVPN && v == VpnOf(own[p], i) ensures Lookup(mem, own[p].root, v) == mem[p].ptes[i] {
      WalkedFinds(mem, own, own[p].root, v, p);
    }
  }

  /** Every page below n is mapped and open to the user. */
  ghost predicate Full(mem: seq<Page>, root: nat, n: nat) {
    forall v: nat :: v < n ==> Lookup(mem, root, v).v && Lookup(mem, root, v).perm.u
  }

  lemma PrivateTrans(mem0: seq<Page>, own0: seq<Own>, mem1: seq<Page>, own1: seq<Own>, mem2: seq<Page>, own2: seq<Own>,
                     root: nat)
    requires Private(mem0, own0, mem1, own1, root) && Private(mem1, own1, mem2, own2, root)
    ensures Private(mem0, own0, mem2, own2, root)
  {
    forall q: nat | 0 < q < |own0| ensures PagePrivate(mem0[q], own0[q], mem2[q], own2[q], root) {
      assert PagePrivate(mem0[q], own0[q], mem1[q], own1[q], root);
      assert PagePrivate(mem1[q], own1[q], mem2[q], own2[q], root);
    }
  }

  lemma BuiltPrivate(mem0: seq<Page>, own0: seq<Own>, mem1: seq<Page>, own1: seq<Own>, root: nat)
    requires Built(mem0, own0, mem1, own1, root)
    ensures Private(mem0, own0, mem1, own1, root)
  {
    forall q: nat | 0 < q < |own0| ensures PagePrivate(mem0[q], own0[q], mem1[q], own1[q], root) {
      assert PageBuilt(mem0[q], own0[q], mem1[q], own1[q], root);
    }
  }

  /** Whatever root did on pages that were free goes back when root is destroyed. */
  lemma PrivateDestroyed(mem0: seq<Page>, own0: seq<Own>, mem1: seq<Page>, own1: seq<Own>, mem2: seq<Page>, own2: seq<Own>,
                         root: nat)
    requires TreeOk(mem0, own0) && 0 < root < |own0| && own0[root].Free?
    requires Private(mem0, own0, mem1, own1, root) && Destroyed(mem1, own1, mem2, own2, root)
    ensures Restored(mem0, own0, mem2, own2)
  {
    forall q: nat | 0 < q < |own0| ensures PageRestored(mem0[q], own0[q], mem2[q], own2[q]) {
      assert PagePrivate(mem0[q], own0[q], mem1[q], own1[q], root);
      assert PageDestroyed(mem1[q], own1[q], mem2[q], own2[q], root);
      if OfRoot(own0[q], root) { NoOrphans(mem0, own0, root, q); }
    }
  }

  predicate PageMine(m0: Page, w0: Own, m1: Page, w1: Own, root: nat) {
    if w0.Free? || OfRoot(w0, root) then w1.Free? || OfRoot(w1, root) else w1 == w0 && m1 == m0
  }

  /** Only free pages and pages of root changed, and they stayed free or pages of root. */
  ghost predicate Only(mem0: seq<Page>, own0: seq<Own>, mem1: seq<Page>, own1: seq<Own>, root: nat) {
    && |mem0| == |own0| == |mem1| == |own1|
    && forall q: nat :: 0 < q < |own0| ==> PageMine(mem0[q], own0[q], mem1[q], own1[q], root)
  }

  lemma PrivateOnly(mem0: seq<Page>, own0: seq<Own>, mem1: seq<Page>, own1: seq<Own>, root: nat)
    requires Private(mem0, own0, mem1, own1, root)
    ensures Only(mem0, own0, mem1, own1, root)
  {
    forall q: nat | 0 < q < |own0| ensures PageMine(mem0[q], own0[q], mem1[q], own1[q], root) {
      assert PagePrivate(mem0[q], own0[q], mem1[q], own1[q], root);
    }
  }

  lemma UnmappedOnly(mem0: seq<Page>, own0: seq<Own>, mem1: seq<Page>, own1: seq<Own>, root: nat, lo: nat, hi: nat)
    requires Unmapped(mem0, own0, mem1, own1, root, lo, hi)
    ensures Only(mem0, own0, mem1, own1, root)
  {
    forall q: nat | 0 < q < |own0| ensures PageMine(mem0[q], own0[q], mem1[q], own1[q], root) {
      assert PageUnmapped(mem0[q], own0[q], mem1[q], own1[q], root, lo, hi);
    }
  }

  lemma DestroyedOnly(mem0: seq<Page>, own0: seq<Own>, mem1: seq<Page>, own1: seq<Own>, root: nat)
    requires Destroyed(mem0, own0, mem1, own1, root)
    ensures Only(mem0, own0, mem1, own1, root)
  {
    forall q: nat | 0 < q < |own0| ensures PageMine(mem0[q], own0[q], mem1[q], own1[q], root) {
      assert PageDestroyed(mem0[q], own0[q], mem1[q], own1[q], root);
    }
  }

  /** No operation on one page table can be seen through another. */
  lemma Isolation(mem0: seq<Page>, own0: seq<Own>, mem1: seq<Page>, own1: seq<Own>, root: nat, r: nat, sz: nat)
    requires TreeOk(mem0, own0) && TreeOk(mem1, own1) && IsRoot(own0, r) && r != root
    requires Only(mem0, own0, mem1, own1, root)
    ensures IsRoot(own1, r) && CellsKept(mem0, mem1, r, sz)
    ensures forall v: nat :: v < MAXVPN ==> Lookup(mem1, r, v) == Lookup(mem0, r, v)
    ensures Image(mem0, own0, r, sz) ==> Image(mem1, own1, r, sz)
  {
    forall q: nat | 0 < q < |own0|
      ensures OfRoot(own0[q], r) ==> own1[q] == own0[q] && mem1[q] == mem0[q]
      ensures OfRoot(own1[q], r) ==> own0[q] == own1[q]
    {
      assert PageMine(mem0[q], own0[q], mem1[q], own1[q], root);
    }
    forall v: nat | v < MAXVPN
      ensures IsRoot(own1, r) && Lookup(mem1, r, v) == Lookup(mem0, r, v)
      ensures v < TRAPFRAME ==> CellOf(mem1, r, sz, v) == CellOf(mem0, r, sz, v)
    {
      OthersKept(mem0, own0, mem1, own1, r, v);
    }
    OthersKept(mem0, own0, mem1, own1, r, 0);
  }

  /** Entry i of table p owns page q: it links a table, or maps a user page. */
  ghost predicate OwningEntry(mem: seq<Page>, own: seq<Own>, p: nat, i: nat, q: nat) {
    && 0 < p < |own| && own[p].Table? && i < 512 && Names(mem, p, i, q)
    && (own[p].level > 0 || VpnOf(own[p], i) < TRAPFRAME)
  }

  /** Every page is owned exactly once: it is on the free list, or a kernel page, or a root, or one
      entry of one table owns it. */
  lemma OwnedOnce(mem: seq<Page>, own: seq<Own>, freelist: nat, free: seq<nat>, q: nat)
    requires FreeListOk(mem, own, freelist, free) && TreeOk(mem, own) && 0 < q < |own|
    ensures q in free <==> own[q].Free?
    ensures (exists p: nat, i: nat :: OwningEntry(mem, own, p, i, q))
            <==> own[q].User? || (own[q].Table? && !IsRoot(own, q))
    ensures forall p: nat, i: nat, p1: nat, i1: nat ::
      OwningEntry(mem, own, p, i, q) && OwningEntry(mem, own, p1, i1, q) ==> p == p1 && i == i1
  {
    forall k: nat | k < |free| ensures free[k] < |own| && own[free[k]].Free? { assert RunOk(mem, own, free, k); }
    assert UpOk(mem, own, q);
    if own[q].User? {
      assert OwningEntry(mem, own, own[q].up, own[q].vpn % 512, q);
    } else if own[q].Table? && !IsRoot(own, q) {
      assert OwningEntry(mem, own, own[q].up, own[q].prefix % 512, q);
    }
    forall p: nat, i: nat | OwningEntry(mem, own, p, i, q)
      ensures own[q].User? || (own[q].Table? && !IsRoot(own, q))
      ensures p == own[q].up && i == (if own[q].User? then own[q].vpn else own[q].prefix) % 512
    {
      assert SlotsOk(mem, own, p);
      assert SlotOk(own, p, own[p], i, mem[p].ptes[i]);
    }
  }
}
