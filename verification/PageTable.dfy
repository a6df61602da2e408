/** Physical pages, their owners, and the three-level page tables of kernel/vm.c, as functions of the
    contents of memory. Vm.dfy holds the operations that change them. */
module PageTable {
  const PGSIZE: nat := 4096
  const MAXVPN: nat := 0x400_0000          // MAXVA / PGSIZE
  const TRAMPOLINE: nat := 0x3FF_FFFF      // page numbers of the two pages at the top
  const TRAPFRAME: nat := 0x3FF_FFFE

  type byte = x: nat | x < 256
  type Frame = b: seq<byte> | |b| == PGSIZE witness seq(PGSIZE, i => 0)

  function Zeroes(): (b: Frame)
    ensures forall i :: 0 <= i < PGSIZE ==> b[i] == 0
  {
    seq(PGSIZE, i => 0)
  }

  datatype Perm = Perm(r: bool, w: bool, x: bool, u: bool)

  /** A page table entry: the physical page it names and its flag bits. */
  datatype Pte = Pte(v: bool, page: nat, perm: Perm)

  const NONE := Perm(false, false, false, false)
  const NO_PTE := Pte(false, 0, NONE)

  predicate IsLeaf(e: Pte) { e.perm.r || e.perm.w || e.perm.x }

  type Entries = t: seq<Pte> | |t| == 512 witness seq(512, i => NO_PTE)

  function NoEntries(): (t: Entries)
    ensures forall i :: 0 <= i < 512 ==> t[i] == NO_PTE
  {
    seq(512, i => NO_PTE)
  }

  /** What a physical page holds at the moment. Page 0 stands for the null pointer. */
  datatype Page = Junk | Run(next: nat) | Entries(ptes: Entries) | Bytes(bytes: Frame)

  /** Who a page belongs to: the free list (with its height on the list), a kernel data structure,
      the tree of a page table, or one user mapping. `up` is the table page whose entry names it, 0
      for a root and for a subtree cut loose. The table of level l for page number v has prefix
      v / 512^(l+1). */
  datatype Own =
    | Free(height: nat)
    | Kernel
    | Table(root: nat, level: nat, prefix: nat, up: nat)
    | User(root: nat, vpn: nat, up: nat)

  predicate OfRoot(w: Own, root: nat) { (w.Table? || w.User?) && w.root == root }

  predicate IsTable(own: seq<Own>, p: nat, root: nat, level: nat, prefix: nat) {
    0 < p < |own| && own[p].Table? && own[p].root == root && own[p].level == level && own[p].prefix == prefix
  }

  predicate IsRoot(own: seq<Own>, root: nat) { 0 < root < |own| && own[root] == Table(root, 2, 0, 0) }

  /** How many entries of all the tables of a level lie below MAXVA. */
  function Span(level: nat): nat { if level == 0 then MAXVPN else if level == 1 then 131072 else 256 }

  /** Entry i of table p says what its owner says: an upper entry names the next table, an entry of a
      user page names a page mapped here and nowhere else. The two top pages own nothing. */
  predicate SlotOk(own: seq<Own>, p: nat, w: Own, i: nat, e: Pte)
    requires w.Table?
  {
    var v := w.prefix * 512 + i;
    if !e.v then e == NO_PTE
    else if v >= Span(w.level) then false
    else if w.level > 0 then !IsLeaf(e) && 0 < e.page < |own| && own[e.page] == Table(w.root, w.level - 1, v, p)
    else IsLeaf(e) && (v < TRAPFRAME ==> 0 < e.page < |own| && own[e.page] == User(w.root, v, p))
  }

  predicate SlotsOk(mem: seq<Page>, own: seq<Own>, p: nat)
    requires |mem| == |own| && p < |own|
  {
    own[p].Table? ==> mem[p].Entries? && forall i: nat :: i < 512 ==> SlotOk(own, p, own[p], i, mem[p].ptes[i])
  }

  /** Entry i of table p names page q. */
  predicate Names(mem: seq<Page>, p: nat, i: nat, q: nat)
    requires i < 512
  {
    p < |mem| && mem[p].Entries? && mem[p].ptes[i].v && mem[p].ptes[i].page == q
  }

  /** A page's owner is right about the entry that names it. */
  predicate UpOk(mem: seq<Page>, own: seq<Own>, p: nat)
    requires |mem| == |own| && p < |own|
  {
    match own[p]
    case Table(root, level, prefix, up) =>
      if up == 0 then own[p] == Table(p, 2, 0, 0)
      else level < 2 && IsTable(own, up, root, level + 1, prefix / 512) && Names(mem, up, prefix % 512, p)
    case User(root, vpn, up) =>
      && mem[p].Bytes? && vpn < TRAPFRAME
      && IsTable(own, up, root, 0, vpn / 512) && Names(mem, up, vpn % 512, p)
    case _ => true
  }

  ghost predicate TreeOk(mem: seq<Page>, own: seq<Own>) {
    && |mem| == |own|
    && (forall p: nat :: 0 < p < |own| ==> SlotsOk(mem, own, p))
    && (forall p: nat :: 0 < p < |own| ==> UpOk(mem, own, p))
  }

  /** The index of a virtual address at a level: the macro PX of kernel/riscv.h, a shift by 12 + 9 * level bits
      and a mask of nine, section 4.4 of the RISC-V Privileged Architecture manual. */
  function PX(level: nat, va: nat): (i: nat)
    requires level < 3
    ensures i < 512
  {
    va / (if level == 0 then 0x1000 else if level == 1 then 0x20_0000 else 0x4000_0000) % 512
  }

  /** The indices of an address are those of its page number, and below MAXVA they tell pages apart. */
  lemma PageIndices(va: nat)
    ensures var v := va / PGSIZE;
            PX(0, va) == v % 512 && PX(1, va) == v / 512 % 512 && PX(2, va) == v / 512 / 512 % 512
    ensures va < MAXVPN * PGSIZE ==> va / PGSIZE == PX(2, va) * 262144 + PX(1, va) * 512 + PX(0, va)
  {
    var v := va / PGSIZE;
    assert va / 0x20_0000 == v / 512 && va / 0x4000_0000 == v / 512 / 512;
  }

  /** An entry as a word of memory: the page number above ten flag bits, of which V, R, W, X and U are used. */
  function Flags(e: Pte): (f: nat)
    ensures f < 1024
  {
    (if e.v then 1 else 0) + (if e.perm.r then 2 else 0) + (if e.perm.w then 4 else 0) + (if e.perm.x then 8 else 0)
    + (if e.perm.u then 16 else 0)
  }

  function ToWord(e: Pte): nat { e.page * 1024 + Flags(e) }

  function FromWord(w: nat): Pte {
    Pte(w % 2 == 1, w / 1024, Perm(w / 2 % 2 == 1, w / 4 % 2 == 1, w / 8 % 2 == 1, w / 16 % 2 == 1))
  }

  /** Packing an entry into a word loses nothing. */
  lemma WordRoundTrip(e: Pte)
    ensures FromWord(ToWord(e)) == e
  {
    var q, f, w := e.page, Flags(e), ToWord(e);
    LowBits(q, f);
    FlagBits(e);
    hide Flags;
    assert w / 1024 == q;
  }

  lemma LowBits(q: nat, f: nat)
    requires f < 1024
    ensures var w := q * 1024 + f;
            && w % 2 == f % 2 && w / 2 % 2 == f / 2 % 2 && w / 4 % 2 == f / 4 % 2 && w / 8 % 2 == f / 8 % 2
            && w / 16 % 2 == f / 16 % 2
  {
    var w := q * 1024 + f;
    Halves(w);
    Halves(f);
    Half(q * 512, f);
    Half(q * 256, f / 2);
    Half(q * 128, f / 4);
    Half(q * 64, f / 8);
    Half(q * 32, f / 16);
  }

  lemma Half(x: nat, f: nat)
    ensures (2 * x + f) / 2 == x + f / 2 && (2 * x + f) % 2 == f % 2
  {
  }

  lemma Halves(w: nat)
    ensures w / 4 == w / 2 / 2 && w / 8 == w / 4 / 2 && w / 16 == w / 8 / 2
  {
    assert w / 4 == w / 2 / 2;
    assert w / 8 == w / 4 / 2;
  }

  lemma FlagBits(e: Pte)
    ensures var f := Flags(e);
            && (f % 2 == 1 <==> e.v) && (f / 2 % 2 == 1 <==> e.perm.r) && (f / 4 % 2 == 1 <==> e.perm.w)
            && (f / 8 % 2 == 1 <==> e.perm.x) && (f / 16 % 2 == 1 <==> e.perm.u)
  {
  }

  /** The prefix of the table of the given level on the path to page vpn. */
  function PrefixAt(vpn: nat, level: nat): nat {
    if level == 0 then vpn / 512 else if level == 1 then vpn / 512 / 512 else vpn / 512 / 512 / 512
  }

  lemma WalkIndex(vpn: nat, level: nat)
    requires 0 < level < 3
    ensures PX(level, vpn * PGSIZE) == PrefixAt(vpn, level - 1) % 512
  {
    PageIndices(vpn * PGSIZE);
  }

  /** The table that entry i of table p names, or 0. */
  function Next(mem: seq<Page>, p: nat, i: nat): nat
    requires i < 512
  {
    if p < |mem| && mem[p].Entries? && mem[p].ptes[i].v then mem[p].ptes[i].page else 0
  }

  /** walk() without allocation: the lowest table for page number vpn, or 0. */
  function Walked(mem: seq<Page>, root: nat, vpn: nat): nat {
    var p := Next(mem, root, vpn / 512 / 512 % 512);
    if p == 0 then 0 else Next(mem, p, vpn / 512 % 512)
  }

  /** The flat map that a page table stands for. */
  function Lookup(mem: seq<Page>, root: nat, vpn: nat): Pte {
    var p := Walked(mem, root, vpn);
    if 0 < p < |mem| && mem[p].Entries? then mem[p].ptes[vpn % 512] else NO_PTE
  }

  /** Walking a tree finds exactly the lowest table that owns the page number. */
  lemma WalkedOwns(mem: seq<Page>, own: seq<Own>, root: nat, vpn: nat)
    requires TreeOk(mem, own) && IsRoot(own, root) && vpn < 2 * MAXVPN
    ensures var p := Walked(mem, root, vpn);
            p == 0 || IsTable(own, p, root, 0, vpn / 512)
  {
    assert SlotsOk(mem, own, root);
    var i2 := vpn / 512 / 512 % 512;
    assert SlotOk(own, root, own[root], i2, mem[root].ptes[i2]);
    if mem[root].ptes[i2].v {
      var q := mem[root].ptes[i2].page;
      assert SlotsOk(mem, own, q);
      var i1 := vpn / 512 % 512;
      assert SlotOk(own, q, own[q], i1, mem[q].ptes[i1]);
    }
  }

  lemma WalkedFinds(mem: seq<Page>, own: seq<Own>, root: nat, vpn: nat, p: nat)
    requires TreeOk(mem, own) && vpn < 2 * MAXVPN && IsTable(own, p, root, 0, vpn / 512)
    ensures IsRoot(own, root) && Walked(mem, root, vpn) == p
  {
    assert UpOk(mem, own, p);
    var up := own[p].up;
    assert UpOk(mem, own, up);
    assert UpOk(mem, own, own[up].up);
  }

  predicate Loose(w: Own) { w.Free? || w.Kernel? }

  /** Two trees agree at a page number if its lowest table and entry are the same in both, or it has
      none. */
  lemma LookupSame(mem: seq<Page>, own: seq<Own>, mem2: seq<Page>, own2: seq<Own>, root: nat, vpn: nat)
    requires TreeOk(mem, own) && TreeOk(mem2, own2) && IsRoot(own, root) && IsRoot(own2, root) && vpn < MAXVPN
    requires forall p: nat :: IsTable(own, p, root, 0, vpn / 512) ==>
      IsTable(own2, p, root, 0, vpn / 512) && mem[p].Entries? && mem2[p].Entries?
      && mem2[p].ptes[vpn % 512] == mem[p].ptes[vpn % 512]
    requires forall p: nat :: IsTable(own2, p, root, 0, vpn / 512) && !IsTable(own, p, root, 0, vpn / 512) ==>
      mem2[p].Entries? && mem2[p].ptes[vpn % 512] == NO_PTE
    ensures Lookup(mem2, root, vpn) == Lookup(mem, root, vpn)
  {
    WalkedOwns(mem, own, root, vpn);
    WalkedOwns(mem2, own2, root, vpn);
    var p, p2 := Walked(mem, root, vpn), Walked(mem2, root, vpn);
    if p != 0 { WalkedFinds(mem2, own2, root, vpn, p); }
    else if p2 != 0 && IsTable(own, p2, root, 0, vpn / 512) { WalkedFinds(mem, own, root, vpn, p2); }
  }

  /** A page outside every tree may change hands, and contents, without any table noticing. */
  lemma LooseChange(mem: seq<Page>, own: seq<Own>, q: nat, w: Own, c: Page)
    requires TreeOk(mem, own) && 0 < q < |own| && Loose(own[q]) && Loose(w)
    ensures TreeOk(mem[q := c], own[q := w])
    ensures forall root: nat, vpn: nat :: IsRoot(own, root) && vpn < MAXVPN ==>
      Lookup(mem[q := c], root, vpn) == Lookup(mem, root, vpn)
  {
    var mem2, own2 := mem[q := c], own[q := w];
    forall p: nat | 0 < p < |own2| ensures SlotsOk(mem2, own2, p) && UpOk(mem2, own2, p) {
      assert SlotsOk(mem, own, p) && UpOk(mem, own, p);
      if own2[p].Table? {
        forall i: nat | i < 512 ensures SlotOk(own2, p, own2[p], i, mem2[p].ptes[i]) {
          assert SlotOk(own, p, own[p], i, mem[p].ptes[i]);
        }
      }
    }
    forall root: nat, vpn: nat | IsRoot(own, root) && vpn < MAXVPN
      ensures Lookup(mem2, root, vpn) == Lookup(mem, root, vpn)
    {
      forall p: nat | IsTable(own, p, root, 0, vpn / 512) ensures mem[p].Entries? { assert SlotsOk(mem, own, p); }
      LookupSame(mem, own, mem2, own2, root, vpn);
    }
  }

  /** Hanging an empty table q below entry i of table p leaves every flat map as it was. */
  lemma LinkTable(mem: seq<Page>, own: seq<Own>, p: nat, i: nat, q: nat, mem2: seq<Page>, own2: seq<Own>)
    requires TreeOk(mem, own) && 0 < p < |own| && 0 < q < |own| && own[q].Kernel?
    requires own[p].Table? && own[p].level > 0 && i < 512 && own[p].prefix * 512 + i < Span(own[p].level)
    requires mem[p].Entries? && !mem[p].ptes[i].v
    requires own2 == own[q := Table(own[p].root, own[p].level - 1, own[p].prefix * 512 + i, p)]
    requires mem2 == mem[q := Entries(NoEntries())][p := Entries(mem[p].ptes[i := Pte(true, q, NONE)])]
    ensures TreeOk(mem2, own2)
    ensures forall root: nat, vpn: nat :: IsRoot(own, root) && vpn < MAXVPN ==>
      Lookup(mem2, root, vpn) == Lookup(mem, root, vpn)
  {
    forall r: nat | 0 < r < |own2| ensures SlotsOk(mem2, own2, r) && UpOk(mem2, own2, r) {
      assert SlotsOk(mem, own, r) && UpOk(mem, own, r) && UpOk(mem, own, p);
      if own2[r].Table? {
        forall j: nat | j < 512 ensures SlotOk(own2, r, own2[r], j, mem2[r].ptes[j]) {
          assert r != q ==> SlotOk(own, r, own[r], j, mem[r].ptes[j]);
        }
      }
    }
    forall root: nat, vpn: nat | IsRoot(own, root) && vpn < MAXVPN
      ensures Lookup(mem2, root, vpn) == Lookup(mem, root, vpn)
    {
      forall r: nat | IsTable(own, r, root, 0, vpn / 512) ensures mem[r].Entries? { assert SlotsOk(mem, own, r); }
      LookupSame(mem, own, mem2, own2, root, vpn);
    }
  }

  /** The page number of entry i of table p. */
  function VpnOf(w: Own, i: nat): nat
    requires w.Table?
  {
    w.prefix * 512 + i
  }

  /** Filling an empty lowest entry adds exactly that page to the flat map of its root. */
  lemma MapLeaf(mem: seq<Page>, own: seq<Own>, p: nat, i: nat, e: Pte, mem2: seq<Page>, own2: seq<Own>)
    requires TreeOk(mem, own) && 0 < p < |own| && i < 512 && e.v && IsLeaf(e)
    requires own[p].Table? && own[p].level == 0 && mem[p].Entries? && !mem[p].ptes[i].v && VpnOf(own[p], i) < MAXVPN
    requires var v := VpnOf(own[p], i);
             if v < TRAPFRAME
             then 0 < e.page < |own| && own[e.page].Kernel? && mem[e.page].Bytes?
                  && own2 == own[e.page := User(own[p].root, v, p)]
             else own2 == own
    requires mem2 == mem[p := Entries(mem[p].ptes[i := e])]
    ensures TreeOk(mem2, own2)
    ensures forall root: nat, vpn: nat :: IsRoot(own, root) && vpn < MAXVPN ==>
      Lookup(mem2, root, vpn) == if root == own[p].root && vpn == VpnOf(own[p], i) then e else Lookup(mem, root, vpn)
  {
    forall r: nat | 0 < r < |own2| ensures SlotsOk(mem2, own2, r) && UpOk(mem2, own2, r) {
      assert SlotsOk(mem, own, r) && UpOk(mem, own, r) && UpOk(mem, own, p);
      if own2[r].Table? {
        forall j: nat | j < 512 ensures SlotOk(own2, r, own2[r], j, mem2[r].ptes[j]) {
          assert SlotOk(own, r, own[r], j, mem[r].ptes[j]);
        }
      }
    }
    EntryChange(mem, own, p, i, e, mem2, own2);
  }

  /** Clearing a lowest entry removes exactly that page from the flat map of its root. */
  lemma UnmapLeaf(mem: seq<Page>, own: seq<Own>, p: nat, i: nat, w: Own, c: Page, mem2: seq<Page>, own2: seq<Own>)
    requires TreeOk(mem, own) && 0 < p < |own| && i < 512 && Loose(w)
    requires own[p].Table? && own[p].level == 0 && mem[p].Entries? && mem[p].ptes[i].v
    requires var q := mem[p].ptes[i].page;
             if VpnOf(own[p], i) < TRAPFRAME
             then 0 < q < |own| && q != p
                  && own2 == own[q := w] && mem2 == mem[q := c][p := Entries(mem[p].ptes[i := NO_PTE])]
             else own2 == own && mem2 == mem[p := Entries(mem[p].ptes[i := NO_PTE])]
    ensures TreeOk(mem2, own2)
    ensures forall root: nat, vpn: nat :: IsRoot(own, root) && vpn < MAXVPN ==>
      Lookup(mem2, root, vpn)
      == if root == own[p].root && vpn == VpnOf(own[p], i) then NO_PTE else Lookup(mem, root, vpn)
  {
    assert SlotsOk(mem, own, p);
    assert SlotOk(own, p, own[p], i, mem[p].ptes[i]);
    forall r: nat | 0 < r < |own2| ensures SlotsOk(mem2, own2, r) && UpOk(mem2, own2, r) {
      assert SlotsOk(mem, own, r) && UpOk(mem, own, r) && UpOk(mem, own, p);
      if own2[r].Table? {
        forall j: nat | j < 512 ensures SlotOk(own2, r, own2[r], j, mem2[r].ptes[j]) {
          assert SlotOk(own, r, own[r], j, mem[r].ptes[j]);
        }
      }
    }
    EntryChange(mem, own, p, i, NO_PTE, mem2, own2);
  }

  lemma EntryChange(mem: seq<Page>, own: seq<Own>, p: nat, i: nat, e: Pte, mem2: seq<Page>, own2: seq<Own>)
    requires TreeOk(mem, own) && TreeOk(mem2, own2) && |own2| == |own| && 0 < p < |own| && i < 512
    requires own[p].Table? && own[p].level == 0 && own2[p] == own[p]
    requires mem[p].Entries? && mem2[p] == Entries(mem[p].ptes[i := e])
    requires forall r: nat :: 0 < r < |own| && r != p && own[r].Table? ==> own2[r] == own[r] && mem2[r] == mem[r]
    requires forall r: nat :: 0 < r < |own| && own2[r].Table? ==> own2[r] == own[r]
    ensures forall root: nat, vpn: nat :: IsRoot(own, root) && vpn < MAXVPN ==>
      Lookup(mem2, root, vpn) == if root == own[p].root && vpn == VpnOf(own[p], i) then e else Lookup(mem, root, vpn)
  {
    forall root: nat, vpn: nat | IsRoot(own, root) && vpn < MAXVPN
      ensures Lookup(mem2, root, vpn)
              == if root == own[p].root && vpn == VpnOf(own[p], i) then e else Lookup(mem, root, vpn)
    {
      if root == own[p].root && vpn == VpnOf(own[p], i) {
        WalkedFinds(mem2, own2, root, vpn, p);
      } else {
        forall r: nat | IsTable(own, r, root, 0, vpn / 512) ensures mem[r].Entries? { assert SlotsOk(mem, own, r); }
        LookupSame(mem, own, mem2, own2, root, vpn);
      }
    }
  }

  predicate RunOk(mem: seq<Page>, own: seq<Own>, free: seq<nat>, i: nat)
    requires |mem| == |own| && i < |free|
  {
    && 0 < free[i] < |own| && own[free[i]] == Free(i)
    && mem[free[i]] == Run(if i == 0 then 0 else free[i - 1])
  }

  /** The free list: `free` from the bottom up, each page naming the one below it. */
  ghost predicate FreeListOk(mem: seq<Page>, own: seq<Own>, freelist: nat, free: seq<nat>) {
    && |mem| == |own|
    && freelist == (if free == [] then 0 else free[|free| - 1])
    && (forall i: nat :: i < |free| ==> RunOk(mem, own, free, i))
    && (forall p: nat :: 0 < p < |own| && own[p].Free? ==> own[p].height < |free| && free[own[p].height] == p)
  }

  ghost predicate SameMaps(mem0: seq<Page>, own0: seq<Own>, mem1: seq<Page>) {
    forall root: nat, vpn: nat :: IsRoot(own0, root) && vpn < MAXVPN ==>
      Lookup(mem1, root, vpn) == Lookup(mem0, root, vpn)
  }

  /** The table tree of root may have taken free pages; no other page changed hands, and nothing but
      tables of root changed contents. */
  ghost predicate Grown(mem0: seq<Page>, own0: seq<Own>, mem1: seq<Page>, own1: seq<Own>, root: nat) {
    && |mem0| == |own0| == |mem1| == |own1|
    && (forall q: nat :: 0 < q < |own0| && own0[q].Free? ==> own1[q].Free? || (own1[q].Table? && own1[q].root == root))
    && (forall q: nat :: 0 < q < |own0| && !own0[q].Free? ==>
          own1[q] == own0[q] && (mem1[q] == mem0[q] || (own0[q].Table? && own0[q].root == root)))
  }

  lemma PushFree(mem: seq<Page>, own: seq<Own>, freelist: nat, free: seq<nat>, p: nat)
    requires FreeListOk(mem, own, freelist, free) && 0 < p < |own| && !own[p].Free?
    ensures FreeListOk(mem[p := Run(freelist)], own[p := Free(|free|)], p, free + [p])
  {
    var mem2, own2, free2 := mem[p := Run(freelist)], own[p := Free(|free|)], free + [p];
    forall i: nat | i < |free2|
      ensures RunOk(mem2, own2, free2, i)
    {
      assert i < |free| ==> RunOk(mem, own, free, i);
      assert i == |free| > 0 ==> RunOk(mem, own, free, i - 1);
    }
  }

  /** Pages off the free list may change as they like, as long as they stay off it. */
  lemma FreeListKept(mem: seq<Page>, own: seq<Own>, freelist: nat, free: seq<nat>, mem2: seq<Page>, own2: seq<Own>)
    requires FreeListOk(mem, own, freelist, free) && |mem2| == |own2| == |own|
    requires forall q: nat :: 0 < q < |own| && own[q].Free? ==> own2[q] == own[q] && mem2[q] == mem[q]
    requires forall q: nat :: 0 < q < |own| && own2[q].Free? ==> own[q].Free?
    ensures FreeListOk(mem2, own2, freelist, free)
  {
    forall i: nat | i < |free| ensures RunOk(mem2, own2, free, i) { assert RunOk(mem, own, free, i); }
  }

  lemma PopFree(mem: seq<Page>, own: seq<Own>, freelist: nat, free: seq<nat>)
    requires FreeListOk(mem, own, freelist, free) && freelist != 0
    ensures 0 < freelist < |own| && own[freelist] == Free(|free| - 1) && mem[freelist].Run?
    ensures FreeListOk(mem[freelist := Junk], own[freelist := Kernel], mem[freelist].next, free[..|free| - 1])
  {
    assert RunOk(mem, own, free, |free| - 1);
    var mem2, own2, free2 := mem[freelist := Junk], own[freelist := Kernel], free[..|free| - 1];
    forall i: nat | i < |free2| ensures RunOk(mem2, own2, free2, i) { assert RunOk(mem, own, free, i); }
  }

  /** LinkTable on the whole memory. */
  lemma NewTable(mem: seq<Page>, own: seq<Own>, freelist: nat, free: seq<nat>, p: nat, i: nat, q: nat,
                 mem2: seq<Page>, own2: seq<Own>)
    requires FreeListOk(mem, own, freelist, free)
    requires TreeOk(mem, own) && 0 < p < |own| && 0 < q < |own| && own[q].Kernel?
    requires own[p].Table? && own[p].level > 0 && i < 512 && own[p].prefix * 512 + i < Span(own[p].level)
    requires mem[p].Entries? && !mem[p].ptes[i].v
    requires own2 == own[q := Table(own[p].root, own[p].level - 1, own[p].prefix * 512 + i, p)]
    requires mem2 == mem[q := Entries(NoEntries())][p := Entries(mem[p].ptes[i := Pte(true, q, NONE)])]
    ensures FreeListOk(mem2, own2, freelist, free) && TreeOk(mem2, own2) && SameMaps(mem, own, mem2)
  {
    LinkTable(mem, own, p, i, q, mem2, own2);
    FreeListKept(mem, own, freelist, free, mem2, own2);
  }

  lemma GrownTrans(mem0: seq<Page>, own0: seq<Own>, mem1: seq<Page>, own1: seq<Own>, mem2: seq<Page>, own2: seq<Own>,
                   root: nat)
    requires Grown(mem0, own0, mem1, own1, root) && SameMaps(mem0, own0, mem1)
    requires Grown(mem1, own1, mem2, own2, root) && SameMaps(mem1, own1, mem2)
    ensures Grown(mem0, own0, mem2, own2, root) && SameMaps(mem0, own0, mem2)
  {
    forall r: nat, vpn: nat | IsRoot(own0, r) && vpn < MAXVPN ensures Lookup(mem2, r, vpn) == Lookup(mem0, r, vpn) {
      assert IsRoot(own1, r);
    }
  }

  /** Page q is one of the k pages from `page` on that were mapped at user page numbers from vpn on. */
  predicate Given(q: nat, vpn: nat, k: nat, page: nat) { page <= q < page + k && vpn + (q - page) < TRAPFRAME }

  /** What became of page q, with contents m0 and owner w0 before and m1 and w1 after. */
  predicate PageMapped(m0: Page, w0: Own, m1: Page, w1: Own, root: nat, given: bool, v: int) {
    if given then w0.Kernel? && w1.User? && w1.root == root && w1.vpn == v && m1 == m0
    else if w0.Free? then w1.Free? || (w1.Table? && w1.root == root)
    else w1 == w0 && (m1 == m0 || (w0.Table? && w0.root == root))
  }

  /** Mapping k pages from `page` on at vpn gave those pages to root and changed exactly those page
      numbers of its flat map. */
  ghost predicate Mapped(mem0: seq<Page>, own0: seq<Own>, mem1: seq<Page>, own1: seq<Own>, root: nat,
                         vpn: nat, k: nat, page: nat, perm: Perm)
  {
    && |mem0| == |own0| == |mem1| == |own1|
    && (forall q: nat :: 0 < q < |own0| ==>
          PageMapped(mem0[q], own0[q], mem1[q], own1[q], root, Given(q, vpn, k, page), vpn + (q - page)))
    && (forall r: nat, v: nat :: IsRoot(own0, r) && v < MAXVPN ==>
          Lookup(mem1, r, v)
          == if r == root && vpn <= v < vpn + k then Pte(true, page + (v - vpn), perm) else Lookup(mem0, r, v))
  }

  /** The pages to map are the kernel's own and hold bytes. */
  ghost predicate Mappable(mem: seq<Page>, own: seq<Own>, vpn: nat, n: nat, page: nat) {
    && |mem| == |own|
    && (forall q: nat :: Given(q, vpn, n, page) ==> 0 < q < |own| && own[q].Kernel? && mem[q].Bytes?)
  }

  lemma GrownMapped(mem0: seq<Page>, own0: seq<Own>, mem1: seq<Page>, own1: seq<Own>, root: nat,
                    vpn: nat, page: nat, perm: Perm)
    requires Grown(mem0, own0, mem1, own1, root) && SameMaps(mem0, own0, mem1)
    ensures Mapped(mem0, own0, mem1, own1, root, vpn, 0, page, perm)
  {
  }

  lemma RootMapped(mem0: seq<Page>, own0: seq<Own>, mem1: seq<Page>, own1: seq<Own>, root: nat,
                   vpn: nat, k: nat, page: nat, perm: Perm, r: nat)
    requires Mapped(mem0, own0, mem1, own1, root, vpn, k, page, perm) && IsRoot(own0, r)
    ensures IsRoot(own1, r)
  {
    assert PageMapped(mem0[r], own0[r], mem1[r], own1[r], root, Given(r, vpn, k, page), vpn + (r - page));
  }

  lemma MappedTrans(mem0: seq<Page>, own0: seq<Own>, mem1: seq<Page>, own1: seq<Own>, mem2: seq<Page>, own2: seq<Own>,
                    root: nat, vpn: nat, k: nat, page: nat, perm: Perm, j: nat)
    requires Mapped(mem0, own0, mem1, own1, root, vpn, k, page, perm)
    requires Mapped(mem1, own1, mem2, own2, root, vpn + k, j, page + k, perm)
    ensures Mapped(mem0, own0, mem2, own2, root, vpn, k + j, page, perm)
  {
    forall q: nat | 0 < q < |own0|
      ensures PageMapped(mem0[q], own0[q], mem2[q], own2[q], root, Given(q, vpn, k + j, page), vpn + (q - page))
    {
      assert PageMapped(mem0[q], own0[q], mem1[q], own1[q], root, Given(q, vpn, k, page), vpn + (q - page));
      assert PageMapped(mem1[q], own1[q], mem2[q], own2[q], root, Given(q, vpn + k, j, page + k), vpn + (q - page));
    }
    forall r: nat | IsRoot(own0, r) ensures IsRoot(own1, r) {
      RootMapped(mem0, own0, mem1, own1, root, vpn, k, page, perm, r);
    }
  }

  /** Filling the empty entry that a walk from mem0 found in mem1. */
  lemma MappedOne(mem0: seq<Page>, own0: seq<Own>, mem1: seq<Page>, own1: seq<Own>, mem2: seq<Page>, own2: seq<Own>,
                  freelist: nat, free: seq<nat>, root: nat, a: nat, pa: nat, perm: Perm, p: nat)
    requires Grown(mem0, own0, mem1, own1, root) && SameMaps(mem0, own0, mem1)
    requires TreeOk(mem1, own1) && FreeListOk(mem1, own1, freelist, free)
    requires a < MAXVPN && IsTable(own1, p, root, 0, a / 512) && mem1[p].Entries? && !mem1[p].ptes[a % 512].v
    requires a < TRAPFRAME ==> 0 < pa < |own0| && own0[pa].Kernel? && mem0[pa].Bytes?
    requires perm.r || perm.w || perm.x
    requires mem2 == mem1[p := Entries(mem1[p].ptes[a % 512 := Pte(true, pa, perm)])]
    requires own2 == if a < TRAPFRAME then own1[pa := User(root, a, p)] else own1
    ensures Mapped(mem0, own0, mem2, own2, root, a, 1, pa, perm)
    ensures TreeOk(mem2, own2) && FreeListOk(mem2, own2, freelist, free)
  {
    MapLeaf(mem1, own1, p, a % 512, Pte(true, pa, perm), mem2, own2);
    FreeListKept(mem1, own1, freelist, free, mem2, own2);
    assert Mapped(mem1, own1, mem2, own2, root, a, 1, pa, perm);
    GrownMapped(mem0, own0, mem1, own1, root, a, pa, perm);
    MappedTrans(mem0, own0, mem1, own1, mem2, own2, root, a, 0, pa, perm, 1);
  }

  /** A user page is found by walking to the page number its owner gives. */
  lemma UserFinds(mem: seq<Page>, own: seq<Own>, q: nat)
    requires TreeOk(mem, own) && 0 < q < |own| && own[q].User?
    ensures IsRoot(own, own[q].root) && own[q].vpn < TRAPFRAME
    ensures var e := Lookup(mem, own[q].root, own[q].vpn);
            e.v && e.page == q
  {
    assert UpOk(mem, own, q);
    WalkedFinds(mem, own, own[q].root, own[q].vpn, own[q].up);
  }

  /** The other way round: a user entry of a flat map names a page owned by that mapping. */
  lemma LookupOwned(mem: seq<Page>, own: seq<Own>, root: nat, vpn: nat)
    requires TreeOk(mem, own) && IsRoot(own, root) && vpn < TRAPFRAME && Lookup(mem, root, vpn).v
    ensures var q := Lookup(mem, root, vpn).page;
            && 0 < q < |own| && own[q].User? && own[q].root == root && own[q].vpn == vpn && mem[q].Bytes?
            && IsLeaf(Lookup(mem, root, vpn))
  {
    WalkedOwns(mem, own, root, vpn);
    var p := Walked(mem, root, vpn);
    assert SlotsOk(mem, own, p);
    assert SlotOk(own, p, own[p], vpn % 512, mem[p].ptes[vpn % 512]);
    assert UpOk(mem, own, mem[p].ptes[vpn % 512].page);
  }

  lemma EmptyEntry(mem: seq<Page>, own: seq<Own>, root: nat, vpn: nat)
    requires TreeOk(mem, own) && IsRoot(own, root) && vpn < MAXVPN && !Lookup(mem, root, vpn).v
    ensures Lookup(mem, root, vpn) == NO_PTE
  {
    WalkedOwns(mem, own, root, vpn);
    var p := Walked(mem, root, vpn);
    if p != 0 {
      assert SlotsOk(mem, own, p);
      assert SlotOk(own, p, own[p], vpn % 512, mem[p].ptes[vpn % 512]);
    }
  }

  predicate PageUnmapped(m0: Page, w0: Own, m1: Page, w1: Own, root: nat, lo: nat, hi: nat) {
    if w0.User? && w0.root == root && lo <= w0.vpn < hi then w1.Free?
    else w1 == w0 && (m1 == m0 || (w0.Table? && w0.root == root))
  }

  /** Unmapping lo..hi freed the user pages mapped there and emptied exactly those page numbers. */
  ghost predicate Unmapped(mem0: seq<Page>, own0: seq<Own>, mem1: seq<Page>, own1: seq<Own>, root: nat, lo: nat, hi: nat)
  {
    && |mem0| == |own0| == |mem1| == |own1|
    && (forall q: nat :: 0 < q < |own0| ==> PageUnmapped(mem0[q], own0[q], mem1[q], own1[q], root, lo, hi))
    && (forall r: nat, v: nat :: IsRoot(own0, r) && v < MAXVPN ==>
          Lookup(mem1, r, v) == if r == root && lo <= v < hi then NO_PTE else Lookup(mem0, r, v))
  }

  /** Nothing to unmap at page number a. */
  lemma UnmappedSkip(mem0: seq<Page>, own0: seq<Own>, mem1: seq<Page>, own1: seq<Own>, root: nat, lo: nat, a: nat)
    requires TreeOk(mem0, own0) && TreeOk(mem1, own1) && IsRoot(own0, root)
    requires Unmapped(mem0, own0, mem1, own1, root, lo, a) && lo <= a < MAXVPN && Lookup(mem1, root, a) == NO_PTE
    ensures Unmapped(mem0, own0, mem1, own1, root, lo, a + 1)
  {
    forall q: nat | 0 < q < |own0| ensures PageUnmapped(mem0[q], own0[q], mem1[q], own1[q], root, lo, a + 1) {
      assert PageUnmapped(mem0[q], own0[q], mem1[q], own1[q], root, lo, a);
      if own0[q].User? && own0[q].root == root && own0[q].vpn == a { UserFinds(mem0, own0, q); }
    }
  }

  /** Clearing the entry of page number a and, if it is a user page, giving the page back. */
  lemma UnmappedNext(mem0: seq<Page>, own0: seq<Own>, mem1: seq<Page>, own1: seq<Own>, mem2: seq<Page>, own2: seq<Own>,
                     freelist: nat, free: seq<nat>, root: nat, lo: nat, a: nat, p: nat, fl2: nat, free2: seq<nat>)
    requires TreeOk(mem0, own0) && TreeOk(mem1, own1) && IsRoot(own0, root)
    requires FreeListOk(mem1, own1, freelist, free)
    requires Unmapped(mem0, own0, mem1, own1, root, lo, a) && lo <= a < MAXVPN && Lookup(mem1, root, a).v
    requires IsTable(own1, p, root, 0, a / 512) && mem1[p].Entries?
    requires if a < TRAPFRAME then
               var q := mem1[p].ptes[a % 512].page;
               && 0 < q < |own1| && q != p && fl2 == q && free2 == free + [q] && own2 == own1[q := Free(|free|)]
               && mem2 == mem1[q := Run(freelist)][p := Entries(mem1[p].ptes[a % 512 := NO_PTE])]
             else
               fl2 == freelist && free2 == free && own2 == own1
               && mem2 == mem1[p := Entries(mem1[p].ptes[a % 512 := NO_PTE])]
    ensures TreeOk(mem2, own2) && FreeListOk(mem2, own2, fl2, free2)
    ensures Unmapped(mem0, own0, mem2, own2, root, lo, a + 1)
  {
    WalkedFinds(mem1, own1, root, a, p);
    var q := mem1[p].ptes[a % 512].page;
    UnmapLeaf(mem1, own1, p, a % 512, Free(|free|), Run(freelist), mem2, own2);
    if a < TRAPFRAME {
      LookupOwned(mem1, own1, root, a);
      PushFree(mem1, own1, freelist, free, q);
      FreeListKept(mem1[q := Run(freelist)], own2, q, free2, mem2, own2);
    } else {
      FreeListKept(mem1, own1, freelist, free, mem2, own2);
    }
    forall r: nat | IsRoot(own0, r) ensures IsRoot(own1, r) {
      assert PageUnmapped(mem0[r], own0[r], mem1[r], own1[r], root, lo, a);
    }
    forall x: nat | 0 < x < |own0| ensures PageUnmapped(mem0[x], own0[x], mem2[x], own2[x], root, lo, a + 1) {
      assert PageUnmapped(mem0[x], own0[x], mem1[x], own1[x], root, lo, a);
      if own0[x].User? && own0[x].root == root && own0[x].vpn == a { UserFinds(mem0, own0, x); }
    }
  }
}

/** What freewalk() keeps while it takes a page table apart from the leaves up. */
module Teardown {
  import opened PageTable

  /** The prefix, at a level, of the table above one with owner w. */
  function Above(w: Own, level: nat): nat
    requires w.Table?
  {
    if w.level >= level then w.prefix else if w.level + 1 == level then w.prefix / 512 else w.prefix / 512 / 512
  }

  /** Owner w lies in the subtree of the table with this root, level and prefix. */
  predicate Under(w: Own, root: nat, level: nat, prefix: nat) {
    w.Table? && w.root == root && w.level <= level && Above(w, level) == prefix
  }

  /** Owner w lies below one of the first i entries of that table. */
  predicate Below(w: Own, root: nat, level: nat, prefix: nat, i: nat) {
    w.Table? && w.level < level && Under(w, root, level, prefix) && Above(w, level - 1) % 512 < i
  }

  lemma BelowNext(w: Own, root: nat, level: nat, prefix: nat, i: nat)
    requires 0 < level <= 2
    ensures Below(w, root, level, prefix, i + 1)
            <==> Below(w, root, level, prefix, i) || (i < 512 && Under(w, root, level - 1, prefix * 512 + i))
  {
    if w.Table? && w.level < level { assert Above(w, level) == Above(w, level - 1) / 512; }
  }

  predicate Vacant(ptes: Entries) { forall i: nat :: i < 512 ==> !ptes[i].v }

  /** The lowest tables of root are empty. */
  ghost predicate NoLeaves(mem: seq<Page>, own: seq<Own>, root: nat) {
    && |mem| == |own|
    && forall q: nat :: 0 < q < |own| && own[q].Table? && own[q].root == root && own[q].level == 0 ==>
      mem[q].Entries? && Vacant(mem[q].ptes)
  }

  /** A tree some of whose tables, those in `open`, may name pages that are already free. */
  ghost predicate OpenTree(mem: seq<Page>, own: seq<Own>, open: set<nat>) {
    && |mem| == |own|
    && (forall p: nat :: 0 < p < |own| && p !in open ==> SlotsOk(mem, own, p))
    && (forall p: nat :: 0 < p < |own| ==> UpOk(mem, own, p))
    && (forall p: nat :: 0 < p < |own| && own[p].Table? ==> mem[p].Entries?)
  }

  lemma ClosedTree(mem: seq<Page>, own: seq<Own>)
    requires TreeOk(mem, own)
    ensures OpenTree(mem, own, {})
  {
    forall p: nat | 0 < p < |own| && own[p].Table? ensures mem[p].Entries? { assert SlotsOk(mem, own, p); }
  }

  lemma UniqueTable(mem: seq<Page>, own: seq<Own>, open: set<nat>, p: nat, x: nat)
    requires OpenTree(mem, own, open) && 0 < p < |own| && 0 < x < |own| && own[p].Table? && own[x].Table?
    requires own[p].root == own[x].root && own[p].level == own[x].level && own[p].prefix == own[x].prefix
    ensures p == x
    decreases 2 - own[p].level
  {
    assert UpOk(mem, own, p) && UpOk(mem, own, x);
    if own[p].level < 2 { UniqueTable(mem, own, open, own[p].up, own[x].up); }
  }

  /** A table strictly under table p goes through one of its entries, and that entry is in use. */
  lemma Through(mem: seq<Page>, own: seq<Own>, open: set<nat>, p: nat, q: nat)
    requires OpenTree(mem, own, open) && 0 < p < |own| && own[p].Table? && 0 < q < |own|
    requires Under(own[q], own[p].root, own[p].level, own[p].prefix) && own[q].level < own[p].level
    ensures mem[p].ptes[Above(own[q], own[p].level - 1) % 512].v
    decreases own[p].level - own[q].level
  {
    assert UpOk(mem, own, q) && UpOk(mem, own, p);
    var u := own[q].up;
    if own[u].level == own[p].level {
      UniqueTable(mem, own, open, p, u);
    } else {
      Through(mem, own, open, p, u);
    }
  }

  predicate PageTorn(m0: Page, w0: Own, m1: Page, w1: Own, torn: bool, self: bool) {
    if torn then w1.Free? else w1 == w0 && (m1 == m0 || self)
  }

  /** The subtree of the table with this root, level and prefix is free; nothing else changed. */
  ghost predicate Torn(mem0: seq<Page>, own0: seq<Own>, mem1: seq<Page>, own1: seq<Own>, root: nat, level: nat, prefix: nat)
  {
    && |mem0| == |own0| == |mem1| == |own1|
    && forall q: nat :: 0 < q < |own0| ==>
         PageTorn(mem0[q], own0[q], mem1[q], own1[q], Under(own0[q], root, level, prefix), false)
  }

  /** The subtrees of the first i entries of table p are free, and p may have been written. */
  ghost predicate TornTo(mem0: seq<Page>, own0: seq<Own>, mem1: seq<Page>, own1: seq<Own>, p: nat, i: nat)
    requires p < |own0| && own0[p].Table?
  {
    && |mem0| == |own0| == |mem1| == |own1|
    && forall q: nat :: 0 < q < |own0| ==>
         PageTorn(mem0[q], own0[q], mem1[q], own1[q],
                  Below(own0[q], own0[p].root, own0[p].level, own0[p].prefix, i), q == p)
  }

  /** The entries of the open table p from i on are in order, the earlier ones empty. */
  ghost predicate HalfOpen(mem: seq<Page>, own: seq<Own>, p: nat, i: nat) {
    && p < |mem| == |own| && own[p].Table? && mem[p].Entries?
    && (forall j: nat :: i <= j < 512 ==> SlotOk(own, p, own[p], j, mem[p].ptes[j]))
    && (forall j: nat :: j < i && j < 512 ==> !mem[p].ptes[j].v)
  }

  lemma SkipEmpty(mem0: seq<Page>, own0: seq<Own>, mem: seq<Page>, own: seq<Own>, open: set<nat>, p: nat, i: nat)
    requires 0 < p < |own0| && own0[p].Table? && i < 512
    requires OpenTree(mem, own, open) && TornTo(mem0, own0, mem, own, p, i) && own[p] == own0[p]
    requires mem[p].Entries? && !mem[p].ptes[i].v
    ensures TornTo(mem0, own0, mem, own, p, i + 1)
  {
    forall q: nat | 0 < q < |own0|
      ensures PageTorn(mem0[q], own0[q], mem[q], own[q],
                       Below(own0[q], own0[p].root, own0[p].level, own0[p].prefix, i + 1), q == p)
    {
      assert PageTorn(mem0[q], own0[q], mem[q], own[q],
                      Below(own0[q], own0[p].root, own0[p].level, own0[p].prefix, i), q == p);
      if Below(own0[q], own0[p].root, own0[p].level, own0[p].prefix, i + 1)
         && !Below(own0[q], own0[p].root, own0[p].level, own0[p].prefix, i)
      {
        Through(mem, own, open, p, q);
      }
    }
  }

  /** The child below entry i has been torn down; clearing the entry finishes the turn. */
  lemma ChildGone(mem0: seq<Page>, own0: seq<Own>, mem1: seq<Page>, own1: seq<Own>, mem2: seq<Page>, own2: seq<Own>,
                  mem3: seq<Page>, open: set<nat>, p: nat, i: nat)
    requires 0 < p < |own0| && own0[p].Table? && 0 < own0[p].level <= 2 && i < 512 && p in open
    requires TornTo(mem0, own0, mem1, own1, p, i) && HalfOpen(mem1, own1, p, i) && own1[p] == own0[p]
    requires Torn(mem1, own1, mem2, own2, own0[p].root, own0[p].level - 1, own0[p].prefix * 512 + i)
    requires OpenTree(mem2, own2, open) && mem2[p].Entries?
    requires mem3 == mem2[p := Entries(mem2[p].ptes[i := NO_PTE])]
    ensures OpenTree(mem3, own2, open) && TornTo(mem0, own0, mem3, own2, p, i + 1) && HalfOpen(mem3, own2, p, i + 1)
    ensures own2[p] == own0[p]
  {
    var w := own0[p];
    assert PageTorn(mem1[p], own1[p], mem2[p], own2[p], Under(own1[p], w.root, w.level - 1, w.prefix * 512 + i), false);
    forall q: nat | 0 < q < |own0|
      ensures PageTorn(mem0[q], own0[q], mem3[q], own2[q], Below(own0[q], w.root, w.level, w.prefix, i + 1), q == p)
    {
      BelowNext(own0[q], w.root, w.level, w.prefix, i);
      assert PageTorn(mem0[q], own0[q], mem1[q], own1[q], Below(own0[q], w.root, w.level, w.prefix, i), q == p);
      assert PageTorn(mem1[q], own1[q], mem2[q], own2[q], Under(own1[q], w.root, w.level - 1, w.prefix * 512 + i), false);
    }
    forall j: nat | i + 1 <= j < 512 ensures SlotOk(own2, p, own2[p], j, mem3[p].ptes[j]) {
      assert SlotOk(own1, p, own1[p], j, mem1[p].ptes[j]);
      var q := mem1[p].ptes[j].page;
      if mem1[p].ptes[j].v {
        assert PageTorn(mem1[q], own1[q], mem2[q], own2[q], Under(own1[q], w.root, w.level - 1, w.prefix * 512 + i), false);
      }
    }
    forall q: nat | 0 < q < |own2| ensures UpOk(mem3, own2, q) && (q !in open ==> SlotsOk(mem3, own2, q)) {
      assert UpOk(mem2, own2, q);
      assert q !in open ==> SlotsOk(mem2, own2, q);
      assert PageTorn(mem1[q], own1[q], mem2[q], own2[q], Under(own1[q], w.root, w.level - 1, w.prefix * 512 + i), false);
    }
  }

  /** Every subtree of p is gone; freeing p itself completes its own. */
  lemma SelfGone(mem0: seq<Page>, own0: seq<Own>, mem1: seq<Page>, own1: seq<Own>, mem2: seq<Page>, own2: seq<Own>,
                 open: set<nat>, p: nat, h: nat, c: Page)
    requires 0 < p < |own0| && own0[p].Table? && own0[p].level <= 2 && p !in open
    requires OpenTree(mem0, own0, open) && OpenTree(mem1, own1, open + {p}) && TornTo(mem0, own0, mem1, own1, p, 512)
    requires own1[p] == own0[p] && NoLeaves(mem1, own1, own1[p].root)
    requires own0[p].up == 0 || own0[p].up in open
    requires mem2 == mem1[p := c] && own2 == own1[p := Free(h)]
    ensures OpenTree(mem2, own2, open)
    ensures Torn(mem0, own0, mem2, own2, own0[p].root, own0[p].level, own0[p].prefix)
  {
    var w := own0[p];
    forall q: nat | 0 < q < |own0|
      ensures PageTorn(mem0[q], own0[q], mem2[q], own2[q], Under(own0[q], w.root, w.level, w.prefix), false)
    {
      assert PageTorn(mem0[q], own0[q], mem1[q], own1[q], Below(own0[q], w.root, w.level, w.prefix, 512), q == p);
      if q != p && own0[q].Table? && own0[q].level == w.level && Under(own0[q], w.root, w.level, w.prefix) {
        UniqueTable(mem0, own0, open, p, q);
      }
    }
    forall q: nat | 0 < q < |own2| ensures UpOk(mem2, own2, q) && (q !in open ==> SlotsOk(mem2, own2, q)) {
      assert UpOk(mem1, own1, q);
      if q != p {
        assert PageTorn(mem0[q], own0[q], mem1[q], own1[q], Below(own0[q], w.root, w.level, w.prefix, 512), q == p);
        if q !in open {
          assert SlotsOk(mem1, own1, q);
          if own2[q].Table? {
            forall j: nat | j < 512 ensures SlotOk(own2, q, own2[q], j, mem2[q].ptes[j]) {
              assert SlotOk(own1, q, own1[q], j, mem1[q].ptes[j]);
            }
          }
        }
      }
    }
  }
}
