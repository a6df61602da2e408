/** All processes together: one invariant over the page tables and trapframes of the whole system, and what
    each call of one process leaves of the others. */
module System {
  import opened PageTable
  import opened Images
  import opened Vm
  import opened ProcMemory
  import opened Exec

  /** The memory of a process: pagetable, sz and trapframe of struct proc. */
  datatype Entry = Entry(root: nat, sz: nat, tf: nat)

  ghost predicate EntryOk(mem: seq<Page>, own: seq<Own>, e: Entry) {
    Image(mem, own, e.root, e.sz) && TopsAt(mem, e.root, e.tf) && 0 < e.tf < |own| && own[e.tf].Kernel?
  }

  /** No two processes share a page table or a trapframe. */
  ghost predicate Apart(es: seq<Entry>) {
    forall i: nat, j: nat :: i < j < |es| ==> es[i].root != es[j].root && es[i].tf != es[j].tf
  }

  lemma ApartAt(es: seq<Entry>, i: nat, j: nat)
    requires Apart(es) && i < |es| && j < |es|
    ensures i == j || (es[i].root != es[j].root && es[i].tf != es[j].tf)
  {
  }

  /** Every process has its image, and no two share a page table or a trapframe. */
  ghost predicate Together(mem: seq<Page>, own: seq<Own>, es: seq<Entry>) {
    Apart(es) && forall i: nat :: i < |es| ==> EntryOk(mem, own, es[i])
  }

  /** The processes other than number k have their images still and see what they saw. */
  ghost predicate OthersSee(mem0: seq<Page>, mem1: seq<Page>, own1: seq<Own>, es: seq<Entry>, k: nat) {
    forall i: nat :: i < |es| && i != k ==> EntryOk(mem1, own1, es[i]) && CellsKept(mem0, mem1, es[i].root, es[i].sz)
  }

  /** The pages of process e, its trapframe among them, are as they were and still its own. */
  ghost predicate Untouched(mem0: seq<Page>, own0: seq<Own>, mem1: seq<Page>, own1: seq<Own>, e: Entry) {
    && |mem0| == |own0| == |mem1| == |own1|
    && (forall q: nat :: 0 < q < |own0| && (OfRoot(own0[q], e.root) || q == e.tf) ==> own1[q] == own0[q] && mem1[q] == mem0[q])
    && (forall q: nat :: 0 < q < |own0| && OfRoot(own1[q], e.root) ==> own0[q] == own1[q])
  }

  /** A process whose pages are untouched sees what it saw. */
  lemma Bystander(mem0: seq<Page>, own0: seq<Own>, mem1: seq<Page>, own1: seq<Own>, e: Entry)
    requires TreeOk(mem0, own0) && TreeOk(mem1, own1) && EntryOk(mem0, own0, e) && Untouched(mem0, own0, mem1, own1, e)
    ensures EntryOk(mem1, own1, e) && CellsKept(mem0, mem1, e.root, e.sz)
  {
    hide TreeOk;
    forall v: nat | v < MAXVPN
      ensures IsRoot(own1, e.root) && Lookup(mem1, e.root, v) == Lookup(mem0, e.root, v)
      ensures v < TRAPFRAME ==> CellOf(mem1, e.root, e.sz, v) == CellOf(mem0, e.root, e.sz, v)
    {
      OthersKept(mem0, own0, mem1, own1, e.root, v);
    }
    OthersKept(mem0, own0, mem1, own1, e.root, 0);
    assert Lookup(mem1, e.root, TRAMPOLINE) == Lookup(mem0, e.root, TRAMPOLINE);
    assert Lookup(mem1, e.root, TRAPFRAME) == Lookup(mem0, e.root, TRAPFRAME);
  }

  lemma OnlyUntouched(mem0: seq<Page>, own0: seq<Own>, mem1: seq<Page>, own1: seq<Own>, root: nat, e: Entry)
    requires Only(mem0, own0, mem1, own1, root) && e.root != root && 0 < e.tf < |own0| && own0[e.tf].Kernel?
    ensures Untouched(mem0, own0, mem1, own1, e)
  {
    forall q: nat | 0 < q < |own0|
      ensures OfRoot(own0[q], e.root) || q == e.tf ==> own1[q] == own0[q] && mem1[q] == mem0[q]
      ensures OfRoot(own1[q], e.root) ==> own0[q] == own1[q]
    {
      assert PageMine(mem0[q], own0[q], mem1[q], own1[q], root);
    }
  }

  lemma RestoredUntouched(mem0: seq<Page>, own0: seq<Own>, mem1: seq<Page>, own1: seq<Own>, e: Entry)
    requires Restored(mem0, own0, mem1, own1) && 0 < e.tf < |own0| && own0[e.tf].Kernel?
    ensures Untouched(mem0, own0, mem1, own1, e)
  {
    forall q: nat | 0 < q < |own0|
      ensures OfRoot(own0[q], e.root) || q == e.tf ==> own1[q] == own0[q] && mem1[q] == mem0[q]
      ensures OfRoot(own1[q], e.root) ==> own0[q] == own1[q]
    {
      assert PageRestored(mem0[q], own0[q], mem1[q], own1[q]);
    }
  }

  lemma BornUntouched(mem0: seq<Page>, own0: seq<Own>, mem1: seq<Page>, own1: seq<Own>, root: nat, tf: nat, e: Entry)
    requires TreeOk(mem0, own0) && Born(mem0, own0, mem1, own1, root, tf) && 0 < root < |own0| && own0[root].Free?
    requires IsRoot(own0, e.root) && 0 < e.tf < |own0| && own0[e.tf].Kernel?
    ensures Untouched(mem0, own0, mem1, own1, e) && e.root != root && e.tf != tf
  {
    forall q: nat | 0 < q < |own0|
      ensures OfRoot(own0[q], e.root) || q == e.tf ==> own1[q] == own0[q] && mem1[q] == mem0[q]
      ensures OfRoot(own1[q], e.root) ==> own0[q] == own1[q]
    {
      if q != tf { assert PageBuilt(mem0[q], own0[q], mem1[q], own1[q], root); }
      if OfRoot(own0[q], root) { NoOrphans(mem0, own0, root, q); }
    }
  }

  lemma ReplacedUntouched(mem0: seq<Page>, own0: seq<Own>, mem1: seq<Page>, own1: seq<Own>, oldr: nat, newr: nat, e: Entry)
    requires Replaced(mem0, own0, mem1, own1, oldr, newr) && newr < |own0| && own0[newr].Free?
    requires IsRoot(own0, e.root) && e.root != oldr && 0 < e.tf < |own0| && own0[e.tf].Kernel?
    ensures Untouched(mem0, own0, mem1, own1, e) && e.root != newr
  {
    forall q: nat | 0 < q < |own0|
      ensures OfRoot(own0[q], e.root) || q == e.tf ==> own1[q] == own0[q] && mem1[q] == mem0[q]
      ensures OfRoot(own1[q], e.root) ==> own0[q] == own1[q]
    {
      assert PageReplaced(mem0[q], own0[q], mem1[q], own1[q], oldr, newr);
    }
  }

  lemma FreedUntouched(mem0: seq<Page>, own0: seq<Own>, mem1: seq<Page>, own1: seq<Own>, root: nat, tf: nat, c: Page, h: nat, e: Entry)
    requires |mem0| == |own0| && 0 < tf < |own0| && own0[tf].Kernel?
    requires Destroyed(mem0[tf := c], own0[tf := Free(h)], mem1, own1, root)
    requires e.root != root && e.tf != tf && 0 < e.tf < |own0| && own0[e.tf].Kernel?
    ensures Untouched(mem0, own0, mem1, own1, e)
  {
    forall q: nat | 0 < q < |own0|
      ensures OfRoot(own0[q], e.root) || q == e.tf ==> own1[q] == own0[q] && mem1[q] == mem0[q]
      ensures OfRoot(own1[q], e.root) ==> own0[q] == own1[q]
    {
      assert PageDestroyed(mem0[tf := c][q], own0[tf := Free(h)][q], mem1[q], own1[q], root);
    }
  }

  lemma AfterGrow(mem0: seq<Page>, own0: seq<Own>, mem1: seq<Page>, own1: seq<Own>, es: seq<Entry>, k: nat, sz: nat)
    requires TreeOk(mem0, own0) && TreeOk(mem1, own1) && Together(mem0, own0, es) && k < |es|
    requires Only(mem0, own0, mem1, own1, es[k].root) && EntryOk(mem1, own1, es[k].(sz := sz))
    ensures Together(mem1, own1, es[k := es[k].(sz := sz)]) && OthersSee(mem0, mem1, own1, es, k)
  {
    hide TreeOk, Only, EntryOk, Untouched, CellsKept;
    forall i: nat | i < |es| && i != k
      ensures EntryOk(mem1, own1, es[i]) && CellsKept(mem0, mem1, es[i].root, es[i].sz)
    {
      EntryTf(mem0, own0, es[i]);
      OnlyUntouched(mem0, own0, mem1, own1, es[k].root, es[i]);
      Bystander(mem0, own0, mem1, own1, es[i]);
    }
  }

  lemma AfterNothing(mem0: seq<Page>, own0: seq<Own>, mem1: seq<Page>, own1: seq<Own>, es: seq<Entry>)
    requires TreeOk(mem0, own0) && TreeOk(mem1, own1) && Together(mem0, own0, es) && Restored(mem0, own0, mem1, own1)
    ensures Together(mem1, own1, es) && OthersSee(mem0, mem1, own1, es, |es|)
  {
    hide TreeOk, Restored, EntryOk, Untouched, CellsKept;
    forall i: nat | i < |es|
      ensures EntryOk(mem1, own1, es[i]) && CellsKept(mem0, mem1, es[i].root, es[i].sz)
    {
      EntryTf(mem0, own0, es[i]);
      RestoredUntouched(mem0, own0, mem1, own1, es[i]);
      Bystander(mem0, own0, mem1, own1, es[i]);
    }
  }

  lemma AfterFork(mem0: seq<Page>, own0: seq<Own>, mem1: seq<Page>, own1: seq<Own>, es: seq<Entry>, e: Entry)
    requires TreeOk(mem0, own0) && TreeOk(mem1, own1) && Together(mem0, own0, es) && EntryOk(mem1, own1, e)
    requires Born(mem0, own0, mem1, own1, e.root, e.tf) && 0 < e.root < |own0| && own0[e.root].Free?
    ensures Together(mem1, own1, es + [e]) && OthersSee(mem0, mem1, own1, es, |es|)
  {
    hide TreeOk, Born, EntryOk, Untouched, CellsKept;
    forall i: nat | i < |es|
      ensures EntryOk(mem1, own1, es[i]) && CellsKept(mem0, mem1, es[i].root, es[i].sz)
      ensures es[i].root != e.root && es[i].tf != e.tf
    {
      EntryTf(mem0, own0, es[i]);
      BornUntouched(mem0, own0, mem1, own1, e.root, e.tf, es[i]);
      Bystander(mem0, own0, mem1, own1, es[i]);
    }
  }

  lemma AfterExec(mem0: seq<Page>, own0: seq<Own>, mem1: seq<Page>, own1: seq<Own>, es: seq<Entry>, k: nat, e: Entry)
    requires TreeOk(mem0, own0) && TreeOk(mem1, own1) && Together(mem0, own0, es) && k < |es|
    requires EntryOk(mem1, own1, e) && e.tf == es[k].tf && e.root < |own0| && own0[e.root].Free?
    requires Replaced(mem0, own0, mem1, own1, es[k].root, e.root)
    ensures Together(mem1, own1, es[k := e]) && OthersSee(mem0, mem1, own1, es, k)
  {
    hide TreeOk, Replaced, EntryOk, Untouched, CellsKept;
    forall i: nat | i < |es| && i != k
      ensures EntryOk(mem1, own1, es[i]) && CellsKept(mem0, mem1, es[i].root, es[i].sz) && es[i].root != e.root
    {
      EntryTf(mem0, own0, es[i]);
      ReplacedUntouched(mem0, own0, mem1, own1, es[k].root, e.root, es[i]);
      Bystander(mem0, own0, mem1, own1, es[i]);
    }
  }

  lemma AfterFree(mem0: seq<Page>, own0: seq<Own>, mem1: seq<Page>, own1: seq<Own>, c: Page, h: nat, es: seq<Entry>, k: nat)
    requires TreeOk(mem0, own0) && TreeOk(mem1, own1) && Together(mem0, own0, es) && k < |es|
    requires |mem0| == |own0| && 0 < es[k].tf < |own0| && own0[es[k].tf].Kernel?
    requires Destroyed(mem0[es[k].tf := c], own0[es[k].tf := Free(h)], mem1, own1, es[k].root)
    ensures Together(mem1, own1, Without(es, k)) && OthersSee(mem0, mem1, own1, es, k)
    ensures forall q: nat :: 0 < q < |own1| && (OfRoot(own0[q], es[k].root) || q == es[k].tf) ==> own1[q].Free?
  {
    hide TreeOk, EntryOk, Untouched, CellsKept;
    forall i: nat | i < |es| && i != k
      ensures EntryOk(mem1, own1, es[i]) && CellsKept(mem0, mem1, es[i].root, es[i].sz)
    {
      EntryTf(mem0, own0, es[i]);
      FreedUntouched(mem0, own0, mem1, own1, es[k].root, es[k].tf, c, h, es[i]);
      Bystander(mem0, own0, mem1, own1, es[i]);
    }
    forall q: nat | 0 < q < |own1| && (OfRoot(own0[q], es[k].root) || q == es[k].tf) ensures own1[q].Free? {
      assert PageDestroyed(mem0[es[k].tf := c][q], own0[es[k].tf := Free(h)][q], mem1[q], own1[q], es[k].root);
    }
  }

  lemma BornTf(mem0: seq<Page>, own0: seq<Own>, mem1: seq<Page>, own1: seq<Own>, root: nat, tf: nat)
    requires Born(mem0, own0, mem1, own1, root, tf)
    ensures |mem0| == |own0| == |mem1| == |own1| && 0 < tf < |own1| && own1[tf].Kernel?
  {
  }

  /** No page below the trampoline, a trapframe included, is mapped twice in the whole system. */
  lemma NothingShared(mem: seq<Page>, own: seq<Own>, es: seq<Entry>, i: nat, v: nat, j: nat, w: nat)
    requires TreeOk(mem, own) && Together(mem, own, es) && i < |es| && j < |es| && v <= TRAPFRAME && w <= TRAPFRAME
    requires Lookup(mem, es[i].root, v).v && Lookup(mem, es[j].root, w).v
    requires Lookup(mem, es[i].root, v).page == Lookup(mem, es[j].root, w).page
    ensures i == j && v == w
  {
    hide TreeOk;
    ApartAt(es, i, j);
    assert EntryOk(mem, own, es[i]) && EntryOk(mem, own, es[j]);
    if v < TRAPFRAME { LookupOwned(mem, own, es[i].root, v); }
    if w < TRAPFRAME { LookupOwned(mem, own, es[j].root, w); }
  }

  lemma EntryTf(mem: seq<Page>, own: seq<Own>, e: Entry)
    requires EntryOk(mem, own, e)
    ensures IsRoot(own, e.root) && 0 < e.tf < |own| && own[e.tf].Kernel?
  {
  }

  function EntryOf(p: Proc): Entry
    reads p
  {
    Entry(p.pagetable, p.sz, p.trapframe)
  }

  function Without<T>(s: seq<T>, k: nat): (r: seq<T>)
    requires k < |s|
    ensures |r| == |s| - 1 && forall i: nat :: i < |r| ==> r[i] == s[if i < k then i else i + 1]
  {
    s[..k] + s[k + 1..]
  }

  class Processes {
    const m: Memory
    var procs: seq<Proc>

    constructor (m: Memory)
      requires m.Valid()
      ensures this.m == m && procs == [] && Valid()
    {
      this.m, procs := m, [];
    }

    ghost function Entries(): (r: seq<Entry>)
      reads this, procs
      ensures |r| == |procs| && forall i: nat :: i < |r| ==> r[i] == EntryOf(procs[i])
    {
      seq(|procs|, i requires 0 <= i < |procs| reads this, procs => EntryOf(procs[i]))
    }

    ghost predicate Valid()
      reads this, m, procs
    {
      m.Valid() && Together(m.mem, m.own, Entries())
    }

    lemma OneObject(i: nat)
      requires Valid() && i < |procs|
      ensures forall j: nat :: j < |procs| && j != i ==> procs[j] != procs[i]
    {
      forall j: nat | j < |procs| && j != i ensures procs[j] != procs[i] {
        ApartAt(Entries(), i, j);
      }
    }

    /** The memory half of userinit(): the first process, with an empty image. */
    method Userinit(trampoline: nat) returns (ok: bool)
      requires Valid()
      modifies this, m
      ensures Valid() && OthersSee(old(m.mem), m.mem, m.own, old(Entries()), |old(procs)|)
      ensures !ok ==> procs == old(procs) && |old(m.free)| < 6
      ensures ok ==> |procs| == |old(procs)| + 1 && procs[..|old(procs)|] == old(procs) && fresh(procs[|old(procs)|])
                     && procs[|old(procs)|].sz == 0
    {
      hide TreeOk, Born, Restored, OthersSee, Apart, CellsKept;
      ghost var es, mem0, own0 := Entries(), m.mem, m.own;
      var tf, root := AllocImage(m, trampoline);
      ok := root != 0;
      if ok {
        BornTf(mem0, own0, m.mem, m.own, root, tf);
        AfterFork(mem0, own0, m.mem, m.own, es, Entry(root, 0, tf));
        var p := new Proc(root, 0, tf);
        procs := procs + [p];
        assert Entries() == es + [EntryOf(p)];
      } else {
        AfterNothing(mem0, own0, m.mem, m.own, es);
        assert Entries() == es;
      }
    }

    /** sys_sbrk by process i, eager or lazy. */
    method Sbrk(i: nat, n: int, eager: bool) returns (addr: int)
      requires Valid() && i < |procs| && -0x8000_0000 <= n < 0x8000_0000
      modifies m, procs[i]
      ensures Valid() && procs == old(procs) && OthersSee(old(m.mem), m.mem, m.own, old(Entries()), i)
      ensures Entries() == old(Entries())[i := old(Entries())[i].(sz := procs[i].sz)]
      ensures Sbrked(old(m.mem), m.mem, procs[i].pagetable, old(procs[i].sz), procs[i].sz, |old(m.free)|, n, eager, addr)
    {
      hide TreeOk, Image, Only, OthersSee, Apart, CellsKept, CutTo, TopsAt, Sbrked;
      ghost var es, mem0, own0 := Entries(), m.mem, m.own;
      assert es[i] == EntryOf(procs[i]);
      OneObject(i);
      addr := ProcMemory.Sbrk(m, procs[i], n, eager);
      AfterGrow(mem0, own0, m.mem, m.own, es, i, procs[i].sz);
      assert Entries() == es[i := es[i].(sz := procs[i].sz)];
    }

    /** kfork by process i: the child joins the table. */
    method Fork(i: nat, trampoline: nat) returns (ok: bool)
      requires Valid() && i < |procs|
      modifies this, m
      ensures Valid() && OthersSee(old(m.mem), m.mem, m.own, old(Entries()), |old(procs)|)
      ensures !ok ==> procs == old(procs) && |old(m.free)| < 6 + 3 * Pages(procs[i].sz)
      ensures ok ==> |procs| == |old(procs)| + 1 && procs[..|old(procs)|] == old(procs) && fresh(procs[|old(procs)|])
      ensures ok ==> procs[|old(procs)|].sz == procs[i].sz && forall v: nat :: v < TRAPFRAME ==>
        CellOf(m.mem, procs[|old(procs)|].pagetable, procs[i].sz, v) == CellOf(old(m.mem), procs[i].pagetable, procs[i].sz, v)
    {
      hide TreeOk, Image, Born, Restored, OthersSee, Apart, CellsKept, TopsAt;
      ghost var es, mem0, own0 := Entries(), m.mem, m.own;
      assert es[i] == EntryOf(procs[i]);
      OneObject(i);
      var child := ProcMemory.Fork(m, procs[i], trampoline);
      ok := child != null;
      if child == null {
        AfterNothing(mem0, own0, m.mem, m.own, es);
        assert Entries() == es;
      } else {
        AfterFork(mem0, own0, m.mem, m.own, es, EntryOf(child));
        procs := procs + [child];
        assert Entries() == es + [EntryOf(child)];
      }
    }

    /** kexec by process i: whatever image it ends up with, the others keep theirs. */
    method Exec(i: nat, trampoline: nat, header: bool, file: seq<byte>, phs: seq<Segment>, args: seq<seq<byte>>)
      returns (r: int, sp: nat, ghost ustack: seq<nat>)
      requires Valid() && i < |procs| && |m.mem| <= TRAPFRAME
      requires |args| < MAXARG && forall k: nat :: k < |args| ==> |args[k]| < PGSIZE
      modifies m, procs[i]
      ensures Valid() && procs == old(procs)
      ensures OthersSee(old(m.mem), m.mem, m.own, old(Entries()), if r == -1 then |procs| else i)
      ensures Entries() == if r == -1 then old(Entries()) else old(Entries())[i := EntryOf(procs[i])]
      ensures r == -1 ==> !header || !AllLoadable(file, phs) || !ArgsFit(args) || |old(m.free)| < Needed(phs) + 5
      ensures r != -1 ==> r == |args| && Ready(m.mem, procs[i].pagetable, procs[i].sz, file, phs, args, ustack, sp)
    {
      hide TreeOk, Image, Replaced, Restored, OthersSee, Apart, CellsKept, TopsAt, Ready, AllLoadable, ArgsFit, Needed, SizeOf, AsHeadersSay;
      ghost var es, mem0, own0 := Entries(), m.mem, m.own;
      assert es[i] == EntryOf(procs[i]);
      OneObject(i);
      r, sp, ustack := Kexec(m, procs[i], trampoline, header, file, phs, args);
      if r == -1 {
        AfterNothing(mem0, own0, m.mem, m.own, es);
        assert Entries() == es;
      } else {
        AfterExec(mem0, own0, m.mem, m.own, es, i, EntryOf(procs[i]));
        assert Entries() == es[i := EntryOf(procs[i])];
      }
    }

    /** freeproc of process i: it leaves the table, every page it had is free, and the others keep theirs. */
    method Free(i: nat)
      requires Valid() && i < |procs|
      modifies this, m
      ensures Valid() && procs == Without(old(procs), i) && OthersSee(old(m.mem), m.mem, m.own, old(Entries()), i)
      ensures |m.own| == |old(m.own)| && |old(m.mem)| == |old(m.own)|
      ensures forall q: nat ::
        0 < q < |m.own| && (OfRoot(old(m.own)[q], old(procs[i].pagetable)) || q == old(procs[i].trapframe)) ==> m.own[q].Free?
    {
      hide TreeOk, Image, OthersSee, Apart, CellsKept, TopsAt;
      ghost var es, mem0, own0 := Entries(), m.mem, m.own;
      assert es[i] == EntryOf(procs[i]);
      OneObject(i);
      ghost var c, h := Run(m.freelist), |m.free|;
      FreeImage(m, procs[i].trapframe, procs[i].pagetable, procs[i].sz);
      AfterFree(mem0, own0, m.mem, m.own, c, h, es, i);
      procs := Without(procs, i);
      assert Entries() == Without(es, i);
    }
  }
}
