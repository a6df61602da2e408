/** The in-memory inode table of kernel/fs.c under concurrent ialloc, iget, ilock and iput. A step is one
    critical section: under itable.lock, under the lock of an inode block, or by the holder of an
    inode's sleep lock. iput() of an inode without links takes three of them. */
module Itable {
  /** struct inode; kind and nlink are copies of the fields on disk if it is valid, and unlocked marks a slot
      that ialloc() returned and its caller has not locked yet. */
  datatype Slot = Slot(ref: int, inum: nat, valid: bool, unlocked: bool, kind: nat, nlink: nat)

  /** A pointer that somebody got for inode inum and has not given up. */
  datatype Handle = Handle(slot: nat, inum: nat)

  /** types and nlink are the fields on disk; type 0 is a free inode. The handles are numbered as they are
      given out, next is the next number. born are inodes between the two halves of ialloc(), dropping the
      handles inside an iput() that gives up the last reference to an inode without links, and limbo the
      inodes that iput() has let go of and not marked free yet. */
  datatype State = State(types: seq<nat>, nlink: seq<nat>, slots: seq<Slot>, handles: map<nat, Handle>, next: nat,
                         born: set<nat>, dropping: set<nat>, limbo: set<nat>)

  datatype Step =
    | Ialloc(inum: nat, kind: nat)        // finds type 0 and sets it
    | IallocGet(inum: nat)                // the iget() at the end of ialloc()
    | IgetEntry(inum: nat)                // iget() for a directory record, so the inode has links
    | Idup(h: nat)
    | Ilock(h: nat)
    | SetLinks(h: nat, n: nat)            // the holder of the lock changes nlink, and iupdate() writes it
    | Iput(h: nat)
    | IputDrop(h: nat)
    | Ifree(inum: nat)

  datatype Outcome = Next(state: State) | Panic

  /** The loop of iget(): the slot that holds inum, else the first empty slot, else none. */
  function FindSlot(slots: seq<Slot>, inum: nat, k: nat, empty: int): (r: int)
    requires k <= |slots| && -1 <= empty < k
    requires empty >= 0 ==> slots[empty].ref == 0
    ensures -1 <= r < |slots|
    ensures r >= 0 && slots[r].ref > 0 ==> slots[r].inum == inum
    ensures r >= 0 && slots[r].ref <= 0 ==> slots[r].ref == 0
    ensures r < 0 || slots[r].ref == 0 ==> forall j :: k <= j < |slots| ==> !(slots[j].ref > 0 && slots[j].inum == inum)
    ensures r < 0 ==> empty < 0 && forall j :: k <= j < |slots| ==> slots[j].ref != 0
    decreases |slots| - k
  {
    if k == |slots| then empty
    else if slots[k].ref > 0 && slots[k].inum == inum then k
    else FindSlot(slots, inum, k + 1, if empty < 0 && slots[k].ref == 0 then k else empty)
  }

  /** iget(); `unlocked` if ialloc() calls it. */
  function Iget(s: State, inum: nat, unlocked: bool): Outcome {
    var k := FindSlot(s.slots, inum, 0, -1);
    if k < 0 then Panic
    else
      var x := s.slots[k];
      var y := if x.ref > 0 then x.(ref := x.ref + 1) else x.(ref := 1, inum := inum, valid := false, unlocked := unlocked);
      Next(s.(slots := s.slots[k := y], handles := s.handles[s.next := Handle(k, inum)], next := s.next + 1))
  }

  /** Somebody may use the pointer h: it is a handle, and not inside its last iput(). */
  predicate Live(s: State, h: nat) {
    h in s.handles && h !in s.dropping && s.handles[h].slot < |s.slots| && s.slots[s.handles[h].slot].inum < |s.types| == |s.nlink|
  }

  predicate Enabled(s: State, t: Step) {
    match t
    case Ialloc(inum, kind) => 0 < inum < |s.types| && s.types[inum] == 0 && kind != 0
    case IallocGet(inum) => inum in s.born
    case IgetEntry(inum) => inum < |s.nlink| && s.nlink[inum] > 0
    case Idup(h) => Live(s, h)
    case Ilock(h) => Live(s, h)
    case SetLinks(h, _) => Live(s, h) && s.slots[s.handles[h].slot].valid
    case Iput(h) => Live(s, h) && !s.slots[s.handles[h].slot].unlocked
    case IputDrop(h) => h in s.dropping && h in s.handles && s.handles[h].slot < |s.slots|
    case Ifree(inum) => inum in s.limbo && inum < |s.types|
  }

  function Apply(s: State, t: Step): Outcome
    requires Enabled(s, t)
  {
    match t
    case Ialloc(inum, kind) => Next(s.(types := s.types[inum := kind], born := s.born + {inum}))
    case IallocGet(inum) => Iget(s.(born := s.born - {inum}), inum, true)
    case IgetEntry(inum) => Iget(s, inum, false)
    case Idup(h) =>
      var k := s.handles[h].slot;
      Next(s.(slots := s.slots[k := s.slots[k].(ref := s.slots[k].ref + 1)],
              handles := s.handles[s.next := s.handles[h]], next := s.next + 1))
    case Ilock(h) =>
      var k := s.handles[h].slot;
      var x := s.slots[k];
      if x.ref < 1 then Panic
      else if x.valid then Next(s.(slots := s.slots[k := x.(unlocked := false)]))
      else if s.types[x.inum] == 0 then Panic
      else Next(s.(slots := s.slots[k := x.(valid := true, unlocked := false, kind := s.types[x.inum], nlink := s.nlink[x.inum])]))
    case SetLinks(h, n) =>
      var k := s.handles[h].slot;
      Next(s.(slots := s.slots[k := s.slots[k].(nlink := n)], nlink := s.nlink[s.slots[k].inum := n]))
    case Iput(h) =>
      var k := s.handles[h].slot;
      var x := s.slots[k];
      if x.ref == 1 && x.valid && x.nlink == 0 then Next(s.(dropping := s.dropping + {h}))
      else Next(s.(slots := s.slots[k := x.(ref := x.ref - 1)], handles := s.handles - {h}))
    case IputDrop(h) =>
      var k := s.handles[h].slot;
      var x := s.slots[k];
      Next(s.(slots := s.slots[k := x.(ref := x.ref - 1, valid := false)], handles := s.handles - {h},
              dropping := s.dropping - {h}, limbo := s.limbo + {x.inum}))
    case Ifree(inum) => Next(s.(types := s.types[inum := 0], limbo := s.limbo - {inum}))
  }

  /** The handles on slot k. */
  function On(handles: map<nat, Handle>, k: nat): set<nat> { set h | h in handles && handles[h].slot == k }

  /** ref counts the handles, and what a slot in use stands for. */
  ghost predicate SlotOk(s: State, k: nat)
    requires k < |s.slots|
  {
    var x := s.slots[k];
    && x.ref == |On(s.handles, k)|
    && (x.ref > 0 ==>
          && x.inum < |s.types| == |s.nlink| && s.types[x.inum] != 0 && x.inum !in s.limbo && x.inum !in s.born
          && (!x.valid && s.nlink[x.inum] == 0 ==> x.unlocked) && (x.unlocked ==> !x.valid)
          && (x.valid ==> x.kind == s.types[x.inum] && x.nlink == s.nlink[x.inum]))
  }

  /** A handle is on a slot for the inode it was given out for. */
  predicate HandleOk(s: State, h: nat)
    requires h in s.handles
  {
    h < s.next && s.handles[h].slot < |s.slots| && s.slots[s.handles[h].slot].inum == s.handles[h].inum
  }

  /** The last reference to an inode without links. */
  predicate DropOk(s: State, h: nat) {
    h in s.handles && s.handles[h].slot < |s.slots| && var x := s.slots[s.handles[h].slot]; x.ref == 1 && x.valid && x.nlink == 0
  }

  /** Slot k is the in-memory copy of inode i. */
  predicate Holds(s: State, k: nat, i: nat) { k < |s.slots| && s.slots[k].ref > 0 && s.slots[k].inum == i }

  /** Inode i: free inodes have no links and are held by nobody, and an allocated inode without links is
      in use or on its way out. */
  ghost predicate InodeOk(s: State, i: nat)
    requires i < |s.types| == |s.nlink|
  {
    && (s.types[i] == 0 ==> s.nlink[i] == 0 && i !in s.born && i !in s.limbo)
    && (i in s.born || i in s.limbo ==> s.nlink[i] == 0)
    && (i in s.born ==> i !in s.limbo)
    && (s.types[i] != 0 && s.nlink[i] == 0 && i !in s.born && i !in s.limbo ==> exists k: nat :: Holds(s, k, i))
  }

  ghost predicate Inv(s: State) {
    && |s.types| == |s.nlink|
    && (forall i :: i in s.born || i in s.limbo ==> i < |s.types|)
    && (forall h :: h in s.dropping ==> DropOk(s, h))
    && (forall h :: h in s.handles ==> HandleOk(s, h))
    && (forall k: nat :: k < |s.slots| ==> SlotOk(s, k))
    && (forall j: nat, k: nat :: j < k < |s.slots| && s.slots[j].ref > 0 && s.slots[k].ref > 0 ==>
          s.slots[j].inum != s.slots[k].inum)
    && (forall i: nat :: i < |s.types| ==> InodeOk(s, i))
  }

  lemma OnPlus(handles: map<nat, Handle>, h: nat, x: Handle, k: nat)
    requires h !in handles
    ensures |On(handles[h := x], k)| == |On(handles, k)| + if k == x.slot then 1 else 0
  {
    assert On(handles[h := x], k) == On(handles, k) + if k == x.slot then {h} else {};
  }

  lemma OnMinus(handles: map<nat, Handle>, h: nat, k: nat)
    requires h in handles
    ensures |On(handles - {h}, k)| == |On(handles, k)| - if k == handles[h].slot then 1 else 0
  {
    assert On(handles - {h}, k) == On(handles, k) - if k == handles[h].slot then {h} else {};
  }

  /** A handle is counted, and a slot that counts one has no other. */
  lemma Counted(s: State, h: nat, g: nat)
    requires Inv(s) && h in s.handles
    ensures HandleOk(s, h) && s.slots[s.handles[h].slot].ref > 0
    ensures g in s.handles && g != h && s.handles[g].slot == s.handles[h].slot ==> s.slots[s.handles[h].slot].ref > 1
  {
    var k := s.handles[h].slot;
    assert HandleOk(s, h) && SlotOk(s, k);
    assert h in On(s.handles, k);
    if g in s.handles && g != h && s.handles[g].slot == k {
      assert {g} <= On(s.handles, k) - {h};
      assert |On(s.handles, k) - {h}| > 0;
    }
  }

  lemma IgetSlots(s: State, s0: State, inum: nat, unlocked: bool, j: nat)
    requires Inv(s0) && s0 == s.(born := s.born + (if unlocked then {inum} else {})) && inum !in s.born
    requires inum < |s.types| && s.types[inum] != 0 && inum !in s.limbo && (s.nlink[inum] == 0 ==> unlocked)
    requires Iget(s, inum, unlocked).Next? && j < |s.slots|
    ensures |Iget(s, inum, unlocked).state.slots| == |s.slots| && SlotOk(Iget(s, inum, unlocked).state, j)
  {
    var k := FindSlot(s.slots, inum, 0, -1);
    assert SlotOk(s0, j);
    assert s.next in s.handles ==> HandleOk(s0, s.next);
    OnPlus(s.handles, s.next, Handle(k, inum), j);
  }

  lemma IgetHandles(s: State, s0: State, inum: nat, unlocked: bool, h: nat)
    requires Inv(s0) && s0 == s.(born := s.born + (if unlocked then {inum} else {}))
    requires Iget(s, inum, unlocked).Next? && h in Iget(s, inum, unlocked).state.handles && inum < |s.types|
    requires s.nlink[inum] == 0 ==> unlocked && inum !in s.born
    ensures var s1 := Iget(s, inum, unlocked).state;
            HandleOk(s1, h) && (h in s.dropping ==> DropOk(s1, h))
  {
    var k := FindSlot(s.slots, inum, 0, -1);
    assert SlotOk(s0, k);
    if h in s.handles { Counted(s0, h, h); }
    if h in s.dropping {
      assert DropOk(s0, h) && SlotOk(s0, s.handles[h].slot);
    }
  }

  lemma IgetKeepsInv(s: State, inum: nat, unlocked: bool)
    requires Inv(s.(born := s.born + (if unlocked then {inum} else {}))) && inum !in s.born
    requires inum < |s.types| && s.types[inum] != 0 && inum !in s.limbo && (s.nlink[inum] == 0 ==> unlocked)
    requires Iget(s, inum, unlocked).Next?
    ensures Inv(Iget(s, inum, unlocked).state)
  {
    var s0 := s.(born := s.born + (if unlocked then {inum} else {}));
    var s1, k := Iget(s, inum, unlocked).state, FindSlot(s.slots, inum, 0, -1);
    forall h | h in s1.handles ensures HandleOk(s1, h) && (h in s1.dropping ==> DropOk(s1, h)) { IgetHandles(s, s0, inum, unlocked, h); }
    forall h | h in s1.dropping ensures DropOk(s1, h) { assert DropOk(s0, h); }
    forall j: nat | j < |s1.slots| ensures SlotOk(s1, j) { IgetSlots(s, s0, inum, unlocked, j); }
    forall i: nat | i < |s1.types| ensures InodeOk(s1, i) {
      assert InodeOk(s0, i);
      assert SlotOk(s0, k);
      assert i == inum ==> Holds(s1, k, i);
      if j: nat :| Holds(s0, j, i) { assert Holds(s1, j, i); }
    }
  }

  lemma IdupKeepsInv(s: State, t: Step)
    requires Inv(s) && Enabled(s, t) && t.Idup?
    ensures Inv(Apply(s, t).state)
  {
    var s1, k := Apply(s, t).state, s.handles[t.h].slot;
    assert s.next in s.handles ==> HandleOk(s, s.next);
    Counted(s, t.h, t.h);
    forall h | h in s1.handles ensures HandleOk(s1, h) { if h != s.next { assert HandleOk(s, h); } }
    forall h | h in s1.dropping ensures DropOk(s1, h) {
      assert DropOk(s, h);
      Counted(s, h, t.h);
    }
    forall j: nat | j < |s1.slots| ensures SlotOk(s1, j) {
      assert SlotOk(s, j);
      OnPlus(s.handles, s.next, s.handles[t.h], j);
    }
    forall i: nat | i < |s1.types| ensures InodeOk(s1, i) {
      assert InodeOk(s, i);
      if j: nat :| Holds(s, j, i) { assert Holds(s1, j, i); }
    }
  }

  /** The holder of a handle locks the inode, or changes its links. */
  lemma UseKeepsInv(s: State, t: Step)
    requires Inv(s) && Enabled(s, t) && (t.Ilock? || t.SetLinks?)
    ensures Apply(s, t).Next? && Inv(Apply(s, t).state)
  {
    Counted(s, t.h, t.h);
    assert SlotOk(s, s.handles[t.h].slot);
    var s1, k := Apply(s, t).state, s.handles[t.h].slot;
    forall h | h in s1.handles ensures HandleOk(s1, h) { assert HandleOk(s, h); }
    forall h | h in s1.dropping ensures DropOk(s1, h) {
      assert DropOk(s, h);
      Counted(s, h, t.h);
    }
    forall j: nat | j < |s1.slots| ensures SlotOk(s1, j) { assert SlotOk(s, j); }
    forall i: nat | i < |s1.types| ensures InodeOk(s1, i) {
      assert InodeOk(s, i);
      assert i == s.slots[k].inum ==> Holds(s1, k, i);
      if j: nat :| Holds(s, j, i) { assert Holds(s1, j, i); }
    }
  }

  lemma PutKeepsInv(s: State, t: Step)
    requires Inv(s) && Enabled(s, t) && (t.Iput? || t.IputDrop?)
    ensures Inv(Apply(s, t).state)
  {
    Counted(s, t.h, t.h);
    var s1, k := Apply(s, t).state, s.handles[t.h].slot;
    assert SlotOk(s, k);
    if t.IputDrop? { assert DropOk(s, t.h); }
    forall h | h in s1.handles ensures HandleOk(s1, h) { assert HandleOk(s, h); }
    forall h | h in s1.dropping ensures DropOk(s1, h) {
      if h != t.h {
        assert DropOk(s, h);
        Counted(s, h, t.h);
      }
    }
    forall j: nat | j < |s1.slots| ensures SlotOk(s1, j) {
      assert SlotOk(s, j);
      OnMinus(s.handles, t.h, j);
    }
    forall i: nat | i < |s1.types| ensures InodeOk(s1, i) {
      assert InodeOk(s, i);
      if j: nat :| Holds(s, j, i) { assert j != k ==> Holds(s1, j, i); }
      if s1.slots[k].ref > 0 { assert Holds(s1, k, s.slots[k].inum); }
    }
  }

  lemma DiskKeepsInv(s: State, t: Step)
    requires Inv(s) && Enabled(s, t) && (t.Ialloc? || t.Ifree?)
    ensures Inv(Apply(s, t).state)
  {
    var s1 := Apply(s, t).state;
    forall h | h in s1.handles ensures HandleOk(s1, h) { assert HandleOk(s, h); }
    forall h | h in s1.dropping ensures DropOk(s1, h) { assert DropOk(s, h); }
    forall j: nat | j < |s1.slots| ensures SlotOk(s1, j) { assert SlotOk(s, j); }
    forall i: nat | i < |s1.types| ensures InodeOk(s1, i) {
      assert InodeOk(s, i);
      if j: nat :| Holds(s, j, i) { assert Holds(s1, j, i); }
    }
  }

  /** Every step keeps the invariant. The only panic left is iget() with every slot referenced. */
  lemma StepKeepsInv(s: State, t: Step)
    requires Inv(s) && Enabled(s, t)
    ensures Apply(s, t).Next? ==> Inv(Apply(s, t).state)
    ensures Apply(s, t).Panic? ==> (t.IallocGet? || t.IgetEntry?) && forall k: nat :: k < |s.slots| ==> s.slots[k].ref > 0
  {
    match t
    case IallocGet(inum) =>
      assert InodeOk(s, inum);
      assert s.born - {inum} + {inum} == s.born;
      if Apply(s, t).Next? { IgetKeepsInv(s.(born := s.born - {inum}), inum, true); }
      forall k: nat | k < |s.slots| ensures s.slots[k].ref >= 0 { assert SlotOk(s, k); }
    case IgetEntry(inum) =>
      assert InodeOk(s, inum);
      assert s.born + {} == s.born;
      if Apply(s, t).Next? { IgetKeepsInv(s, inum, false); }
      forall k: nat | k < |s.slots| ensures s.slots[k].ref >= 0 { assert SlotOk(s, k); }
    case Iput(_) => PutKeepsInv(s, t);
    case IputDrop(_) => PutKeepsInv(s, t);
    case Ialloc(_, _) => DiskKeepsInv(s, t);
    case Ifree(_) => DiskKeepsInv(s, t);
    case Idup(_) => IdupKeepsInv(s, t);
    case _ => UseKeepsInv(s, t);
  }

  /** What a step does to the handles: iget() gives out one for the inode asked for, idup() one more for the same inode, iput()
      takes the one it is given, at once or as the last one; all others stay what they are. */
  lemma HandleSteps(s: State, t: Step)
    requires Inv(s) && Enabled(s, t) && Apply(s, t).Next?
    ensures s.next !in s.handles
    ensures var s1 := Apply(s, t).state;
            match t
            case IallocGet(inum) =>
              s.next in s1.handles && s1.handles == s.handles[s.next := s1.handles[s.next]] && s1.handles[s.next].inum == inum
            case IgetEntry(inum) =>
              s.next in s1.handles && s1.handles == s.handles[s.next := s1.handles[s.next]] && s1.handles[s.next].inum == inum
            case Idup(h) => s1.handles == s.handles[s.next := s.handles[h]]
            case Iput(h) => h in s1.dropping || s1.handles == s.handles - {h}
            case IputDrop(h) => s1.handles == s.handles - {h}
            case _ => s1.handles == s.handles
  {
    assert s.next in s.handles ==> HandleOk(s, s.next);
  }

  ghost predicate RunOk(s: State, ts: seq<Step>)
    decreases ts
  {
    ts != [] ==> Enabled(s, ts[0]) && Apply(s, ts[0]).Next? && RunOk(Apply(s, ts[0]).state, ts[1..])
  }

  ghost function After(s: State, ts: seq<Step>): State
    requires RunOk(s, ts)
    decreases ts
  {
    if ts == [] then s else After(Apply(s, ts[0]).state, ts[1..])
  }

  lemma {:induction false} RunKeepsInv(s: State, ts: seq<Step>)
    requires Inv(s) && RunOk(s, ts)
    ensures Inv(After(s, ts))
    decreases ts
  {
    if ts != [] {
      StepKeepsInv(s, ts[0]);
      RunKeepsInv(Apply(s, ts[0]).state, ts[1..]);
    }
  }

  /** After boot and ireclaim(): every slot is empty, and exactly the allocated inodes have links. */
  ghost predicate Init(s: State) {
    && |s.types| == |s.nlink| && s.born == {} && s.dropping == {} && s.limbo == {} && s.handles == map[]
    && (forall k: nat :: k < |s.slots| ==> s.slots[k].ref == 0)
    && (forall i: nat :: i < |s.types| ==> (s.types[i] == 0 <==> s.nlink[i] == 0))
  }

  lemma InitInv(s: State)
    requires Init(s)
    ensures Inv(s)
  {
    forall i: nat | i < |s.types| ensures InodeOk(s, i) { }
    forall k: nat | k < |s.slots| ensures SlotOk(s, k) { assert On(s.handles, k) == {}; }
  }

  /** In every concurrent run ref is the number of handles on the slot, and a handle's slot holds the inode that the handle was
      given out for, which is allocated. */
  lemma RefsAreHandles(s: State, ts: seq<Step>, k: nat, h: nat)
    requires Init(s) && RunOk(s, ts)
    ensures var s1 := After(s, ts);
            && (k < |s1.slots| ==> s1.slots[k].ref == |On(s1.handles, k)|)
            && (h in s1.handles ==> Holds(s1, s1.handles[h].slot, s1.handles[h].inum)
                                    && s1.handles[h].inum < |s1.types| && s1.types[s1.handles[h].inum] != 0)
  {
    InitInv(s);
    RunKeepsInv(s, ts);
    var s1 := After(s, ts);
    if k < |s1.slots| { assert SlotOk(s1, k); }
    if h in s1.handles {
      Counted(s1, h, h);
      assert SlotOk(s1, s1.handles[h].slot);
    }
  }

  /** In every concurrent run at most one referenced slot holds an inode, ialloc() never picks an inode
      that a referenced slot holds, that a handle names or that iput() is still freeing, and the panics of
      ilock() are unreachable. */
  lemma NoReuseWhileReferenced(s: State, ts: seq<Step>, inum: nat, j: nat, k: nat, h: nat)
    requires Init(s) && RunOk(s, ts)
    ensures var s1 := After(s, ts);
            && (Holds(s1, j, inum) && Holds(s1, k, inum) ==> j == k)
            && (Enabled(s1, Ialloc(inum, 1)) ==> !Holds(s1, k, inum) && inum !in s1.limbo)
            && (Enabled(s1, Ialloc(inum, 1)) && h in s1.handles ==> s1.handles[h].inum != inum)
            && (Enabled(s1, Ialloc(inum, 1)) ==> inum < |s1.nlink| && s1.nlink[inum] == 0)
            && (Enabled(s1, Ilock(h)) ==> Apply(s1, Ilock(h)).Next?)
  {
    InitInv(s);
    RunKeepsInv(s, ts);
    var s1 := After(s, ts);
    if k < |s1.slots| { assert SlotOk(s1, k); }
    if inum < |s1.types| { assert InodeOk(s1, inum); }
    if h in s1.handles {
      Counted(s1, h, h);
      assert SlotOk(s1, s1.handles[h].slot);
    }
    if Enabled(s1, Ilock(h)) { UseKeepsInv(s1, Ilock(h)); }
  }

  /** In every concurrent run a copy that counts as valid is what the disk says. */
  lemma CopiesCurrent(s: State, ts: seq<Step>, h: nat)
    requires Init(s) && RunOk(s, ts) && h in After(s, ts).handles
    ensures var s1 := After(s, ts);
            && s1.handles[h].slot < |s1.slots| && s1.handles[h].inum < |s1.types| == |s1.nlink|
            && var x := s1.slots[s1.handles[h].slot];
               x.valid ==> x.kind == s1.types[s1.handles[h].inum] && x.nlink == s1.nlink[s1.handles[h].inum]
  {
    InitInv(s);
    RunKeepsInv(s, ts);
    Counted(After(s, ts), h, h);
    assert SlotOk(After(s, ts), After(s, ts).handles[h].slot);
  }

  /** In every concurrent run an allocated inode without links is referenced, or inside ialloc() or iput():
      none is leaked. */
  lemma NoLeak(s: State, ts: seq<Step>, inum: nat)
    requires Init(s) && RunOk(s, ts) && inum < |After(s, ts).types| == |After(s, ts).nlink|
    ensures var s1 := After(s, ts);
            s1.types[inum] != 0 && s1.nlink[inum] == 0 ==>
              inum in s1.born || inum in s1.limbo || exists k: nat :: Holds(s1, k, inum)
  {
    InitInv(s);
    RunKeepsInv(s, ts);
    assert InodeOk(After(s, ts), inum);
  }
}
