/** Directories and link counts: create(), sys_link() and sys_unlink() of kernel/sysfile.c over the
    directory operations of kernel/fs.c. A step is what one system call does while it holds the inode
    locks; sys_link() lets go of the file between raising its count and writing the entry, so it takes
    two steps and other calls may run in between. */
module Dirs {
  import opened Options

  const ROOT: nat := 1                // ROOTINO
  const NLINK_MAX: int := 32767

  datatype Kind = Free | Dir | File | Device

  /** struct dirent; inum 0 marks an unused record. */
  datatype Dirent = Dirent(inum: nat, name: string)

  const UNUSED := Dirent(0, "")

  datatype Inode = Inode(kind: Kind, nlink: int, entries: seq<Dirent>)

  const FREE_INODE := Inode(Free, 0, [])

  /** The inodes, the files whose sys_link() is half done, and two notes that nothing depends on: how deep
      each linked directory is, and in which record of its parent it is entered. */
  datatype State = State(inodes: seq<Inode>, pending: multiset<nat>, depth: seq<nat>, slot: seq<nat>)

  predicate Linked(ip: Inode) { ip.kind.Dir? && ip.nlink > 0 }

  /** dirlookup(): the first record in use with this name, or |entries|. */
  function Find(entries: seq<Dirent>, name: string, from: nat): (k: nat)
    requires from <= |entries|
    ensures from <= k <= |entries|
    ensures k < |entries| ==> entries[k].inum != 0 && entries[k].name == name
    ensures forall j :: from <= j < k ==> entries[j].inum == 0 || entries[j].name != name
    decreases |entries| - from
  {
    if from == |entries| || (entries[from].inum != 0 && entries[from].name == name) then from
    else Find(entries, name, from + 1)
  }

  /** The first unused record, or |entries|. */
  function FindUnused(entries: seq<Dirent>, from: nat): (k: nat)
    requires from <= |entries|
    ensures from <= k <= |entries| && (k < |entries| ==> entries[k].inum == 0)
    ensures forall j :: from <= j < k ==> entries[j].inum != 0
    decreases |entries| - from
  {
    if from == |entries| || entries[from].inum == 0 then from else FindUnused(entries, from + 1)
  }

  /** dirlink(): the new records, or nothing if the name is taken or the directory cannot grow. */
  function Dirlink(entries: seq<Dirent>, name: string, inum: nat, space: bool): Option<seq<Dirent>> {
    var k := FindUnused(entries, 0);
    if Find(entries, name, 0) < |entries| then None
    else if k < |entries| then Some(entries[k := Dirent(inum, name)])
    else if space then Some(entries + [Dirent(inum, name)])
    else None
  }

  /** isdirempty(): nothing after the first two records. */
  predicate IsEmpty(entries: seq<Dirent>) { forall k :: 2 <= k < |entries| ==> entries[k].inum == 0 }

  predicate IsDot(name: string) { name == "." || name == ".." }

  datatype Step =
    | Create(dp: nat, name: string, kind: Kind, ip: nat, dot: bool, dotdot: bool, space: bool)
    | LinkStart(ip: nat)
    | LinkFinish(ip: nat, dp: nat, name: string, space: bool)
    | LinkAbort(ip: nat)
    | Unlink(dp: nat, name: string)
    | Reclaim(ip: nat)                  // the last iput() of an inode without links, or ireclaim()

  /** What a step leads to, and its answer: the inode or 0 for create(), 0 or -1 for the others. */
  datatype Outcome = Next(state: State, ret: int) | Panic

  /** Callers hold a reference to dp, so it is still a directory, but perhaps one that has been
      unlinked. In Create, ip is the inode that ialloc() finds, or 0 if there is none, and the flags say
      whether the directories can grow if they must. */
  predicate Enabled(s: State, t: Step) {
    match t
    case Create(dp, _, kind, ip, _, _, _) =>
      && dp < |s.inodes| && s.inodes[dp].kind.Dir? && !kind.Free?
      && ip < |s.inodes| && s.inodes[ip].kind.Free?
      && (ip == 0 ==> forall i :: 0 <= i < |s.inodes| && s.inodes[i].kind.Free? ==> i == 0)
    case LinkStart(ip) => ip < |s.inodes| && !s.inodes[ip].kind.Free?
    case LinkFinish(ip, dp, _, _) => ip in s.pending && dp < |s.inodes| && s.inodes[dp].kind.Dir?
    case LinkAbort(ip) => ip in s.pending && ip < |s.inodes|
    case Unlink(dp, _) => dp < |s.inodes| && s.inodes[dp].kind.Dir?
    case Reclaim(ip) => 0 < ip < |s.inodes| && !s.inodes[ip].kind.Free? && s.inodes[ip].nlink == 0
  }

  /** The records create() gives a new inode, and whether it got as far as it wanted. */
  function Dots(t: Step): (r: (seq<Dirent>, bool))
    requires t.Create?
  {
    if !t.kind.Dir? then ([], true)
    else match Dirlink([], ".", t.ip, t.dot)
      case None => ([], false)
      case Some(e1) =>
        match Dirlink(e1, "..", t.dp, t.dotdot)
        case None => (e1, false)
        case Some(e2) => (e2, true)
  }

  /** create() of a name that is there already: the inode if a file is asked for and it is no directory, else 0. */
  function Existing(s: State, i: nat, kind: Kind): nat {
    if kind.File? && i < |s.inodes| && (s.inodes[i].kind.File? || s.inodes[i].kind.Device?) then i else 0
  }

  function Created(s: State, t: Step): (State, int)
    requires t.Create? && Enabled(s, t)
  {
    var d := s.inodes[t.dp];
    var (e, made) := Dots(t);
    var k := Find(d.entries, t.name, 0);
    if d.nlink == 0 || (t.kind.Dir? && d.nlink >= NLINK_MAX) then (s, 0)
    else if k < |d.entries| then (s, Existing(s, d.entries[k].inum, t.kind))
    else if t.ip == 0 then (s, 0)
    else if !made || Dirlink(d.entries, t.name, t.ip, t.space).None? then
      (s.(inodes := s.inodes[t.ip := Inode(t.kind, 0, e)]), 0)
    else
      var d1 := Inode(Dir, if t.kind.Dir? then d.nlink + 1 else d.nlink,
                      Dirlink(d.entries, t.name, t.ip, t.space).value);
      (s.(inodes := s.inodes[t.ip := Inode(t.kind, 1, e)][t.dp := d1],
          depth := if t.dp < |s.depth| && t.ip < |s.depth| then s.depth[t.ip := s.depth[t.dp] + 1] else s.depth,
          slot := if t.ip < |s.slot| then s.slot[t.ip := FindUnused(d.entries, 0)] else s.slot), t.ip)
  }

  function Unlinked(s: State, t: Step): Outcome
    requires t.Unlink? && Enabled(s, t)
  {
    var d := s.inodes[t.dp];
    var k := Find(d.entries, t.name, 0);
    if IsDot(t.name) || k == |d.entries| then Next(s, -1)
    else if d.entries[k].inum >= |s.inodes| then Panic
    else
      var i := d.entries[k].inum;
      var ip := s.inodes[i];
      if ip.nlink < 1 then Panic
      else if ip.kind.Dir? && !IsEmpty(ip.entries) then Next(s, -1)
      else
        var d1 := d.(entries := d.entries[k := UNUSED], nlink := if ip.kind.Dir? then d.nlink - 1 else d.nlink);
        var inodes1 := s.inodes[t.dp := d1];
        Next(s.(inodes := inodes1[i := inodes1[i].(nlink := inodes1[i].nlink - 1)]), 0)
  }

  function LinkFinished(s: State, t: Step): (State, int)
    requires t.LinkFinish? && Enabled(s, t)
  {
    var d := s.inodes[t.dp];
    if d.nlink == 0 then (s, -1)
    else match Dirlink(d.entries, t.name, t.ip, t.space)
      case None => (s, -1)
      case Some(e) => (s.(inodes := s.inodes[t.dp := d.(entries := e)], pending := s.pending - multiset{t.ip}), 0)
  }

  function Apply(s: State, t: Step): Outcome
    requires Enabled(s, t)
  {
    match t
    case Create(_, _, _, _, _, _, _) => Next(Created(s, t).0, Created(s, t).1)
    case LinkStart(i) =>
      var ip := s.inodes[i];
      if ip.kind.Dir? || ip.nlink >= NLINK_MAX then Next(s, -1)
      else Next(s.(inodes := s.inodes[i := ip.(nlink := ip.nlink + 1)], pending := s.pending + multiset{i}), 0)
    case LinkFinish(_, _, _, _) => Next(LinkFinished(s, t).0, LinkFinished(s, t).1)
    case LinkAbort(i) =>
      Next(s.(inodes := s.inodes[i := s.inodes[i].(nlink := s.inodes[i].nlink - 1)], pending := s.pending - multiset{i}), -1)
    case Unlink(_, _) => Unlinked(s, t)
    case Reclaim(i) => Next(s.(inodes := s.inodes[i := FREE_INODE]), 0)
  }

  /** Record k of directory d counts as a link to i: d is linked, and the record is not its ".". */
  predicate IsRef(inodes: seq<Inode>, d: nat, k: nat, i: nat) {
    d < |inodes| && Linked(inodes[d]) && 1 <= k < |inodes[d].entries| && inodes[d].entries[k].inum == i
  }

  ghost function Refs(inodes: seq<Inode>, i: nat): set<(nat, nat)> {
    set d: nat, k: nat | d < |inodes| && k < |inodes[d].entries| && IsRef(inodes, d, k, i) :: (d, k)
  }

  /** Records of a directory: names are unique, dots stay in front, and an unlinked directory is empty. */
  ghost predicate DirOk(s: State, d: nat)
    requires d < |s.inodes|
  {
    var e := s.inodes[d].entries;
    && 0 <= s.inodes[d].nlink <= NLINK_MAX
    && (s.inodes[d].kind.Dir? ==>
          && (forall j, k :: 0 <= j < k < |e| && e[j].inum != 0 && e[k].inum != 0 ==> e[j].name != e[k].name)
          && (forall k :: 0 <= k < |e| && k < 2 && e[k].inum != 0 ==> IsDot(e[k].name))
          && (!Linked(s.inodes[d]) ==> IsEmpty(e))
          && (Linked(s.inodes[d]) ==> |e| >= 2 && e[0] == Dirent(d, ".") && e[1].name == ".." && e[1].inum != 0))
  }

  /** A directory is entered once, in the directory that its ".." names, one level up. */
  ghost predicate ParentOk(s: State, d: nat)
    requires d < |s.inodes| == |s.depth| == |s.slot|
  {
    Linked(s.inodes[d]) && |s.inodes[d].entries| >= 2 ==>
      var p := s.inodes[d].entries[1].inum;
      if d == ROOT then p == ROOT && s.depth[d] == 0
      else
        && p < |s.inodes| && p != d && Linked(s.inodes[p]) && s.depth[d] == s.depth[p] + 1
        && 2 <= s.slot[d] < |s.inodes[p].entries| && s.inodes[p].entries[s.slot[d]].inum == d
  }

  /** What record k of a linked directory d names. */
  ghost predicate EntryOk(s: State, d: nat, k: nat)
    requires d < |s.inodes| == |s.depth| == |s.slot| && k < |s.inodes[d].entries|
  {
    var i := s.inodes[d].entries[k].inum;
    Linked(s.inodes[d]) && k >= 2 && i != 0 ==>
      && i < |s.inodes| && !s.inodes[i].kind.Free? && s.inodes[i].nlink > 0
      && (s.inodes[i].kind.Dir? ==>
            i != ROOT && |s.inodes[i].entries| >= 2 && s.inodes[i].entries[1].inum == d && s.slot[i] == k)
  }

  ghost predicate CountOk(s: State, i: nat)
    requires i < |s.inodes|
  {
    && s.inodes[i].nlink == |Refs(s.inodes, i)| + s.pending[i]
    && (s.inodes[i].kind.Dir? || s.inodes[i].kind.Free? ==> s.pending[i] == 0)
  }

  ghost predicate Inv(s: State) {
    && ROOT < |s.inodes| == |s.depth| == |s.slot| && Linked(s.inodes[ROOT])
    && s.inodes[0].kind.Free?
    && (forall i :: i in s.pending ==> 0 < i < |s.inodes|)
    && (forall d: nat :: d < |s.inodes| ==> DirOk(s, d) && ParentOk(s, d))
    && (forall d: nat, k: nat :: d < |s.inodes| && k < |s.inodes[d].entries| ==> EntryOk(s, d, k))
    && (forall i: nat :: 0 < i < |s.inodes| ==> CountOk(s, i))
  }

  lemma RefsSame(inodes: seq<Inode>, inodes1: seq<Inode>, i: nat)
    requires forall d: nat, k: nat :: IsRef(inodes1, d, k, i) <==> IsRef(inodes, d, k, i)
    ensures Refs(inodes1, i) == Refs(inodes, i)
  {
  }

  lemma RefsPlus(inodes: seq<Inode>, inodes1: seq<Inode>, i: nat, d0: nat, k0: nat)
    requires !IsRef(inodes, d0, k0, i)
    requires forall d: nat, k: nat :: IsRef(inodes1, d, k, i) <==> IsRef(inodes, d, k, i) || (d == d0 && k == k0)
    ensures |Refs(inodes1, i)| == |Refs(inodes, i)| + 1
  {
    assert Refs(inodes1, i) == Refs(inodes, i) + {(d0, k0)};
  }

  /** What a successful dirlink() does to the records of a directory. */
  lemma DirlinkAt(e: seq<Dirent>, name: string, inum: nat, space: bool)
    requires Dirlink(e, name, inum, space).Some?
    ensures var k, e1 := FindUnused(e, 0), Dirlink(e, name, inum, space).value;
            && k < |e1| && e1[k] == Dirent(inum, name) && |e| <= |e1| <= |e| + 1
            && (k < |e| ==> e[k].inum == 0 && |e1| == |e|) && (k == |e| ==> |e1| == |e| + 1)
            && (forall j :: 0 <= j < |e1| && j != k ==> j < |e| && e1[j] == e[j])
            && (forall j :: 0 <= j < |e| && e[j].inum != 0 ==> e[j].name != name)
  {
  }

  /** A linked directory d with the free record k; the record becomes a link to i. */
  ghost predicate Entered(s: State, d: nat, k: nat, i: nat, e1: seq<Dirent>) {
    && d < |s.inodes| && Linked(s.inodes[d]) && 2 <= k < |e1|
    && (k < |s.inodes[d].entries| ==> s.inodes[d].entries[k].inum == 0) && k <= |s.inodes[d].entries|
    && |e1| == (if k < |s.inodes[d].entries| then |s.inodes[d].entries| else |s.inodes[d].entries| + 1)
    && e1[k].inum == i && i != 0 && !IsDot(e1[k].name)
    && (forall j :: 0 <= j < |e1| && j != k ==> j < |s.inodes[d].entries| && e1[j] == s.inodes[d].entries[j])
    && (forall j :: 0 <= j < |e1| && j != k && e1[j].inum != 0 ==> e1[j].name != e1[k].name)
  }

  lemma EnteredByDirlink(s: State, d: nat, name: string, i: nat, space: bool)
    requires Inv(s) && d < |s.inodes| && Linked(s.inodes[d]) && i != 0
    requires Dirlink(s.inodes[d].entries, name, i, space).Some?
    ensures Entered(s, d, FindUnused(s.inodes[d].entries, 0), i, Dirlink(s.inodes[d].entries, name, i, space).value)
  {
    assert DirOk(s, d);
    DirlinkAt(s.inodes[d].entries, name, i, space);
    var e := s.inodes[d].entries;
    assert e[0].name == "." && e[1].name == "..";
  }

  lemma EnterDir(s: State, s1: State, d: nat, k: nat, i: nat, e1: seq<Dirent>, x: nat)
    requires Inv(s) && Entered(s, d, k, i, e1) && i < |s.inodes| && i != d && i != ROOT
    requires |s1.inodes| == |s.inodes| == |s1.depth| == |s1.slot| && s1.inodes[d].entries == e1
    requires Linked(s1.inodes[d]) && s1.inodes[d].nlink <= NLINK_MAX
    requires forall x: nat :: x < |s.inodes| && x != d && x != i ==> s1.inodes[x] == s.inodes[x]
    requires forall x: nat :: x < |s.inodes| && x != i ==> s1.depth[x] == s.depth[x] && s1.slot[x] == s.slot[x]
    requires !s1.inodes[i].kind.Free? && 0 < s1.inodes[i].nlink <= NLINK_MAX
    requires s1.inodes[i].kind.Dir? ==>
      && s.inodes[i].kind.Free?
      && s1.inodes[i].entries == [Dirent(i, "."), Dirent(d, "..")] && s1.slot[i] == k && s1.depth[i] == s.depth[d] + 1
    requires !s1.inodes[i].kind.Dir? ==> !s.inodes[i].kind.Dir?
    requires x < |s1.inodes|
    ensures DirOk(s1, x) && ParentOk(s1, x)
  {
    assert DirOk(s, x) && ParentOk(s, x) && DirOk(s, d);
    if Linked(s1.inodes[x]) && x != ROOT && x != i { NotSlot(s, x, i); }
  }

  lemma EnterEntry(s: State, s1: State, d: nat, k: nat, i: nat, e1: seq<Dirent>, x: nat, j: nat)
    requires Inv(s) && Entered(s, d, k, i, e1) && i < |s.inodes| && i != d && i != ROOT
    requires |s1.inodes| == |s.inodes| == |s1.depth| == |s1.slot| && s1.inodes[d].entries == e1
    requires Linked(s1.inodes[d]) && s1.inodes[d].nlink <= NLINK_MAX
    requires forall x: nat :: x < |s.inodes| && x != d && x != i ==> s1.inodes[x] == s.inodes[x]
    requires forall x: nat :: x < |s.inodes| && x != i ==> s1.depth[x] == s.depth[x] && s1.slot[x] == s.slot[x]
    requires !s1.inodes[i].kind.Free? && 0 < s1.inodes[i].nlink <= NLINK_MAX
    requires s1.inodes[i].kind.Dir? ==>
      && s.inodes[i].kind.Free?
      && s1.inodes[i].entries == [Dirent(i, "."), Dirent(d, "..")] && s1.slot[i] == k && s1.depth[i] == s.depth[d] + 1
    requires !s1.inodes[i].kind.Dir? ==> !s.inodes[i].kind.Dir?
    requires x < |s1.inodes| && j < |s1.inodes[x].entries|
    ensures EntryOk(s1, x, j)
  {
    assert x != i && !(x == d && j == k) ==> EntryOk(s, x, j);
    assert DirOk(s, d);
  }

  /** Writing a record into linked directory d keeps all directories in order, whatever happens to its
      link count, as long as the record names an inode that may be entered there. */
  lemma EnterKeepsDirs(s: State, s1: State, d: nat, k: nat, i: nat, e1: seq<Dirent>)
    requires Inv(s) && Entered(s, d, k, i, e1) && i < |s.inodes| && i != d && i != ROOT
    requires |s1.inodes| == |s.inodes| == |s1.depth| == |s1.slot| && s1.inodes[d].entries == e1
    requires Linked(s1.inodes[d]) && s1.inodes[d].nlink <= NLINK_MAX
    requires forall x: nat :: x < |s.inodes| && x != d && x != i ==> s1.inodes[x] == s.inodes[x]
    requires forall x: nat :: x < |s.inodes| && x != i ==> s1.depth[x] == s.depth[x] && s1.slot[x] == s.slot[x]
    requires !s1.inodes[i].kind.Free? && 0 < s1.inodes[i].nlink <= NLINK_MAX
    requires s1.inodes[i].kind.Dir? ==>
      && s.inodes[i].kind.Free?
      && s1.inodes[i].entries == [Dirent(i, "."), Dirent(d, "..")] && s1.slot[i] == k && s1.depth[i] == s.depth[d] + 1
    requires !s1.inodes[i].kind.Dir? ==> !s.inodes[i].kind.Dir?
    ensures forall x: nat :: x < |s1.inodes| ==> DirOk(s1, x) && ParentOk(s1, x)
    ensures forall x: nat, j: nat :: x < |s1.inodes| && j < |s1.inodes[x].entries| ==> EntryOk(s1, x, j)
  {
    hide *;
    forall x: nat | x < |s1.inodes| ensures DirOk(s1, x) && ParentOk(s1, x) { EnterDir(s, s1, d, k, i, e1, x); }
    forall x: nat, j: nat | x < |s1.inodes| && j < |s1.inodes[x].entries| ensures EntryOk(s1, x, j) {
      EnterEntry(s, s1, d, k, i, e1, x, j);
    }
  }

  /** Where a linked directory is entered is never the inode i, which is not a directory yet. */
  lemma NotSlot(s: State, x: nat, i: nat)
    requires Inv(s) && x < |s.inodes| && Linked(s.inodes[x]) && x != ROOT && i < |s.inodes| && !s.inodes[i].kind.Dir?
    ensures |s.inodes[x].entries| >= 2 && s.inodes[x].entries[1].inum != i
  {
    assert DirOk(s, x) && ParentOk(s, x);
  }

  /** A file gets one more record: its count of references goes up by one, all others stay. */
  lemma EnterFileRefs(s: State, s1: State, d: nat, k: nat, i: nat, e1: seq<Dirent>, x: nat)
    requires Entered(s, d, k, i, e1) && x != 0 && |s1.inodes| == |s.inodes|
    requires s1.inodes[d].entries == e1 && Linked(s1.inodes[d])
    requires forall y: nat :: y < |s.inodes| && y != d && y != i ==> s1.inodes[y] == s.inodes[y]
    requires i < |s.inodes| ==> i == d || (!Linked(s1.inodes[i]) && !Linked(s.inodes[i]))
    ensures |Refs(s1.inodes, x)| == |Refs(s.inodes, x)| + (if x == i then 1 else 0)
  {
    if x == i { RefsPlus(s.inodes, s1.inodes, x, d, k); } else { RefsSame(s.inodes, s1.inodes, x); }
  }

  lemma LinkFinishKeepsInv(s: State, t: Step)
    requires Inv(s) && t.LinkFinish? && Enabled(s, t)
    ensures Inv(LinkFinished(s, t).0)
  {
    var s1, d := LinkFinished(s, t).0, s.inodes[t.dp];
    if s1 != s {
      assert CountOk(s, t.ip) && DirOk(s, t.ip) && DirOk(s, t.dp);
      EnteredByDirlink(s, t.dp, t.name, t.ip, t.space);
      var k, e1 := FindUnused(d.entries, 0), Dirlink(d.entries, t.name, t.ip, t.space).value;
      EnterKeepsDirs(s, s1, t.dp, k, t.ip, e1);
      forall x: nat | 0 < x < |s1.inodes| ensures CountOk(s1, x) {
        assert CountOk(s, x);
        EnterFileRefs(s, s1, t.dp, k, t.ip, e1, x);
      }
    }
  }

  /** Changing an inode that is not a linked directory, before or after, moves no reference. */
  lemma PlainKeepsRefs(s: State, s1: State, i: nat, x: nat)
    requires |s1.inodes| == |s.inodes| && i < |s.inodes| && !Linked(s.inodes[i]) && !Linked(s1.inodes[i])
    requires forall y: nat :: y < |s.inodes| && y != i ==> s1.inodes[y] == s.inodes[y]
    ensures Refs(s1.inodes, x) == Refs(s.inodes, x)
  {
    RefsSame(s.inodes, s1.inodes, x);
  }

  /** Nobody refers to an inode without links. */
  lemma NoRefs(s: State, i: nat, d: nat, k: nat)
    requires Inv(s) && 0 < i < |s.inodes| && s.inodes[i].nlink == 0
    ensures s.pending[i] == 0 && !IsRef(s.inodes, d, k, i)
  {
    assert CountOk(s, i);
    assert IsRef(s.inodes, d, k, i) ==> (d, k) in Refs(s.inodes, i);
  }

  /** An inode that is no linked directory may change, as long as its links and kind stay in order. */
  lemma PlainKeepsDirs(s: State, s1: State, i: nat)
    requires Inv(s) && 0 < i < |s.inodes| == |s1.inodes| && !Linked(s.inodes[i]) && !Linked(s1.inodes[i])
    requires s1.depth == s.depth && s1.slot == s.slot
    requires forall y: nat :: y < |s.inodes| && y != i ==> s1.inodes[y] == s.inodes[y]
    requires 0 <= s1.inodes[i].nlink <= NLINK_MAX && (s1.inodes[i].kind.Dir? ==> DirOk(s1, i))
    requires (exists d: nat, k: nat :: IsRef(s.inodes, d, k, i)) ==>
      !s1.inodes[i].kind.Free? && s1.inodes[i].nlink > 0 && (s1.inodes[i].kind.Dir? <==> s.inodes[i].kind.Dir?)
    ensures forall x: nat :: x < |s1.inodes| ==> DirOk(s1, x) && ParentOk(s1, x)
    ensures forall x: nat, j: nat :: x < |s1.inodes| && j < |s1.inodes[x].entries| ==> EntryOk(s1, x, j)
  {
    forall x: nat | x < |s1.inodes| ensures DirOk(s1, x) && ParentOk(s1, x) {
      assert DirOk(s, x) && ParentOk(s, x);
    }
    forall x: nat, j: nat | x < |s1.inodes| && j < |s1.inodes[x].entries| ensures EntryOk(s1, x, j) {
      if x != i {
        assert EntryOk(s, x, j);
        if Linked(s.inodes[x]) && j >= 2 && s.inodes[x].entries[j].inum == i { assert IsRef(s.inodes, x, j, i); }
      }
    }
  }

  lemma LinkStartKeepsInv(s: State, i: nat)
    requires Inv(s) && Enabled(s, LinkStart(i))
    ensures Inv(Apply(s, LinkStart(i)).state)
  {
    var s1 := Apply(s, LinkStart(i)).state;
    if s1 != s {
      assert DirOk(s, i);
      PlainKeepsDirs(s, s1, i);
      forall x: nat | 0 < x < |s1.inodes| ensures CountOk(s1, x) {
        assert CountOk(s, x);
        PlainKeepsRefs(s, s1, i, x);
      }
    }
  }

  /** A file that somebody refers to keeps its links when one of two is taken back. */
  lemma LinkAbortKeepsInv(s: State, i: nat)
    requires Inv(s) && Enabled(s, LinkAbort(i))
    ensures Inv(Apply(s, LinkAbort(i)).state)
  {
    var s1 := Apply(s, LinkAbort(i)).state;
    assert CountOk(s, i) && DirOk(s, i);
    if d: nat, k: nat :| IsRef(s.inodes, d, k, i) { assert (d, k) in Refs(s.inodes, i); }
    PlainKeepsDirs(s, s1, i);
    forall x: nat | 0 < x < |s1.inodes| ensures CountOk(s1, x) {
      assert CountOk(s, x);
      PlainKeepsRefs(s, s1, i, x);
    }
  }

  lemma ReclaimKeepsInv(s: State, i: nat)
    requires Inv(s) && Enabled(s, Reclaim(i))
    ensures Inv(Apply(s, Reclaim(i)).state)
  {
    var s1 := Apply(s, Reclaim(i)).state;
    forall d: nat, k: nat ensures !IsRef(s.inodes, d, k, i) { NoRefs(s, i, d, k); }
    PlainKeepsDirs(s, s1, i);
    forall x: nat | 0 < x < |s1.inodes| ensures CountOk(s1, x) {
      assert CountOk(s, x);
      PlainKeepsRefs(s, s1, i, x);
    }
  }

  /** A new directory gets its two dots, or stops in between. */
  lemma DotsAre(t: Step)
    requires t.Create? && t.ip != 0
    ensures var (e, made) := Dots(t);
            && |e| <= 2 && (made && !t.kind.Dir? ==> e == []) && (!made ==> t.kind.Dir?)
            && (made && t.kind.Dir? ==> e == [Dirent(t.ip, "."), Dirent(t.dp, "..")])
            && (forall j, k :: 0 <= j < k < |e| ==> e[j].name != e[k].name)
            && (forall k :: 0 <= k < |e| ==> IsDot(e[k].name))
  {
    var one := [Dirent(t.ip, ".")];
    assert [] + one == one;
    assert Find(one, "..", 0) == 1 && FindUnused(one, 0) == 1;
    assert one + [Dirent(t.dp, "..")] == [Dirent(t.ip, "."), Dirent(t.dp, "..")];
  }

  /** create() gives up after ialloc(): an inode without links is left for iput(). */
  lemma OrphanKeepsInv(s: State, s1: State, t: Step)
    requires Inv(s) && t.Create? && Enabled(s, t) && t.ip != 0
    requires s1 == s.(inodes := s.inodes[t.ip := Inode(t.kind, 0, Dots(t).0)])
    ensures Inv(s1)
  {
    DotsAre(t);
    FreeHasNoLinks(s, t.ip);
    forall d: nat, k: nat ensures !IsRef(s.inodes, d, k, t.ip) { NoRefs(s, t.ip, d, k); }
    PlainKeepsDirs(s, s1, t.ip);
    NoRefs(s, t.ip, 0, 0);
    forall x: nat | 0 < x < |s1.inodes| ensures CountOk(s1, x) {
      assert CountOk(s, x);
      PlainKeepsRefs(s, s1, t.ip, x);
    }
  }

  /** Every record that counts names an inode that is allocated and has links. */
  lemma RefAllocated(s: State, d: nat, k: nat, i: nat)
    requires Inv(s) && i != 0 && IsRef(s.inodes, d, k, i)
    ensures i < |s.inodes| && !s.inodes[i].kind.Free? && s.inodes[i].nlink > 0
  {
    assert DirOk(s, d) && ParentOk(s, d) && EntryOk(s, d, k);
  }

  lemma FreeHasNoLinks(s: State, i: nat)
    requires Inv(s) && 0 < i < |s.inodes| && s.inodes[i].kind.Free?
    ensures s.inodes[i].nlink == 0
  {
    forall d: nat, k: nat ensures !IsRef(s.inodes, d, k, i) {
      if IsRef(s.inodes, d, k, i) { RefAllocated(s, d, k, i); }
    }
    assert CountOk(s, i) && Refs(s.inodes, i) == {};
  }

  lemma CreateFileKeepsInv(s: State, t: Step)
    requires Inv(s) && t.Create? && Enabled(s, t) && t.ip != 0 && !t.kind.Dir? && s.inodes[t.dp].nlink != 0
    requires Dirlink(s.inodes[t.dp].entries, t.name, t.ip, t.space).Some?
    ensures Inv(Created(s, t).0)
  {
    var s1, d := Created(s, t).0, s.inodes[t.dp];
    assert DirOk(s, t.dp);
    FreeHasNoLinks(s, t.ip);
    NoRefs(s, t.ip, 0, 0);
    EnteredByDirlink(s, t.dp, t.name, t.ip, t.space);
    DotsAre(t);
    var k, e1 := FindUnused(d.entries, 0), Dirlink(d.entries, t.name, t.ip, t.space).value;
    EnterKeepsDirs(s, s1, t.dp, k, t.ip, e1);
    forall x: nat | 0 < x < |s1.inodes| ensures CountOk(s1, x) {
      assert CountOk(s, x);
      EnterFileRefs(s, s1, t.dp, k, t.ip, e1, x);
    }
  }

  /** A new directory: its entry refers to it, its ".." to the parent. */
  lemma EnterDirRefs(s: State, s1: State, d: nat, k: nat, i: nat, e1: seq<Dirent>, x: nat)
    requires Entered(s, d, k, i, e1) && 0 < x && |s1.inodes| == |s.inodes| && i < |s.inodes| && i != d
    requires s1.inodes[d].entries == e1 && Linked(s1.inodes[d]) && !Linked(s.inodes[i])
    requires s1.inodes[i] == Inode(Dir, 1, [Dirent(i, "."), Dirent(d, "..")])
    requires forall y: nat :: y < |s.inodes| && y != d && y != i ==> s1.inodes[y] == s.inodes[y]
    ensures |Refs(s1.inodes, x)| == |Refs(s.inodes, x)| + (if x == i || x == d then 1 else 0)
  {
    if x == i { RefsPlus(s.inodes, s1.inodes, x, d, k); }
    else if x == d { RefsPlus(s.inodes, s1.inodes, x, i, 1); }
    else { RefsSame(s.inodes, s1.inodes, x); }
  }

  lemma CreateDirKeepsInv(s: State, t: Step)
    requires Inv(s) && t.Create? && Enabled(s, t) && t.ip != 0 && t.kind.Dir? && 0 != s.inodes[t.dp].nlink < NLINK_MAX && Dots(t).1
    requires Dirlink(s.inodes[t.dp].entries, t.name, t.ip, t.space).Some?
    ensures Inv(Created(s, t).0)
  {
    var s1, d := Created(s, t).0, s.inodes[t.dp];
    assert DirOk(s, t.dp);
    FreeHasNoLinks(s, t.ip);
    NoRefs(s, t.ip, 0, 0);
    EnteredByDirlink(s, t.dp, t.name, t.ip, t.space);
    DotsAre(t);
    var k, e1 := FindUnused(d.entries, 0), Dirlink(d.entries, t.name, t.ip, t.space).value;
    EnterKeepsDirs(s, s1, t.dp, k, t.ip, e1);
    forall x: nat | 0 < x < |s1.inodes| ensures CountOk(s1, x) {
      assert CountOk(s, x);
      EnterDirRefs(s, s1, t.dp, k, t.ip, e1, x);
    }
  }

  lemma CreateKeepsInv(s: State, t: Step)
    requires Inv(s) && t.Create? && Enabled(s, t)
    ensures Inv(Created(s, t).0)
  {
    var d := s.inodes[t.dp];
    if Created(s, t).0 != s {
      if !Dots(t).1 || Dirlink(d.entries, t.name, t.ip, t.space).None? {
        OrphanKeepsInv(s, Created(s, t).0, t);
      } else if t.kind.Dir? {
        CreateDirKeepsInv(s, t);
      } else {
        CreateFileKeepsInv(s, t);
      }
    }
  }

  /** An empty directory is referred to by its one entry only. */
  lemma EmptyDirRefs(s: State, d: nat, k: nat, i: nat)
    requires Inv(s) && d < |s.inodes| && Linked(s.inodes[d]) && 2 <= k < |s.inodes[d].entries|
    requires s.inodes[d].entries[k].inum == i != 0 && i < |s.inodes| && s.inodes[i].kind.Dir? && IsEmpty(s.inodes[i].entries)
    ensures Refs(s.inodes, i) == {(d, k)} && s.inodes[i].nlink == 1 && i != d && i != ROOT
  {
    assert EntryOk(s, d, k) && DirOk(s, i) && ParentOk(s, i) && CountOk(s, i);
    forall x: nat, j: nat | IsRef(s.inodes, x, j, i) ensures x == d && j == k {
      assert DirOk(s, x) && ParentOk(s, x) && EntryOk(s, x, j);
    }
    assert IsRef(s.inodes, d, k, i);
    assert Refs(s.inodes, i) == {(d, k)};
  }

  /** The record that sys_unlink() finds: in a linked directory, after the dots, naming an inode with links. */
  lemma UnlinkFinds(s: State, t: Step)
    requires Inv(s) && t.Unlink? && Enabled(s, t) && !IsDot(t.name)
    requires Find(s.inodes[t.dp].entries, t.name, 0) < |s.inodes[t.dp].entries|
    ensures var k := Find(s.inodes[t.dp].entries, t.name, 0);
            var i := s.inodes[t.dp].entries[k].inum;
            && k >= 2 && Linked(s.inodes[t.dp]) && 0 < i < |s.inodes| && s.inodes[i].nlink > 0 && !s.inodes[i].kind.Free?
            && IsRef(s.inodes, t.dp, k, i) && i != t.dp && i != ROOT
  {
    var d := s.inodes[t.dp];
    var k := Find(d.entries, t.name, 0);
    assert DirOk(s, t.dp) && EntryOk(s, t.dp, k) && ParentOk(s, t.dp);
  }

  /** Taking a record out of a linked directory. */
  lemma RemoveKeepsDirs(s: State, s1: State, d: nat, k: nat, i: nat)
    requires Inv(s) && d < |s.inodes| && Linked(s.inodes[d]) && 2 <= k < |s.inodes[d].entries|
    requires s.inodes[d].entries[k].inum == i && 0 < i < |s.inodes| && i != d && i != ROOT && !s.inodes[i].kind.Free?
    requires |s1.inodes| == |s.inodes| && s1.depth == s.depth && s1.slot == s.slot
    requires s.inodes[i].kind.Dir? ==> IsEmpty(s.inodes[i].entries) && s1.inodes[i].nlink == 0
    requires s1.inodes[d] == s.inodes[d].(entries := s.inodes[d].entries[k := UNUSED], nlink := s1.inodes[d].nlink)
    requires 0 < s1.inodes[d].nlink <= NLINK_MAX
    requires s1.inodes[i] == s.inodes[i].(nlink := s1.inodes[i].nlink) && 0 <= s1.inodes[i].nlink <= NLINK_MAX
    requires !s.inodes[i].kind.Dir? && (exists x: nat, j: nat :: IsRef(s.inodes, x, j, i) && (x != d || j != k)) ==>
      s1.inodes[i].nlink > 0
    requires forall x: nat :: x < |s.inodes| && x != d && x != i ==> s1.inodes[x] == s.inodes[x]
    ensures forall x: nat :: x < |s1.inodes| ==> DirOk(s1, x) && ParentOk(s1, x)
    ensures forall x: nat, j: nat :: x < |s1.inodes| && j < |s1.inodes[x].entries| ==> EntryOk(s1, x, j)
  {
    assert DirOk(s, d) && EntryOk(s, d, k);
    if s.inodes[i].kind.Dir? { EmptyDirRefs(s, d, k, i); }
    forall x: nat | x < |s1.inodes| ensures DirOk(s1, x) && ParentOk(s1, x) {
      assert DirOk(s, x) && ParentOk(s, x);
    }
    forall x: nat, j: nat | x < |s1.inodes| && j < |s1.inodes[x].entries| ensures EntryOk(s1, x, j) {
      assert EntryOk(s, x, j);
      if Linked(s.inodes[x]) && j >= 2 && s.inodes[x].entries[j].inum == i { assert IsRef(s.inodes, x, j, i); }
    }
  }

  /** Unlinking takes one reference from the inode and, if it was a directory, one from its parent. */
  lemma RemoveRefs(s: State, s1: State, d: nat, k: nat, i: nat, x: nat)
    requires Inv(s) && d < |s.inodes| && Linked(s.inodes[d]) && 2 <= k < |s.inodes[d].entries|
    requires s.inodes[d].entries[k].inum == i && 0 < i < |s.inodes| && i != d && i != ROOT && 0 < x
    requires |s1.inodes| == |s.inodes|
    requires s.inodes[i].kind.Dir? ==> IsEmpty(s.inodes[i].entries) && s1.inodes[i].nlink == 0
    requires s1.inodes[d] == s.inodes[d].(entries := s.inodes[d].entries[k := UNUSED], nlink := s1.inodes[d].nlink)
    requires s1.inodes[d].nlink > 0 && s1.inodes[i] == s.inodes[i].(nlink := s1.inodes[i].nlink)
    requires forall y: nat :: y < |s.inodes| && y != d && y != i ==> s1.inodes[y] == s.inodes[y]
    ensures |Refs(s1.inodes, x)|
            == |Refs(s.inodes, x)| - (if x == i || (x == d && s.inodes[i].kind.Dir?) then 1 else 0)
  {
    assert DirOk(s, d) && EntryOk(s, d, k) && DirOk(s, i) && ParentOk(s, i);
    if s.inodes[i].kind.Dir? { EmptyDirRefs(s, d, k, i); }
    if x == i { RefsPlus(s1.inodes, s.inodes, x, d, k); }
    else if x == d && s.inodes[i].kind.Dir? { RefsPlus(s1.inodes, s.inodes, x, i, 1); }
    else { RefsSame(s.inodes, s1.inodes, x); }
  }

  /** sys_unlink() never panics, and keeps the invariant. */
  lemma UnlinkKeepsInv(s: State, t: Step)
    requires Inv(s) && t.Unlink? && Enabled(s, t)
    ensures Unlinked(s, t).Next? && Inv(Unlinked(s, t).state)
  {
    var d := s.inodes[t.dp];
    var k := Find(d.entries, t.name, 0);
    if !IsDot(t.name) && k < |d.entries| {
      UnlinkFinds(s, t);
      var i := d.entries[k].inum;
      if !s.inodes[i].kind.Dir? || IsEmpty(s.inodes[i].entries) { UnlinkedKeepsInv(s, t, k, i); }
    }
  }

  lemma UnlinkedKeepsInv(s: State, t: Step, k: nat, i: nat)
    requires Inv(s) && t.Unlink? && Enabled(s, t) && !IsDot(t.name)
    requires k == Find(s.inodes[t.dp].entries, t.name, 0) < |s.inodes[t.dp].entries|
    requires i == s.inodes[t.dp].entries[k].inum && i < |s.inodes|
    requires s.inodes[i].kind.Dir? ==> IsEmpty(s.inodes[i].entries)
    ensures Unlinked(s, t).Next? && Inv(Unlinked(s, t).state)
  {
    UnlinkFinds(s, t);
    var s1 := Unlinked(s, t).state;
    assert DirOk(s, t.dp) && DirOk(s, i) && CountOk(s, i) && CountOk(s, t.dp);
    if s.inodes[i].kind.Dir? {
      EmptyDirRefs(s, t.dp, k, i);
      ParentCounted(s, t.dp, k, i);
    }
    OtherRefs(s, t.dp, k, i);
    RemoveKeepsDirs(s, s1, t.dp, k, i);
    forall x: nat | 0 < x < |s1.inodes| ensures CountOk(s1, x) {
      assert CountOk(s, x);
      RemoveRefs(s, s1, t.dp, k, i, x);
    }
  }

  /** A directory with a subdirectory has at least two links: its own entry, or its own ".." at the
      root, and the ".." of the subdirectory. */
  lemma ParentCounted(s: State, d: nat, k: nat, i: nat)
    requires Inv(s) && d < |s.inodes| && Linked(s.inodes[d]) && 2 <= k < |s.inodes[d].entries|
    requires s.inodes[d].entries[k].inum == i && 0 < i < |s.inodes| && s.inodes[i].kind.Dir? && i != d
    ensures s.inodes[d].nlink >= 2
  {
    assert EntryOk(s, d, k) && DirOk(s, i) && DirOk(s, d) && ParentOk(s, d) && CountOk(s, d);
    var r := if d == ROOT then (ROOT, 1) else (s.inodes[d].entries[1].inum, s.slot[d]);
    assert IsRef(s.inodes, i, 1, d) && IsRef(s.inodes, r.0, r.1, d);
    assert {(i, 1), r} <= Refs(s.inodes, d);
    SubsetBound({(i, 1), r}, Refs(s.inodes, d));
  }

  lemma SubsetBound(a: set<(nat, nat)>, b: set<(nat, nat)>)
    requires a <= b
    ensures |a| <= |b|
  {
    assert b == a + (b - a);
  }

  /** A second reference to i makes its count at least two. */
  lemma OtherRefs(s: State, d: nat, k: nat, i: nat)
    requires Inv(s) && 0 < i < |s.inodes| && IsRef(s.inodes, d, k, i)
    ensures (exists x: nat, j: nat :: IsRef(s.inodes, x, j, i) && (x != d || j != k)) ==> s.inodes[i].nlink >= 2
  {
    if x: nat, j: nat :| IsRef(s.inodes, x, j, i) && (x != d || j != k) {
      assert CountOk(s, i) && {(d, k), (x, j)} <= Refs(s.inodes, i);
      SubsetBound({(d, k), (x, j)}, Refs(s.inodes, i));
    }
  }

  /** Every step keeps the invariant, and "unlink: nlink < 1" is unreachable. */
  lemma StepKeepsInv(s: State, t: Step)
    requires Inv(s) && Enabled(s, t)
    ensures Apply(s, t).Next? && Inv(Apply(s, t).state)
  {
    match t
    case Create(_, _, _, _, _, _, _) => CreateKeepsInv(s, t);
    case LinkStart(i) => LinkStartKeepsInv(s, i);
    case LinkFinish(_, _, _, _) => LinkFinishKeepsInv(s, t);
    case LinkAbort(i) => LinkAbortKeepsInv(s, i);
    case Unlink(_, _) => UnlinkKeepsInv(s, t);
    case Reclaim(i) => ReclaimKeepsInv(s, i);
  }

  ghost predicate RunOk(s: State, ts: seq<Step>)
    decreases ts
  {
    ts != [] ==> Enabled(s, ts[0]) && Apply(s, ts[0]).Next? && RunOk(Apply(s, ts[0]).state, ts[1..])
  }

  ghost function After(s: State, ts: seq<Step>): State
    requires RunOk(s, ts)
    decreases ts
  {
    if ts == [] then s else After(Apply(s, ts[0]).state, ts[1..])
  }

  lemma {:induction false} RunKeepsInv(s: State, ts: seq<Step>)
    requires Inv(s) && RunOk(s, ts)
    ensures Inv(After(s, ts))
    decreases ts
  {
    if ts != [] {
      StepKeepsInv(s, ts[0]);
      RunKeepsInv(Apply(s, ts[0]).state, ts[1..]);
    }
  }

  /** The image mkfs writes: a root directory whose records after the dots are unused or name the
      files, each once. */
  ghost predicate Image(s: State) {
    && ROOT < |s.inodes| == |s.depth| == |s.slot| && s.pending == multiset{} && s.depth[ROOT] == 0
    && var e := s.inodes[ROOT].entries;
       && s.inodes[ROOT] == Inode(Dir, 1, e) && |e| >= 2 && e[0] == Dirent(ROOT, ".") && e[1] == Dirent(ROOT, "..")
       && (forall j, k :: 2 <= j < k < |e| && e[j].inum != 0 && e[k].inum != 0 ==> e[j].name != e[k].name && e[j].inum != e[k].inum)
       && (forall k :: 2 <= k < |e| && e[k].inum != 0 ==> !IsDot(e[k].name) && ROOT < e[k].inum < |s.inodes|)
       && (forall i: nat :: i < |s.inodes| && i != ROOT ==>
             s.inodes[i] == FREE_INODE || (s.inodes[i] == Inode(File, 1, []) && exists k :: 2 <= k < |e| && e[k].inum == i))
       && (forall k :: 2 <= k < |e| && e[k].inum != 0 ==> s.inodes[e[k].inum].kind.File?)
       && s.inodes[0] == FREE_INODE
  }

  lemma ImageCount(s: State, i: nat)
    requires Image(s) && 0 < i < |s.inodes|
    ensures CountOk(s, i)
  {
    var e := s.inodes[ROOT].entries;
    if i == ROOT {
      assert IsRef(s.inodes, ROOT, 1, ROOT);
      assert Refs(s.inodes, i) == {(ROOT, 1)};
    } else if s.inodes[i] == FREE_INODE {
      assert Refs(s.inodes, i) == {};
    } else {
      var k :| 2 <= k < |e| && e[k].inum == i;
      assert IsRef(s.inodes, ROOT, k, i);
      assert Refs(s.inodes, i) == {(ROOT, k)};
    }
  }

  lemma ImageInv(s: State)
    requires Image(s)
    ensures Inv(s)
  {
    forall i: nat | 0 < i < |s.inodes| ensures CountOk(s, i) { ImageCount(s, i); }
    forall d: nat | d < |s.inodes| ensures DirOk(s, d) && ParentOk(s, d) {
      assert d != ROOT ==> !s.inodes[d].kind.Dir?;
    }
    forall d: nat, k: nat | d < |s.inodes| && k < |s.inodes[d].entries| ensures EntryOk(s, d, k) {
      assert d != ROOT ==> !s.inodes[d].kind.Dir?;
    }
  }

  /** In every run from that image a link count is the number of records that name the inode, in
      linked directories and without their own ".", plus the links that sys_link() is still making. */
  lemma LinkCountsExact(s: State, ts: seq<Step>, i: nat)
    requires Image(s) && RunOk(s, ts) && 0 < i < |After(s, ts).inodes|
    ensures var s1 := After(s, ts);
            && s1.inodes[i].nlink == |Refs(s1.inodes, i)| + s1.pending[i] <= NLINK_MAX
            && (s1.inodes[i].kind.Free? ==> Refs(s1.inodes, i) == {})
  {
    ImageInv(s);
    RunKeepsInv(s, ts);
    var s1 := After(s, ts);
    assert CountOk(s1, i) && DirOk(s1, i);
    if s1.inodes[i].kind.Free? { FreeHasNoLinks(s1, i); }
  }

  /** In every run every record of a linked directory names an allocated inode with links, and every
      name is there once. */
  lemma RecordsAllocated(s: State, ts: seq<Step>, d: nat, k: nat)
    requires Image(s) && RunOk(s, ts) && d < |After(s, ts).inodes| && Linked(After(s, ts).inodes[d])
    requires k < |After(s, ts).inodes[d].entries| && After(s, ts).inodes[d].entries[k].inum != 0
    ensures var s1 := After(s, ts);
            var e := s1.inodes[d].entries;
            && e[k].inum < |s1.inodes| && !s1.inodes[e[k].inum].kind.Free? && s1.inodes[e[k].inum].nlink > 0
            && Find(e, e[k].name, 0) == k
  {
    ImageInv(s);
    RunKeepsInv(s, ts);
    var s1 := After(s, ts);
    assert DirOk(s1, d) && ParentOk(s1, d) && EntryOk(s1, d, k);
  }

  /** What a name stands for in linked directory d. */
  function Named(inodes: seq<Inode>, d: nat, name: string): Option<nat> {
    if d >= |inodes| || !Linked(inodes[d]) then None
    else var k := Find(inodes[d].entries, name, 0);
      if k == |inodes[d].entries| then None else Some(inodes[d].entries[k].inum)
  }

  /** namex(): walking down from directory d, one name at a time. */
  function Resolve(inodes: seq<Inode>, d: nat, path: seq<string>): Option<nat>
    decreases path
  {
    if path == [] then Some(d)
    else match Named(inodes, d, path[0])
      case None => None
      case Some(i) => Resolve(inodes, i, path[1..])
  }

  lemma {:induction false} ResolveConcat(inodes: seq<Inode>, d: nat, a: seq<string>, b: seq<string>)
    requires Resolve(inodes, d, a).Some?
    ensures Resolve(inodes, d, a + b) == Resolve(inodes, Resolve(inodes, d, a).value, b)
    decreases a
  {
    if a == [] {
      assert a + b == b;
    } else {
      var k := Find(inodes[d].entries, a[0], 0);
      ResolveConcat(inodes, inodes[d].entries[k].inum, a[1..], b);
      assert (a + b)[1..] == a[1..] + b;
    }
  }

  /** The linked directories form a tree: each is reached from the root along a path whose length is its
      depth, and its ".." leads one step back. */
  lemma {:induction false} PathFromRoot(s: State, d: nat) returns (path: seq<string>)
    requires Inv(s) && d < |s.inodes| && Linked(s.inodes[d])
    ensures Resolve(s.inodes, ROOT, path) == Some(d) && |path| == s.depth[d]
    ensures path != [] ==> Resolve(s.inodes, d, [".."]) == Resolve(s.inodes, ROOT, path[..|path| - 1])
    decreases s.depth[d]
  {
    assert DirOk(s, d) && ParentOk(s, d);
    if d == ROOT {
      path := [];
    } else {
      var p, k := s.inodes[d].entries[1].inum, s.slot[d];
      var up := PathFromRoot(s, p);
      assert DirOk(s, p);
      var name := s.inodes[p].entries[k].name;
      path := up + [name];
      ResolveConcat(s.inodes, ROOT, up, [name]);
      assert Find(s.inodes[p].entries, name, 0) == k && [name][1..] == [];
      assert Find(s.inodes[d].entries, "..", 0) == 1 && [".."][1..] == [];
      assert path[..|path| - 1] == up;
    }
  }

  /** In every run every linked directory hangs in that tree. */
  lemma DirectoryTree(s: State, ts: seq<Step>, d: nat) returns (path: seq<string>)
    requires Image(s) && RunOk(s, ts) && d < |After(s, ts).inodes| && Linked(After(s, ts).inodes[d])
    ensures var s1 := After(s, ts);
            && Resolve(s1.inodes, ROOT, path) == Some(d)
            && (path != [] ==> Resolve(s1.inodes, d, [".."]) == Resolve(s1.inodes, ROOT, path[..|path| - 1]))
  {
    ImageInv(s);
    RunKeepsInv(s, ts);
    path := PathFromRoot(After(s, ts), d);
  }

  /** Names other than the dots are left in directory d. */
  ghost predicate HasNames(inodes: seq<Inode>, d: nat) { exists n: string :: !IsDot(n) && Named(inodes, d, n).Some? }

  /** isdirempty() looks at records, and finds out about names. */
  lemma EmptyIff(s: State, d: nat)
    requires Inv(s) && d < |s.inodes| && Linked(s.inodes[d])
    ensures IsEmpty(s.inodes[d].entries) <==> !HasNames(s.inodes, d)
  {
    var e := s.inodes[d].entries;
    assert DirOk(s, d) && e[0].name == "." && e[1].name == "..";
    if k :| 2 <= k < |e| && e[k].inum != 0 {
      assert !IsDot(e[k].name) && Named(s.inodes, d, e[k].name).Some?;
    }
    if n: string :| !IsDot(n) && Named(s.inodes, d, n).Some? {
      assert 2 <= Find(e, n, 0) < |e|;
    }
  }

  /** Two lists of records that agree on a name. */
  lemma SameFind(e: seq<Dirent>, e1: seq<Dirent>, name: string)
    requires |e| <= |e1|
    requires forall k :: 0 <= k < |e| && e1[k] != e[k] ==> (e[k].inum == 0 || e[k].name != name) && (e1[k].inum == 0 || e1[k].name != name)
    requires forall k :: |e| <= k < |e1| ==> e1[k].inum == 0 || e1[k].name != name
    ensures if Find(e, name, 0) < |e| then Find(e1, name, 0) == Find(e, name, 0) && e1[Find(e, name, 0)] == e[Find(e, name, 0)]
            else Find(e1, name, 0) == |e1|
  {
  }

  /** Another name of a directory stands for what it stood for, as long as the records that changed are not its own. */
  lemma SameName(inodes: seq<Inode>, inodes1: seq<Inode>, d: nat, name: string)
    requires d < |inodes| == |inodes1| && Linked(inodes1[d]) == Linked(inodes[d]) && |inodes[d].entries| <= |inodes1[d].entries|
    requires var e, e1 := inodes[d].entries, inodes1[d].entries;
             && (forall k :: 0 <= k < |e| && e1[k] != e[k] ==> (e[k].inum == 0 || e[k].name != name) && (e1[k].inum == 0 || e1[k].name != name))
             && (forall k :: |e| <= k < |e1| ==> e1[k].inum == 0 || e1[k].name != name)
    ensures Named(inodes1, d, name) == Named(inodes, d, name)
  {
    SameFind(inodes[d].entries, inodes1[d].entries, name);
  }

  /** The names of linked directories stand for the same inodes, except perhaps one name of dp and those of directory i. */
  ghost predicate OtherNames(inodes: seq<Inode>, inodes1: seq<Inode>, dp: nat, name: string, i: nat) {
    forall d: nat, n: string :: !(d == dp && n == name) && d != i ==> Named(inodes1, d, n) == Named(inodes, d, n)
  }

  ghost predicate SameNames(inodes: seq<Inode>, inodes1: seq<Inode>) {
    forall d: nat, n: string :: Named(inodes1, d, n) == Named(inodes, d, n)
  }

  /** The inodes are the same, except perhaps these two. */
  ghost predicate OtherInodes(s: State, s1: State, dp: nat, i: nat) {
    && |s1.inodes| == |s.inodes| && dp < |s.inodes| && i < |s.inodes|
    && forall x: nat :: x < |s.inodes| && x != dp && x != i ==> s1.inodes[x] == s.inodes[x]
  }

  /** The name `name` of dp for inode i is gone: the inode has one link less, and so has dp if it has lost a subdirectory. */
  ghost predicate Unlinks(s: State, s1: State, dp: nat, name: string, i: nat) {
    && OtherInodes(s, s1, dp, i) && dp != i && s1.pending == s.pending
    && Named(s1.inodes, dp, name).None? && OtherNames(s.inodes, s1.inodes, dp, name, i)
    && s1.inodes[i] == s.inodes[i].(nlink := s.inodes[i].nlink - 1)
    && s1.inodes[dp].kind.Dir? && s1.inodes[dp].nlink == s.inodes[dp].nlink - (if s.inodes[i].kind.Dir? then 1 else 0)
    && (s.inodes[i].kind.Dir? ==> s1.inodes[i].nlink == 0)
  }

  /** sys_unlink() takes the name away, unless it is a dot, is not there, or is that of a directory with names in it. */
  ghost predicate UnlinkDoes(s: State, dp: nat, name: string, r: Outcome) {
    match Named(s.inodes, dp, name)
    case None => r == Next(s, -1)
    case Some(i) =>
      if IsDot(name) || i >= |s.inodes| || (s.inodes[i].kind.Dir? && HasNames(s.inodes, i)) then r == Next(s, -1)
      else r.Next? && r.ret == 0 && Unlinks(s, r.state, dp, name, i)
  }

  lemma UnlinkMeets(s: State, dp: nat, name: string)
    requires Inv(s) && Enabled(s, Unlink(dp, name))
    ensures UnlinkDoes(s, dp, name, Apply(s, Unlink(dp, name)))
  {
    var t := Unlink(dp, name);
    var e := s.inodes[dp].entries;
    var k := Find(e, name, 0);
    assert DirOk(s, dp);
    if !IsDot(name) && k < |e| {
      UnlinkFinds(s, t);
      var i := e[k].inum;
      assert DirOk(s, i);
      if s.inodes[i].kind.Dir? { EmptyIff(s, i); }
      if !s.inodes[i].kind.Dir? || IsEmpty(s.inodes[i].entries) { UnlinkTakes(s, dp, name, k, i); }
    }
  }

  lemma UnlinkTakes(s: State, dp: nat, name: string, k: nat, i: nat)
    requires Inv(s) && Enabled(s, Unlink(dp, name)) && !IsDot(name) && k == Find(s.inodes[dp].entries, name, 0) < |s.inodes[dp].entries|
    requires i == s.inodes[dp].entries[k].inum && i < |s.inodes| && (s.inodes[i].kind.Dir? ==> IsEmpty(s.inodes[i].entries))
    ensures var r := Apply(s, Unlink(dp, name));
            r.Next? && r.ret == 0 && Unlinks(s, r.state, dp, name, i)
  {
    var t := Unlink(dp, name);
    UnlinkFinds(s, t);
    assert DirOk(s, dp) && CountOk(s, i);
    if s.inodes[i].kind.Dir? {
      EmptyDirRefs(s, dp, k, i);
      ParentCounted(s, dp, k, i);
    }
    var s1 := Apply(s, t).state;
    assert s1.inodes[dp].entries == s.inodes[dp].entries[k := UNUSED];
    forall d: nat, n: string | !(d == dp && n == name) && d != i ensures Named(s1.inodes, d, n) == Named(s.inodes, d, n) {
      if d < |s.inodes| { SameName(s.inodes, s1.inodes, d, n); }
    }
  }

  /** A directory with these records has one to spare, or can grow. */
  ghost predicate Room(e: seq<Dirent>, space: bool) { space || exists k :: 0 <= k < |e| && e[k].inum == 0 }

  /** dirlink() fails exactly if the name is taken or there is no room. */
  lemma DirlinkIff(e: seq<Dirent>, name: string, inum: nat, space: bool)
    ensures Dirlink(e, name, inum, space).Some? <==> Find(e, name, 0) == |e| && Room(e, space)
  {
    if k :| 0 <= k < |e| && e[k].inum == 0 { assert FindUnused(e, 0) <= k; }
    if FindUnused(e, 0) < |e| { assert e[FindUnused(e, 0)].inum == 0; }
  }

  /** The record that dirlink() wrote: the new name, and no other. */
  lemma DirlinkNames(inodes: seq<Inode>, inodes1: seq<Inode>, dp: nat, name: string, inum: nat, space: bool, n: string)
    requires dp < |inodes| == |inodes1| && Linked(inodes[dp]) && Linked(inodes1[dp]) && inum != 0
    requires Dirlink(inodes[dp].entries, name, inum, space) == Some(inodes1[dp].entries)
    ensures Named(inodes1, dp, n) == if n == name then Some(inum) else Named(inodes, dp, n)
  {
    var e, e1 := inodes[dp].entries, inodes1[dp].entries;
    DirlinkAt(e, name, inum, space);
    if n != name {
      SameName(inodes, inodes1, dp, n);
    } else {
      var k := FindUnused(e, 0);
      assert e1[k] == Dirent(inum, name);
      forall j | 0 <= j < |e1| && j != k ensures e1[j].inum == 0 || e1[j].name != name { assert e1[j] == e[j]; }
    }
  }

  /** The new inode ip is called `name` in dp, and nothing else has a new name. */
  ghost predicate Creates(s: State, s1: State, dp: nat, name: string, kind: Kind, ip: nat) {
    && OtherInodes(s, s1, dp, ip) && dp != ip && s1.pending == s.pending
    && Named(s1.inodes, dp, name) == Some(ip) && OtherNames(s.inodes, s1.inodes, dp, name, ip)
    && s1.inodes[ip].kind == kind && s1.inodes[ip].nlink == 1
    && (kind.Dir? ==> Named(s1.inodes, ip, ".") == Some(ip) && Named(s1.inodes, ip, "..") == Some(dp) && !HasNames(s1.inodes, ip))
    && s1.inodes[dp].kind.Dir? && s1.inodes[dp].nlink == s.inodes[dp].nlink + (if kind.Dir? then 1 else 0)
  }

  /** An inode without links is left, and no name has changed. */
  ghost predicate GivesUp(s: State, s1: State, kind: Kind, ip: nat) {
    && OtherInodes(s, s1, ip, ip) && s1.pending == s.pending && SameNames(s.inodes, s1.inodes)
    && s1.inodes[ip].kind == kind && s1.inodes[ip].nlink == 0
  }

  /** create() makes an inode of the kind asked for under a name that is free, or finds a file under it. */
  ghost predicate CreateDoes(s: State, t: Step, r: Outcome)
    requires t.Create? && t.dp < |s.inodes|
  {
    var d := s.inodes[t.dp];
    if !Linked(d) || (t.kind.Dir? && d.nlink >= NLINK_MAX) then r == Next(s, 0)
    else match Named(s.inodes, t.dp, t.name)
      case Some(i) =>
        r == Next(s, if t.kind.File? && i < |s.inodes| && !s.inodes[i].kind.Dir? && !s.inodes[i].kind.Free? then i else 0)
      case None =>
        if t.ip == 0 then r == Next(s, 0)
        else if Room(d.entries, t.space) && (t.kind.Dir? ==> t.dot && t.dotdot)
        then r.Next? && r.ret == t.ip && Creates(s, r.state, t.dp, t.name, t.kind, t.ip)
        else r.Next? && r.ret == 0 && GivesUp(s, r.state, t.kind, t.ip)
  }

  /** The dots are made exactly if the new directory can grow twice. */
  lemma DotsIff(t: Step)
    requires t.Create? && t.ip != 0
    ensures Dots(t).1 <==> (t.kind.Dir? ==> t.dot && t.dotdot)
  {
    var one := [Dirent(t.ip, ".")];
    assert [] + one == one;
    assert Find(one, "..", 0) == 1 && FindUnused(one, 0) == 1;
  }

  lemma CreateMeets(s: State, t: Step)
    requires Inv(s) && t.Create? && Enabled(s, t)
    ensures CreateDoes(s, t, Apply(s, t))
  {
    var d := s.inodes[t.dp];
    assert DirOk(s, t.dp);
    if Linked(d) && !(t.kind.Dir? && d.nlink >= NLINK_MAX) {
      var k := Find(d.entries, t.name, 0);
      if k == |d.entries| && t.ip != 0 {
        FreeHasNoLinks(s, t.ip);
        DotsIff(t);
        DirlinkIff(d.entries, t.name, t.ip, t.space);
        if Room(d.entries, t.space) && Dots(t).1 { CreateMakes(s, t); } else { CreateLeaves(s, t); }
      }
    }
  }

  lemma CreateMakes(s: State, t: Step)
    requires Inv(s) && t.Create? && Enabled(s, t) && t.ip != 0 && Linked(s.inodes[t.dp]) && Dots(t).1
    requires (t.kind.Dir? ==> s.inodes[t.dp].nlink < NLINK_MAX) && Dirlink(s.inodes[t.dp].entries, t.name, t.ip, t.space).Some?
    ensures var r := Apply(s, t);
            r.Next? && r.ret == t.ip && Creates(s, r.state, t.dp, t.name, t.kind, t.ip)
  {
    DotsAre(t);
    var s1 := Apply(s, t).state;
    forall d: nat, n: string | d != t.ip ensures Named(s1.inodes, d, n) == if d == t.dp && n == t.name then Some(t.ip) else Named(s.inodes, d, n) {
      if d == t.dp { DirlinkNames(s.inodes, s1.inodes, t.dp, t.name, t.ip, t.space, n); }
    }
    if t.kind.Dir? { NewNames(s1.inodes, t.ip, t.dp); }
  }

  lemma NewNames(inodes: seq<Inode>, ip: nat, dp: nat)
    requires ip < |inodes| && Linked(inodes[ip]) && inodes[ip].entries == [Dirent(ip, "."), Dirent(dp, "..")] && ip != 0 && dp != 0
    ensures Named(inodes, ip, ".") == Some(ip) && Named(inodes, ip, "..") == Some(dp) && !HasNames(inodes, ip)
  {
    var e := inodes[ip].entries;
    assert Find(e, ".", 0) == 0 && Find(e, "..", 0) == 1;
  }

  lemma CreateLeaves(s: State, t: Step)
    requires Inv(s) && t.Create? && Enabled(s, t) && t.ip != 0 && Linked(s.inodes[t.dp]) && s.inodes[t.ip].nlink == 0
    requires (t.kind.Dir? ==> s.inodes[t.dp].nlink < NLINK_MAX) && Find(s.inodes[t.dp].entries, t.name, 0) == |s.inodes[t.dp].entries|
    requires !Dots(t).1 || Dirlink(s.inodes[t.dp].entries, t.name, t.ip, t.space).None?
    ensures var r := Apply(s, t);
            r.Next? && r.ret == 0 && GivesUp(s, r.state, t.kind, t.ip)
  {
  }

  /** The two halves of sys_link(): the count goes up, unless it is a directory's or at its limit; then the name appears,
      unless the directory is gone, has the name, or has no room for it. */
  ghost predicate LinkStartDoes(s: State, i: nat, r: Outcome)
    requires i < |s.inodes|
  {
    if s.inodes[i].kind.Dir? || s.inodes[i].nlink >= NLINK_MAX then r == Next(s, -1)
    else
      && r.Next? && r.ret == 0 && OtherInodes(s, r.state, i, i) && r.state.pending == s.pending + multiset{i}
      && r.state.inodes[i] == s.inodes[i].(nlink := s.inodes[i].nlink + 1) && SameNames(s.inodes, r.state.inodes)
  }

  ghost predicate LinkFinishDoes(s: State, t: Step, r: Outcome)
    requires t.LinkFinish? && t.dp < |s.inodes|
  {
    if !Linked(s.inodes[t.dp]) || Named(s.inodes, t.dp, t.name).Some? || !Room(s.inodes[t.dp].entries, t.space) then r == Next(s, -1)
    else
      && r.Next? && r.ret == 0 && OtherInodes(s, r.state, t.dp, t.dp) && r.state.pending == s.pending - multiset{t.ip}
      && (forall d: nat, n: string :: Named(r.state.inodes, d, n) == if d == t.dp && n == t.name then Some(t.ip) else Named(s.inodes, d, n))
      && r.state.inodes[t.dp] == s.inodes[t.dp].(entries := r.state.inodes[t.dp].entries)
  }

  lemma LinkFinishMeets(s: State, t: Step)
    requires Inv(s) && t.LinkFinish? && Enabled(s, t)
    ensures LinkFinishDoes(s, t, Apply(s, t))
  {
    var d, s1 := s.inodes[t.dp], Apply(s, t).state;
    assert DirOk(s, t.dp);
    DirlinkIff(d.entries, t.name, t.ip, t.space);
    if Linked(d) && Dirlink(d.entries, t.name, t.ip, t.space).Some? {
      forall x: nat, n: string ensures Named(s1.inodes, x, n) == if x == t.dp && n == t.name then Some(t.ip) else Named(s.inodes, x, n) {
        if x == t.dp { DirlinkNames(s.inodes, s1.inodes, t.dp, t.name, t.ip, t.space, n); }
      }
    }
  }

  /** The failure path of sys_link() takes the link back, and the last iput() frees an inode that has no name. */
  ghost predicate DropDoes(s: State, t: Step, r: Outcome)
    requires t.LinkAbort? || t.Reclaim?
  {
    && r.Next? && r.ret == (if t.LinkAbort? then -1 else 0) && OtherInodes(s, r.state, t.ip, t.ip) && SameNames(s.inodes, r.state.inodes)
    && (t.LinkAbort? ==> r.state.inodes[t.ip] == s.inodes[t.ip].(nlink := s.inodes[t.ip].nlink - 1) && r.state.pending == s.pending - multiset{t.ip})
    && (t.Reclaim? ==> r.state.inodes[t.ip] == FREE_INODE && r.state.pending == s.pending && forall d: nat, n: string :: Named(s.inodes, d, n) != Some(t.ip))
  }

  lemma DropMeets(s: State, t: Step)
    requires Inv(s) && (t.LinkAbort? || t.Reclaim?) && Enabled(s, t)
    ensures DropDoes(s, t, Apply(s, t))
  {
    assert CountOk(s, t.ip) && DirOk(s, t.ip);
    if t.Reclaim? {
      forall d: nat, n: string ensures Named(s.inodes, d, n) != Some(t.ip) {
        if Named(s.inodes, d, n) == Some(t.ip) {
          var k := Find(s.inodes[d].entries, n, 0);
          assert DirOk(s, d);
          NoRefs(s, t.ip, d, k);
        }
      }
    }
  }

  /** What a call does, in terms of names. */
  ghost predicate Does(s: State, t: Step, r: Outcome)
    requires Enabled(s, t)
  {
    match t
    case Create(_, _, _, _, _, _, _) => CreateDoes(s, t, r)
    case LinkStart(i) => LinkStartDoes(s, i, r)
    case LinkFinish(_, _, _, _) => LinkFinishDoes(s, t, r)
    case LinkAbort(_) => DropDoes(s, t, r)
    case Unlink(dp, name) => UnlinkDoes(s, dp, name, r)
    case Reclaim(_) => DropDoes(s, t, r)
  }

  lemma StepDoes(s: State, t: Step)
    requires Inv(s) && Enabled(s, t)
    ensures Does(s, t, Apply(s, t))
  {
    match t
    case Create(_, _, _, _, _, _, _) => CreateMeets(s, t);
    case LinkStart(_) => {}
    case LinkFinish(_, _, _, _) => LinkFinishMeets(s, t);
    case LinkAbort(_) => DropMeets(s, t);
    case Unlink(dp, name) => UnlinkMeets(s, dp, name);
    case Reclaim(_) => DropMeets(s, t);
  }

  /** In every run from the image every call does that. */
  lemma CallsDo(s: State, ts: seq<Step>, t: Step)
    requires Image(s) && RunOk(s, ts) && Enabled(After(s, ts), t)
    ensures Does(After(s, ts), t, Apply(After(s, ts), t))
  {
    ImageInv(s);
    RunKeepsInv(s, ts);
    StepDoes(After(s, ts), t);
  }
}
