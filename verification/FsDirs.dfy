/** The directories of kernel/fs.c as the directory tree sees them: the inodes with the records that the bytes
    of directories spell. */
module FsDirs {
  import opened Dirents
  import Dirs
  import opened Fs
  import opened FsSpec
  import opened Mkfs

  function KindOf(kind: nat): Dirs.Kind {
    if kind == 0 then Dirs.Free else if kind == T_DIR then Dirs.Dir else if kind == T_FILE then Dirs.File else Dirs.Device
  }

  function InodeOf(ip: Dinode, blocks: seq<Block>): Dirs.Inode {
    Dirs.Inode(KindOf(ip.kind), ip.nlink,
               if ip.kind == T_DIR && ip.size <= MAXFILE * BSIZE then Records(Contents(ip, blocks)) else [])
  }

  function InodesOf(inodes: seq<Dinode>, blocks: seq<Block>): (r: seq<Dirs.Inode>)
    ensures |r| == |inodes| && forall i :: 0 <= i < |r| ==> r[i] == InodeOf(inodes[i], blocks)
  {
    seq(|inodes|, i requires 0 <= i < |inodes| => InodeOf(inodes[i], blocks))
  }

  /** A disk on which no system call is running. */
  function StateOf(inodes: seq<Dinode>, blocks: seq<Block>): Dirs.State {
    var zeroes := seq(|inodes|, i => 0);
    Dirs.State(InodesOf(inodes, blocks), multiset{}, zeroes, zeroes)
  }

  /** Names that can stand in one directory. */
  predicate GoodNames(names: seq<string>) {
    && (forall i, j :: 0 <= i < j < |names| ==> names[i] != names[j])
    && (forall i :: 0 <= i < |names| ==> !Dirs.IsDot(names[i]))
  }

  lemma FinalInodes(dinodes: seq<Dinode>, blocks: seq<Block>, freeinode: nat, names: seq<string>, datas: seq<seq<byte>>)
    requires Final(dinodes, blocks, freeinode, names, datas)
    ensures var inodes := InodesOf(dinodes, blocks);
            && |inodes| == |dinodes| >= 2 + |names| && inodes[0] == Dirs.FREE_INODE && |inodes[ROOTINO].entries| >= |names| + 2
            && inodes[ROOTINO] == Dirs.Inode(Dirs.Dir, 1, inodes[ROOTINO].entries)
            && inodes[ROOTINO].entries[..|names| + 2] == RootRecords(names)
            && (forall k :: |names| + 2 <= k < |inodes[ROOTINO].entries| ==> inodes[ROOTINO].entries[k] == Dirs.UNUSED)
            && (forall i: nat :: 2 <= i < 2 + |names| ==> inodes[i] == Dirs.Inode(Dirs.File, 1, []))
            && (forall i: nat :: 2 + |names| <= i < |inodes| ==> inodes[i] == Dirs.FREE_INODE)
  {
    hide Records, RootRecords, Contents;
    forall i: nat | 2 <= i < 2 + |names| ensures InodesOf(dinodes, blocks)[i] == Dirs.Inode(Dirs.File, 1, []) {
      assert FileHas(dinodes[2 + (i - 2)], blocks, datas[i - 2]);
    }
  }

  /** The image that mkfs writes is a good start for the directory operations exactly if no two files have
      the same name and none is called "." or "..", which mkfs does not look at. */
  lemma ImageIff(dinodes: seq<Dinode>, blocks: seq<Block>, freeinode: nat, names: seq<string>, datas: seq<seq<byte>>)
    requires Final(dinodes, blocks, freeinode, names, datas)
    ensures Dirs.Image(StateOf(dinodes, blocks)) <==> GoodNames(names)
  {
    FinalInodes(dinodes, blocks, freeinode, names, datas);
    hide Final, InodesOf, RootRecords;
    var s := StateOf(dinodes, blocks);
    var e := s.inodes[ROOTINO].entries;
    forall k: nat | k < |names| + 2 ensures e[k] == RootRecords(names)[k] { assert e[..|names| + 2][k] == e[k]; }
    RootRecordAt(names);
    if GoodNames(names) { GoodImage(s, e, names); }
    if Dirs.Image(s) { ImageGood(s, e, names); }
  }

  lemma RootRecordAt(names: seq<string>)
    ensures RootRecords(names)[0] == Dirs.Dirent(ROOTINO, ".") && RootRecords(names)[1] == Dirs.Dirent(ROOTINO, "..")
    ensures forall k: nat :: 2 <= k < |names| + 2 ==> RootRecords(names)[k] == Dirs.Dirent(k, names[k - 2])
  {
  }

  lemma GoodImage(s: Dirs.State, e: seq<Dirs.Dirent>, names: seq<string>)
    requires GoodNames(names) && ROOTINO < |s.inodes| == |s.depth| == |s.slot| && s.pending == multiset{} && s.depth[ROOTINO] == 0
    requires s.inodes[ROOTINO] == Dirs.Inode(Dirs.Dir, 1, e) && |names| + 2 <= |e| && |names| + 2 <= |s.inodes| && s.inodes[0] == Dirs.FREE_INODE
    requires e[0] == Dirs.Dirent(ROOTINO, ".") && e[1] == Dirs.Dirent(ROOTINO, "..")
    requires forall k: nat :: 2 <= k < |names| + 2 ==> e[k] == Dirs.Dirent(k, names[k - 2])
    requires forall k: nat :: |names| + 2 <= k < |e| ==> e[k] == Dirs.UNUSED
    requires forall i: nat :: 2 <= i < 2 + |names| ==> s.inodes[i] == Dirs.Inode(Dirs.File, 1, [])
    requires forall i: nat :: 2 + |names| <= i < |s.inodes| ==> s.inodes[i] == Dirs.FREE_INODE
    ensures Dirs.Image(s)
  {
    forall i: nat | i < |s.inodes| && i != ROOTINO
      ensures s.inodes[i] == Dirs.FREE_INODE || (s.inodes[i] == Dirs.Inode(Dirs.File, 1, []) && exists k :: 2 <= k < |e| && e[k].inum == i)
    {
      if 2 <= i < 2 + |names| { assert e[i].inum == i; }
    }
  }

  lemma ImageGood(s: Dirs.State, e: seq<Dirs.Dirent>, names: seq<string>)
    requires Dirs.Image(s) && s.inodes[ROOTINO].entries == e && |names| + 2 <= |e|
    requires forall k: nat :: 2 <= k < |names| + 2 ==> e[k] == Dirs.Dirent(k, names[k - 2])
    ensures GoodNames(names)
  {
    forall i, j | 0 <= i < j < |names| ensures names[i] != names[j] { assert e[i + 2].inum != 0 && e[j + 2].inum != 0; }
    forall i | 0 <= i < |names| ensures !Dirs.IsDot(names[i]) { assert e[i + 2].inum != 0; }
  }

  /** What writei() of one record at a record's place does to the directories: record k of directory d, or a new
      last one, and nothing else. */
  lemma RecordWritten(inodes0: seq<Dinode>, blocks0: seq<Block>, inodes: seq<Dinode>, blocks: seq<Block>, d: nat, k: nat,
                      inum: nat, name: string)
    requires inum < 65536 && NameOk(name) && d < |inodes0| && inodes0[d].kind == T_DIR && inodes0[d].size % RECORD == 0
    requires RECORD * k <= inodes0[d].size
    requires WriteiDone(inodes0, blocks0, inodes, blocks, d, Encode(inum, name), RECORD * k, RECORD, RECORD)
    ensures var e := InodeOf(inodes0[d], blocks0).entries;
            var e1 := if k < |e| then e[k := Dirs.Dirent(inum, name)] else e + [Dirs.Dirent(inum, name)];
            k <= |e| && InodesOf(inodes, blocks) == InodesOf(inodes0, blocks0)[d := InodeOf(inodes0[d], blocks0).(entries := e1)]
  {
    hide Contents, Encode, Records;
    var c := Contents(inodes0[d], blocks0);
    var b := Encode(inum, name);
    assert b[..RECORD] == b;
    RecordsSplice(c, k, inum, name);
    var w := Splice(c, RECORD * k, b);
    assert w[..|w|] == w && |w| == inodes[d].size;
    var r, r0 := InodesOf(inodes, blocks), InodesOf(inodes0, blocks0);
    forall j: nat | j < |inodes| && j != d ensures r[j] == r0[j] { assert inodes[j] == inodes0[j]; }
  }

  /** dirlink() through writei() is Dirlink on the records. */
  lemma DirlinkWritten(inodes0: seq<Dinode>, blocks0: seq<Block>, inodes: seq<Dinode>, blocks: seq<Block>, d: nat,
                       inum: nat, name: string)
    requires inum < 65536 && NameOk(name) && d < |inodes0| && inodes0[d].kind == T_DIR && inodes0[d].size % RECORD == 0
    requires inodes0[d].size <= MAXFILE * BSIZE
    requires var e := InodeOf(inodes0[d], blocks0).entries;
             && Dirs.Find(e, name, 0) == |e|
             && WriteiDone(inodes0, blocks0, inodes, blocks, d, Encode(inum, name), RECORD * Dirs.FindUnused(e, 0), RECORD, RECORD)
    ensures var e := InodeOf(inodes0[d], blocks0).entries;
            && Dirs.Dirlink(e, name, inum, true).Some?
            && InodesOf(inodes, blocks) ==
               InodesOf(inodes0, blocks0)[d := InodeOf(inodes0[d], blocks0).(entries := Dirs.Dirlink(e, name, inum, true).value)]
  {
    hide WriteiDone, Records, Contents, Encode, InodesOf;
    var e := InodeOf(inodes0[d], blocks0).entries;
    assert |e| == inodes0[d].size / RECORD;
    RecordWritten(inodes0, blocks0, inodes, blocks, d, Dirs.FindUnused(e, 0), inum, name);
  }
}
