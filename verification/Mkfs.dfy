/** mkfs/mkfs.c: the first contents of the disk, built by appending to files whose blocks are taken one
    after the other. */
module Mkfs {
  import opened Bits
  import opened Dirents
  import opened Dinodes
  import Dirs
  import opened Fs
  import opened FsSpec
  import opened Options

  const FSSIZE: nat := 2000
  const NINODES: nat := 200
  const NLOG: nat := 31                     // LOGBLOCKS + 1
  const INODE_START: nat := 2 + NLOG
  const BMAP_START: nat := INODE_START + NINODES / IPB + 1
  const NMETA: nat := BMAP_START + FSSIZE / BPB + 1
  const SB := Superblock(FSSIZE, NINODES, INODE_START, BMAP_START, NMETA)

  /** Inodes that fit between the log and the data blocks: those of the table, the rest of the last inode block, and
      what would fit into the bitmap block. */
  const SLOTS: nat := IPB * (NMETA - INODE_START)

  const T_DIR: nat := 1
  const T_FILE: nat := 2

  /** The blocks handed out so far. */
  function Below(freeblock: nat): (used: seq<bool>)
    ensures |used| == FSSIZE && forall b :: 0 <= b < FSSIZE ==> (used[b] <==> b < freeblock)
  {
    seq(FSSIZE, b => b < freeblock)
  }

  /** The blocks of the image while it is built: referenced once each and without gaps, then zeroes. */
  ghost predicate Packed(inodes: seq<Dinode>, blocks: seq<Block>, owner: Owner, freeblock: nat) {
    && |inodes| == SLOTS && |blocks| == FSSIZE && NMETA <= freeblock <= FSSIZE
    && Refs(inodes, blocks, owner) && Accounted(Below(freeblock), NMETA, owner, {})
    && (forall b :: freeblock <= b < FSSIZE ==> blocks[b] == Zeroes())
  }

  /** Taking the next block is setting its bit. */
  lemma NextBelow(freeblock: nat)
    requires freeblock < FSSIZE
    ensures Below(freeblock)[freeblock := true] == Below(freeblock + 1)
  {
  }

  /** Every byte of every file is the same, except those of file i below `from`. */
  ghost predicate Rest(inodes0: seq<Dinode>, blocks0: seq<Block>, inodes: seq<Dinode>, blocks: seq<Block>, i: nat, from: nat) {
    && |inodes| == |inodes0|
    && forall j: nat, p: nat :: j < |inodes| && p < MAXFILE * BSIZE && (j != i || p >= from) ==>
         FileByte(inodes[j], blocks, p) == FileByte(inodes0[j], blocks0, p)
  }

  /** No file has changed the number of any block but file i's block bn. */
  ghost predicate OneSlot(inodes0: seq<Dinode>, blocks0: seq<Block>, inodes: seq<Dinode>, blocks: seq<Block>, i: nat, bn: nat) {
    && |inodes| == |inodes0|
    && (forall j: nat :: j < |inodes| ==> inodes[j].size == inodes0[j].size)
    && forall j: nat, b: nat :: j < |inodes| && b < MAXFILE && (j != i || b != bn) ==>
         Addr(inodes[j], blocks, b) == Addr(inodes0[j], blocks0, b)
  }

  lemma OneSlotTrans(inodes0: seq<Dinode>, blocks0: seq<Block>, inodes1: seq<Dinode>, blocks1: seq<Block>,
                     inodes2: seq<Dinode>, blocks2: seq<Block>, i: nat, bn: nat)
    requires OneSlot(inodes0, blocks0, inodes1, blocks1, i, bn) && OneSlot(inodes1, blocks1, inodes2, blocks2, i, bn)
    ensures OneSlot(inodes0, blocks0, inodes2, blocks2, i, bn)
  {
    hide Slot;
  }

  /** No file has a block past its end; the end of file i is `end`. */
  ghost predicate Trim(inodes: seq<Dinode>, blocks: seq<Block>, i: nat, end: nat) {
    forall j: nat, b: nat :: j < |inodes| && b < MAXFILE && b * BSIZE >= (if j == i then end else inodes[j].size) ==>
      Addr(inodes[j], blocks, b) == 0
  }

  lemma TrimNext(inodes0: seq<Dinode>, blocks0: seq<Block>, inodes: seq<Dinode>, blocks: seq<Block>, i: nat, bn: nat, end: nat, n: nat)
    requires Trim(inodes0, blocks0, i, end) && OneSlot(inodes0, blocks0, inodes, blocks, i, bn) && bn == end / BSIZE && n > 0
    ensures Trim(inodes, blocks, i, end + n)
  {
    hide Slot;
  }

  lemma RestTrans(inodes0: seq<Dinode>, blocks0: seq<Block>, inodes1: seq<Dinode>, blocks1: seq<Block>,
                  inodes2: seq<Dinode>, blocks2: seq<Block>, i: nat, a: nat, b: nat)
    requires Rest(inodes0, blocks0, inodes1, blocks1, i, a) && Rest(inodes1, blocks1, inodes2, blocks2, i, b) && a <= b
    ensures Rest(inodes0, blocks0, inodes2, blocks2, i, b)
  {
    hide FileByte;
  }

  /** A new block is zeroes where there was nothing, which read as zeroes before. */
  lemma AddrBytes(inodes: seq<Dinode>, blocks: seq<Block>, i: nat, s: nat, b: nat, bn: nat)
    requires (bn == s || s == NDIRECT) && i < |inodes| && s <= NDIRECT && inodes[i].addrs[s] == 0 && b < |blocks| && blocks[b] == Zeroes()
    ensures Rest(inodes, blocks, inodes[i := SetAddr(inodes[i], s, b)], blocks, i, 0)
    ensures OneSlot(inodes, blocks, inodes[i := SetAddr(inodes[i], s, b)], blocks, i, bn)
  {
    var inodes1 := inodes[i := SetAddr(inodes[i], s, b)];
    forall j: nat, p: nat | j < |inodes| && p < MAXFILE * BSIZE
      ensures FileByte(inodes1[j], blocks, p) == FileByte(inodes[j], blocks, p)
    {
      if j == i && s == NDIRECT && p / BSIZE >= NDIRECT { assert Word(Zeroes(), p / BSIZE - NDIRECT) == 0; }
    }
    forall j: nat, c: nat | j < |inodes| && c < MAXFILE && (j != i || c != s || s == NDIRECT)
      ensures Addr(inodes1[j], blocks, c) == Addr(inodes[j], blocks, c)
    {
      if j == i && s == NDIRECT && c >= NDIRECT { assert Word(Zeroes(), c - NDIRECT) == 0; }
    }
  }

  lemma EntryBytes(inodes: seq<Dinode>, blocks: seq<Block>, owner: Owner, i: nat, e: nat, b: nat)
    requires Refs(inodes, blocks, owner) && i < |inodes| && e < NINDIRECT && 0 < inodes[i].addrs[NDIRECT] < |blocks|
    requires Slot(inodes[i], blocks, NDIRECT + 1 + e) == 0 && 0 < b < |blocks| && b < UINT_LIMIT && b !in owner && blocks[b] == Zeroes()
    ensures var ind := inodes[i].addrs[NDIRECT];
            && Rest(inodes, blocks, inodes, blocks[ind := PutWord(blocks[ind], e, b)], i, 0)
            && OneSlot(inodes, blocks, inodes, blocks[ind := PutWord(blocks[ind], e, b)], i, NDIRECT + e)
  {
    var ind := inodes[i].addrs[NDIRECT];
    assert Slot(inodes[i], blocks, NDIRECT) == ind;
    var blocks1 := blocks[ind := PutWord(blocks[ind], e, b)];
    AttachEntry(inodes, blocks, owner, i, e, b);
    hide PutWord, Word;
    forall j: nat, p: nat | j < |inodes| && p < MAXFILE * BSIZE
      ensures FileByte(inodes[j], blocks1, p) == FileByte(inodes[j], blocks, p)
    {
      var s := SlotOf(p / BSIZE);
      var a := Slot(inodes[j], blocks, s);
      assert Slot(inodes[j], blocks1, s) == if j == i && s == NDIRECT + 1 + e then b else a;
      if a != 0 { assert owner[a] == (j, s) && owner[ind] == (i, NDIRECT); }
    }
  }

  /** The next block becomes the target of an empty slot of addrs[]. */
  lemma TakeAddr(inodes: seq<Dinode>, blocks: seq<Block>, owner: Owner, freeblock: nat, i: nat, s: nat, bn: nat)
    requires (bn == s || s == NDIRECT) && Packed(inodes, blocks, owner, freeblock) && freeblock < FSSIZE
    requires i < |inodes| && s <= NDIRECT && inodes[i].addrs[s] == 0
    ensures var inodes1 := inodes[i := SetAddr(inodes[i], s, freeblock)];
            var owner1 := owner[freeblock := (i, s)];
            && Packed(inodes1, blocks, owner1, freeblock + 1) && Grows(inodes, blocks, owner, inodes1, blocks, i)
            && Rest(inodes, blocks, inodes1, blocks, i, 0)
            && OneSlot(inodes, blocks, inodes1, blocks, i, bn)
  {
    AddrBytes(inodes, blocks, i, s, freeblock, bn);
    hide Refs, Accounted, Grows, Rest, OneSlot;
    AllocAddr(inodes, blocks, owner, Below(freeblock), NMETA, i, s, freeblock);
    assert blocks[freeblock := Zeroes()] == blocks;
    NextBelow(freeblock);
  }

  /** The next block becomes the target of an empty entry of the indirect block. */
  lemma TakeEntry(inodes: seq<Dinode>, blocks: seq<Block>, owner: Owner, freeblock: nat, i: nat, e: nat)
    requires Packed(inodes, blocks, owner, freeblock) && freeblock < FSSIZE && i < |inodes| && e < NINDIRECT
    requires inodes[i].addrs[NDIRECT] != 0 && Slot(inodes[i], blocks, NDIRECT + 1 + e) == 0
    ensures var ind := inodes[i].addrs[NDIRECT];
            && ind < freeblock
            && var blocks1 := blocks[ind := PutWord(blocks[ind], e, freeblock)];
               var owner1 := owner[freeblock := (i, NDIRECT + 1 + e)];
               && Packed(inodes, blocks1, owner1, freeblock + 1) && Grows(inodes, blocks, owner, inodes, blocks1, i)
               && Slot(inodes[i], blocks1, NDIRECT + 1 + e) == freeblock && Rest(inodes, blocks, inodes, blocks1, i, 0)
               && OneSlot(inodes, blocks, inodes, blocks1, i, NDIRECT + e)
  {
    IndirectBelow(inodes, blocks, owner, freeblock, i);
    assert freeblock !in owner;
    EntryBytes(inodes, blocks, owner, i, e, freeblock);
    hide Refs, Accounted, Grows, PutWord, Rest, OneSlot;
    AllocEntry(inodes, blocks, owner, Below(freeblock), NMETA, i, e, freeblock);
    assert blocks[freeblock := Zeroes()] == blocks;
    NextBelow(freeblock);
  }

  lemma IndirectBelow(inodes: seq<Dinode>, blocks: seq<Block>, owner: Owner, freeblock: nat, i: nat)
    requires Packed(inodes, blocks, owner, freeblock) && i < |inodes| && inodes[i].addrs[NDIRECT] != 0
    ensures NMETA <= inodes[i].addrs[NDIRECT] < freeblock
  {
    assert Slot(inodes[i], blocks, NDIRECT) == inodes[i].addrs[NDIRECT];
  }

  /** A write in progress survives the allocation of blocks. */
  lemma WrittenGrows(inodes0: seq<Dinode>, blocks0: seq<Block>, inodes1: seq<Dinode>, blocks1: seq<Block>, owner1: Owner,
                     inodes2: seq<Dinode>, blocks2: seq<Block>, i: nat, off0: nat, src: seq<byte>, t: nat)
    requires Refs(inodes1, blocks1, owner1) && Grows(inodes1, blocks1, owner1, inodes2, blocks2, i)
    requires Written(inodes0, blocks0, inodes1, blocks1, i, off0, src, t)
    ensures Written(inodes0, blocks0, inodes2, blocks2, i, off0, src, t)
  {
    forall j, p | 0 <= j < |inodes1| && 0 <= p < MAXFILE * BSIZE && Addr(inodes1[j], blocks1, p / BSIZE) != 0
      ensures Addr(inodes2[j], blocks2, p / BSIZE) != 0
      ensures FileByte(inodes2[j], blocks2, p) == FileByte(inodes1[j], blocks1, p)
    {
      GrowsKeepsByte(inodes1, blocks1, owner1, inodes2, blocks2, i, j, p);
    }
  }

  /** Changing a data block of file i leaves the image packed. */
  lemma PackedPatch(inodes: seq<Dinode>, blocks: seq<Block>, owner: Owner, freeblock: nat, i: nat, bn: nat, x: Block)
    requires Packed(inodes, blocks, owner, freeblock) && i < |inodes| && bn < MAXFILE && Addr(inodes[i], blocks, bn) != 0
    ensures Addr(inodes[i], blocks, bn) < freeblock && Packed(inodes, blocks[Addr(inodes[i], blocks, bn) := x], owner, freeblock)
  {
    var addr := Addr(inodes[i], blocks, bn);
    assert owner[addr] == (i, SlotOf(bn));
    SlotsSame(inodes, blocks, owner, addr, x);
  }

  /** After its last byte a file has only zeroes, as far as its blocks go. */
  ghost predicate ZeroTail(ip: Dinode, blocks: seq<Block>) {
    forall p: nat :: ip.size <= p < MAXFILE * BSIZE ==> FileByte(ip, blocks, p) == 0
  }

  /** The state between two calls: packed, every file whole, and the inodes from freeinode on free. */
  ghost predicate Built(dinodes: seq<Dinode>, blocks: seq<Block>, owner: Owner, freeinode: nat, freeblock: nat) {
    && Packed(dinodes, blocks, owner, freeblock) && 1 <= freeinode <= SLOTS
    && (forall i: nat :: i < SLOTS ==> InodeOk(dinodes[i], blocks))
    && (forall i: nat :: i < SLOTS ==> (dinodes[i].kind != 0 <==> 0 < i < freeinode))
    && (forall i: nat :: i < SLOTS && dinodes[i].kind == 0 ==> dinodes[i] == FREE_DINODE)
    && (forall i: nat :: i < SLOTS ==> ZeroTail(dinodes[i], blocks)) && Trim(dinodes, blocks, SLOTS, 0)
  }

  const ROOTINO: nat := 1
  const PER_BLOCK: nat := 64              // records of a directory in one block

  /** A file of the build machine: its path and the pieces that read() returns. */
  datatype HostFile = HostFile(path: string, pieces: seq<seq<byte>>)

  predicate IsPath(path: string) { forall i :: 0 <= i < |path| ==> 0 < path[i] as int < 256 }

  /** The name in the image: without "user/" and without a leading underscore; nothing if an assertion fails. */
  function ShortName(path: string): Option<string> {
    var s := if "user/" <= path then path[5..] else path;
    if '/' in s then None else
    var t := if s != "" && s[0] == '_' then s[1..] else s;
    if |t| > DIRSIZ then None else Some(t)
  }

  lemma ShortOk(path: string)
    requires IsPath(path) && ShortName(path).Some?
    ensures NameOk(ShortName(path).value)
  {
  }

  /** A program user/_w becomes the file w, and so does a file w or user/w without the underscore; a name that is too long or
      has a directory in it ends mkfs. */
  lemma ShortNames(w: string)
    ensures '/' !in w ==> ShortName("user/_" + w) == if |w| <= DIRSIZ then Some(w) else None
    ensures '/' !in w && (w == "" || w[0] != '_') ==> ShortName("user/" + w) == ShortName(w) == if |w| <= DIRSIZ then Some(w) else None
    ensures '/' in w ==> ShortName("user/" + w).None? && ShortName("user/_" + w).None?
  {
    assert ("user/_" + w)[5..] == "_" + w && ("_" + w)[1..] == w;
    assert ("user/" + w)[5..] == w;
    assert '/' in w ==> '/' in "_" + w;
    if "user/" <= w { assert w[4] == '/'; }
  }

  function Flat(pieces: seq<seq<byte>>): seq<byte> {
    if pieces == [] then [] else Flat(pieces[..|pieces| - 1]) + pieces[|pieces| - 1]
  }

  lemma FlatNext(pieces: seq<seq<byte>>, k: nat)
    requires k < |pieces|
    ensures Flat(pieces[..k + 1]) == Flat(pieces[..k]) + pieces[k]
  {
    assert pieces[..k + 1][..k] == pieces[..k];
  }

  function Names(files: seq<HostFile>): Option<seq<string>> {
    if files == [] then Some([]) else
    var rest, last := Names(files[..|files| - 1]), ShortName(files[|files| - 1].path);
    if rest.None? || last.None? then None else Some(rest.value + [last.value])
  }

  function Datas(files: seq<HostFile>): (r: seq<seq<byte>>)
    ensures |r| == |files| && forall i :: 0 <= i < |files| ==> r[i] == Flat(files[i].pieces)
  {
    seq(|files|, i requires 0 <= i < |files| => Flat(files[i].pieces))
  }

  lemma NoNames()
    ensures Names([]) == Some([]) && Datas([]) == []
  {
  }

  lemma NamesNext(files: seq<HostFile>, i: nat)
    requires i < |files|
    ensures Datas(files[..i + 1]) == Datas(files[..i]) + [Flat(files[i].pieces)]
    ensures Names(files[..i]).Some? && ShortName(files[i].path).Some? ==>
      Names(files[..i + 1]) == Some(Names(files[..i]).value + [ShortName(files[i].path).value])
  {
    assert files[..i + 1][..i] == files[..i];
  }

  /** The records of the root: the dots, and file j under inode 2 + j. */
  function RootRecords(names: seq<string>): (r: seq<Dirs.Dirent>)
    ensures |r| == |names| + 2
  {
    [Dirs.Dirent(ROOTINO, "."), Dirs.Dirent(ROOTINO, "..")]
    + seq(|names|, j requires 0 <= j < |names| => Dirs.Dirent(2 + j, names[j]))
  }

  ghost predicate FileHas(ip: Dinode, blocks: seq<Block>, data: seq<byte>) {
    && ip == Dinode(T_FILE, 0, 0, 1, ip.size, ip.addrs) && ip.size <= MAXFILE * BSIZE && Contents(ip, blocks) == data
  }

  ghost predicate RootHas(ip: Dinode, blocks: seq<Block>, records: seq<Dirs.Dirent>) {
    && ip == Dinode(T_DIR, 0, 0, 1, RECORD * |records|, ip.addrs) && ip.size <= MAXFILE * BSIZE
    && Records(Contents(ip, blocks)) == records
  }

  /** The image so far: the root, and the files names with contents datas. */
  ghost predicate Holds(dinodes: seq<Dinode>, blocks: seq<Block>, freeinode: nat, names: seq<string>, datas: seq<seq<byte>>) {
    && |dinodes| == SLOTS && |names| == |datas| && freeinode == 2 + |names| <= SLOTS
    && RootHas(dinodes[ROOTINO], blocks, RootRecords(names))
    && (forall j: nat :: j < |names| ==> FileHas(dinodes[2 + j], blocks, datas[j]))
  }

  /** The finished image: unused records fill the root, and all other inodes are free. */
  ghost predicate Final(dinodes: seq<Dinode>, blocks: seq<Block>, freeinode: nat, names: seq<string>, datas: seq<seq<byte>>) {
    && |names| == |datas| && freeinode == 2 + |names| <= |dinodes|
    && RootLists(dinodes[ROOTINO], blocks, names)
    && (forall j: nat :: j < |names| ==> FileHas(dinodes[2 + j], blocks, datas[j]))
    && (forall i: nat :: i < |dinodes| && (i == 0 || i >= freeinode) ==> dinodes[i] == FREE_DINODE)
  }

  /** The size that mkfs gives a root with n records. */
  function RoundedSize(n: nat): nat { (RECORD * n / BSIZE + 1) * BSIZE }

  /** The root of the finished image names every file. */
  ghost predicate RootLists(root: Dinode, blocks: seq<Block>, names: seq<string>) {
    && root == Dinode(T_DIR, 0, 0, 1, RoundedSize(|names| + 2), root.addrs) && root.size <= MAXFILE * BSIZE
    && var r := Records(Contents(root, blocks));
       && |r| >= |names| + 2 && r[..|names| + 2] == RootRecords(names)
       && forall k :: |names| + 2 <= k < |r| ==> r[k] == Dirs.UNUSED
  }

  /** The last block of the root's size is missing. */
  ghost predicate RootHole(dinodes: seq<Dinode>, blocks: seq<Block>) {
    && ROOTINO < |dinodes| && BSIZE <= dinodes[ROOTINO].size <= MAXFILE * BSIZE
    && Addr(dinodes[ROOTINO], blocks, dinodes[ROOTINO].size / BSIZE - 1) == 0
  }

  /** Empty files with good names. */
  predicate Bare(files: seq<HostFile>) { forall i :: 0 <= i < |files| ==> files[i].pieces == [] && ShortName(files[i].path).Some? }

  lemma OneRecord(k: nat)
    ensures Span(RECORD * k, RECORD) == 1
  {
    assert RECORD * k == BSIZE * (k / 64) + RECORD * (k % 64);
  }

  lemma HoldsSizes(dinodes: seq<Dinode>, blocks: seq<Block>, freeinode: nat, names: seq<string>, datas: seq<seq<byte>>)
    requires Holds(dinodes, blocks, freeinode, names, datas)
    ensures |dinodes| == SLOTS && |names| == |datas| && freeinode == 2 + |names|
  {
  }

  lemma BuiltSizes(dinodes: seq<Dinode>, blocks: seq<Block>, owner: Owner, freeinode: nat, freeblock: nat)
    requires Built(dinodes, blocks, owner, freeinode, freeblock)
    ensures |dinodes| == SLOTS && 1 <= freeinode <= SLOTS
    ensures forall i: nat :: i < SLOTS ==> InodeOk(dinodes[i], blocks)
  {
  }

  lemma BuiltFree(dinodes: seq<Dinode>, blocks: seq<Block>, owner: Owner, freeinode: nat, freeblock: nat)
    requires Built(dinodes, blocks, owner, freeinode, freeblock)
    ensures freeblock <= FSSIZE
  {
  }

  lemma RootRecordsNext(names: seq<string>, name: string)
    ensures RootRecords(names + [name]) == RootRecords(names) + [Dirs.Dirent(2 + |names|, name)]
  {
  }

  /** A new inode and a record for it in the root. */
  lemma HoldsEntry(dinodes0: seq<Dinode>, dinodes1: seq<Dinode>, blocks1: seq<Block>, dinodes: seq<Dinode>, blocks: seq<Block>,
                   names: seq<string>, datas: seq<seq<byte>>, name: string)
    requires Holds(dinodes0, blocks1, 2 + |names|, names, datas) && 2 + |names| < SLOTS && NameOk(name)
    requires dinodes1 == dinodes0[2 + |names| := FREE_DINODE.(kind := T_FILE, nlink := 1)]
    requires Appended(dinodes1, blocks1, dinodes, blocks, ROOTINO, Encode(2 + |names|, name))
    ensures Holds(dinodes, blocks, 3 + |names|, names + [name], datas + [[]])
  {
    var n := |names|;
    var c := Contents(dinodes0[ROOTINO], blocks1);
    RecordsConcat(c, Encode(2 + n, name));
    RecordsOne(2 + n, name);
    RootRecordsNext(names, name);
    hide Records, RootRecords, Encode;
    forall j: nat | j < n + 1 ensures FileHas(dinodes[2 + j], blocks, (datas + [[]])[j]) {
      assert dinodes[2 + j] == dinodes1[2 + j];
      if j < n { assert FileHas(dinodes0[2 + j], blocks1, datas[j]); }
    }
  }

  /** A piece is added to the last file. */
  lemma HoldsPiece(dinodes0: seq<Dinode>, blocks0: seq<Block>, dinodes: seq<Dinode>, blocks: seq<Block>, freeinode: nat,
                   names: seq<string>, datas: seq<seq<byte>>, data: seq<byte>, piece: seq<byte>)
    requires Holds(dinodes0, blocks0, freeinode, names, datas + [data])
    requires Appended(dinodes0, blocks0, dinodes, blocks, 1 + |names|, piece)
    ensures Holds(dinodes, blocks, freeinode, names, datas + [data + piece])
  {
    hide Records, RootRecords;
    var n := |names|;
    forall j: nat | j < n ensures FileHas(dinodes[2 + j], blocks, (datas + [data + piece])[j]) {
      assert FileHas(dinodes0[2 + j], blocks0, (datas + [data])[j]);
    }
  }

  lemma RootHolds(dinodes1: seq<Dinode>, blocks1: seq<Block>, dinodes2: seq<Dinode>, blocks2: seq<Block>,
                  dinodes: seq<Dinode>, blocks: seq<Block>)
    requires |dinodes1| == SLOTS && dinodes1[ROOTINO] == FREE_DINODE.(kind := T_DIR, nlink := 1)
    requires NameOk(".") && NameOk("..")
    requires Appended(dinodes1, blocks1, dinodes2, blocks2, ROOTINO, Encode(ROOTINO, "."))
    requires Appended(dinodes2, blocks2, dinodes, blocks, ROOTINO, Encode(ROOTINO, ".."))
    ensures Holds(dinodes, blocks, 2, [], [])
  {
    RecordsOne(ROOTINO, ".");
    RecordsOne(ROOTINO, "..");
    var a, b := Encode(ROOTINO, "."), Encode(ROOTINO, "..");
    assert Contents(dinodes[ROOTINO], blocks) == a + b;
    RecordsConcat(a, b);
    assert RootRecords([]) == [Dirs.Dirent(ROOTINO, "."), Dirs.Dirent(ROOTINO, "..")];
  }

  lemma NoBits(bitmap: seq<bv8>)
    requires |bitmap| == BSIZE && forall i :: 0 <= i < BSIZE ==> bitmap[i] == 0
    ensures Represents(bitmap, Below(0))
  {
  }

  /** What rounding the size of the root does. */
  lemma Rounded(dinodes: seq<Dinode>, blocks: seq<Block>, owner: Owner, freeinode: nat, freeblock: nat,
                names: seq<string>, datas: seq<seq<byte>>)
    requires Built(dinodes, blocks, owner, freeinode, freeblock) && Holds(dinodes, blocks, freeinode, names, datas)
    ensures var size := (dinodes[ROOTINO].size / BSIZE + 1) * BSIZE;
            var dinodes1 := dinodes[ROOTINO := dinodes[ROOTINO].(size := size)];
            && Packed(dinodes1, blocks, owner, freeblock) && Final(dinodes1, blocks, freeinode, names, datas)
            && ((forall i: nat :: i < SLOTS ==> InodeOk(dinodes1[i], blocks)) <==> (|names| + 2) % PER_BLOCK != 0)
            && ((|names| + 2) % PER_BLOCK == 0 ==> RootHole(dinodes1, blocks))
  {
    hide Refs, Accounted, InodeOk, Trim, ZeroTail, Addr, FileByte, Records, RootRecords, Contents, Final, RootLists;
    var root := dinodes[ROOTINO];
    var size := (root.size / BSIZE + 1) * BSIZE;
    var dinodes1 := dinodes[ROOTINO := root.(size := size)];
    RootTrim(dinodes, blocks, owner, freeinode, freeblock);
    RootSize(|names| + 2);
    SizeKeepsRefs(dinodes, dinodes1, blocks, owner);
    RoundedHole(root, blocks, size);
    RoundedFinal(dinodes, blocks, owner, freeinode, freeblock, names, datas);
  }

  lemma RoundedFinal(dinodes: seq<Dinode>, blocks: seq<Block>, owner: Owner, freeinode: nat, freeblock: nat,
                     names: seq<string>, datas: seq<seq<byte>>)
    requires Built(dinodes, blocks, owner, freeinode, freeblock) && Holds(dinodes, blocks, freeinode, names, datas)
    ensures var size := (dinodes[ROOTINO].size / BSIZE + 1) * BSIZE;
            Final(dinodes[ROOTINO := dinodes[ROOTINO].(size := size)], blocks, freeinode, names, datas)
  {
    hide Refs, Accounted, InodeOk, Trim, ZeroTail, Addr, FileByte, Records, RootRecords, Contents;
    RootSize(|names| + 2);
    RoundedRecords(dinodes[ROOTINO], blocks, RoundedSize(|names| + 2), RootRecords(names));
  }

  lemma RootTrim(dinodes: seq<Dinode>, blocks: seq<Block>, owner: Owner, freeinode: nat, freeblock: nat)
    requires Built(dinodes, blocks, owner, freeinode, freeblock)
    ensures ROOTINO < |dinodes| && forall b: nat :: b < MAXFILE && b * BSIZE >= dinodes[ROOTINO].size ==> Addr(dinodes[ROOTINO], blocks, b) == 0
  {
    hide Refs, Accounted, InodeOk, ZeroTail;
  }

  lemma RootSize(n: nat)
    requires n <= SLOTS
    ensures n % PER_BLOCK == 0 <==> RECORD * n % BSIZE == 0
    ensures (RECORD * n / BSIZE + 1) * BSIZE <= MAXFILE * BSIZE && (RECORD * n / BSIZE + 1) * BSIZE % RECORD == 0
    ensures RECORD * n <= (RECORD * n / BSIZE + 1) * BSIZE
  {
    var q, r := n / PER_BLOCK, n % PER_BLOCK;
    assert RECORD * n == BSIZE * q + RECORD * r && RECORD * n / BSIZE == q;
  }

  lemma BelowRounded(n: nat, b: nat)
    requires n % BSIZE != 0 && b * BSIZE < (n / BSIZE + 1) * BSIZE
    ensures b * BSIZE < n
  {
  }

  /** The new last block is there exactly if the old size was inside it. */
  lemma RoundedHole(root: Dinode, blocks: seq<Block>, size: nat)
    requires InodeOk(root, blocks) && root.kind != 0 && size == (root.size / BSIZE + 1) * BSIZE <= MAXFILE * BSIZE
    requires forall b: nat :: b < MAXFILE && b * BSIZE >= root.size ==> Addr(root, blocks, b) == 0
    ensures InodeOk(root.(size := size), blocks) <==> root.size % BSIZE != 0
    ensures root.size % BSIZE == 0 ==> Addr(root.(size := size), blocks, size / BSIZE - 1) == 0
  {
    var ip := root.(size := size);
    forall b: nat | b < MAXFILE ensures Addr(ip, blocks, b) == Addr(root, blocks, b) { }
    var last := root.size / BSIZE;
    assert last * BSIZE < size;
    if root.size % BSIZE == 0 {
      assert Addr(ip, blocks, last) == 0;
    } else {
      forall b: nat | b < MAXFILE && b * BSIZE < size ensures Addr(ip, blocks, b) != 0 { BelowRounded(root.size, b); }
    }
  }

  /** The bytes that rounding adds are zeroes. */
  lemma RoundedRecords(root: Dinode, blocks: seq<Block>, size: nat, records: seq<Dirs.Dirent>)
    requires RootHas(root, blocks, records) && ZeroTail(root, blocks) && root.size <= size <= MAXFILE * BSIZE && size % RECORD == 0
    ensures var r := Records(Contents(root.(size := size), blocks));
            |r| >= |records| && r[..|records|] == records && forall k :: |records| <= k < |r| ==> r[k] == Dirs.UNUSED
  {
    var ip := root.(size := size);
    var c, d := Contents(root, blocks), Contents(ip, blocks);
    var z := d[root.size..];
    forall p: nat | p < size ensures d[p] == FileByte(root, blocks, p) { SameAddr(ip, root, blocks, p); }
    assert d == c + z;
    RecordsConcat(c, z);
    RecordsZero(z);
    var r := Records(d);
    forall k: nat | |records| <= k < |r| ensures r[k] == Dirs.UNUSED { assert r[k] == Records(z)[k - |records|]; }
  }

  /** The blocks that n bytes at the end of a file of `size` bytes lie in. */
  function Span(size: nat, n: nat): nat { if n == 0 then 0 else (size + n + BSIZE - 1) / BSIZE - size / BSIZE }

  /** There may be too few blocks for them, with an indirect block for each, or the file gets too long. */
  predicate NoRoom(freeblock: nat, size: nat, n: nat) {
    freeblock + 2 * Span(size, n) > FSSIZE || size + n > MAXFILE * BSIZE
  }

  lemma SpanNext(size: nat, t: nat, n: nat)
    requires t < n && (0 < t ==> (size + t) % BSIZE == 0)
    ensures var m := Chunk(n - t, size + t);
            && Span(size, t + m) == Span(size, t) + 1 <= Span(size, n) && (t + m < n ==> (size + t + m) % BSIZE == 0)
  {
    var m := Chunk(n - t, size + t);
    var q := (size + t) / BSIZE;
    assert size + t == q * BSIZE + (size + t) % BSIZE;
    assert (size + t + m + BSIZE - 1) / BSIZE == q + 1;
    if t > 0 { assert (size + t + BSIZE - 1) / BSIZE == q; }
  }

  /** The block of inode i. */
  function InodeBlock(i: nat): nat { i / IPB + INODE_START }

  /** What rinode() reads. */
  function InodeAt(disk: seq<Block>, i: nat): Dinode
    requires InodeBlock(i) < |disk|
  {
    FromWords(SlotWords(disk[InodeBlock(i)], i % IPB))
  }

  /** What winode() leaves. */
  function WithInode(disk: seq<Block>, i: nat, din: Dinode): seq<Block>
    requires InodeBlock(i) < |disk| && Plain(din)
  {
    disk[InodeBlock(i) := PutSlot(disk[InodeBlock(i)], i % IPB, din)]
  }

  function DataBlock(disk: seq<Block>, b: nat): Block
    requires b < |disk|
  {
    if b < NMETA then Zeroes() else disk[b]
  }

  /** The data blocks of a disk. */
  function DataBlocks(disk: seq<Block>): (r: seq<Block>)
    requires |disk| == FSSIZE
    ensures |r| == FSSIZE && forall b :: 0 <= b < FSSIZE ==> r[b] == DataBlock(disk, b)
  {
    seq<Block>(FSSIZE, b requires 0 <= b < FSSIZE => DataBlock(disk, b))
  }

  /** The disk holds these inodes, up to the end of the bitmap block, and these data blocks. */
  ghost predicate Spells(disk: seq<Block>, dinodes: seq<Dinode>, blocks: seq<Block>) {
    && |disk| == FSSIZE && |dinodes| == SLOTS && blocks == DataBlocks(disk)
    && forall i: nat :: i < SLOTS ==> SpellsInode(disk, i, dinodes[i])
  }

  ghost predicate SpellsInode(disk: seq<Block>, i: nat, din: Dinode)
    requires |disk| == FSSIZE && i < SLOTS
  {
    Plain(din) && SlotWords(disk[InodeBlock(i)], i % IPB) == DinodeWords(din)
  }

  lemma SpellsAt(disk: seq<Block>, dinodes: seq<Dinode>, blocks: seq<Block>, i: nat)
    requires Spells(disk, dinodes, blocks) && i < SLOTS
    ensures InodeBlock(i) < |disk| && InodeAt(disk, i) == dinodes[i] && Plain(dinodes[i])
  {
    hide SlotWords, Plain, DinodeWords;
    assert SpellsInode(disk, i, dinodes[i]);
    DinodeRoundTrip(dinodes[i]);
  }

  /** winode() below the data blocks changes that inode only. */
  lemma SpellsWinode(disk: seq<Block>, dinodes: seq<Dinode>, blocks: seq<Block>, i: nat, din: Dinode)
    requires Spells(disk, dinodes, blocks) && i < SLOTS && Plain(din)
    ensures InodeBlock(i) < |disk| && |dinodes| == SLOTS && Spells(WithInode(disk, i, din), dinodes[i := din], blocks)
  {
    hide SlotWords, Plain, DinodeWords, PutSlot;
    var disk1, dinodes1 := WithInode(disk, i, din), dinodes[i := din];
    forall j: nat | j < SLOTS ensures SpellsInode(disk1, j, dinodes1[j]) {
      assert SpellsInode(disk, j, dinodes[j]);
      PutSlotAt(disk[InodeBlock(i)], i % IPB, din, j % IPB);
    }
    assert DataBlocks(disk1) == DataBlocks(disk);
  }

  /** Writing a data block changes that block only. */
  lemma SpellsData(disk: seq<Block>, dinodes: seq<Dinode>, blocks: seq<Block>, x: nat, b: Block)
    requires Spells(disk, dinodes, blocks) && NMETA <= x < FSSIZE
    ensures |blocks| == FSSIZE && disk[x] == blocks[x] && Spells(disk[x := b], dinodes, blocks[x := b])
  {
    hide SlotWords, Plain, DinodeWords;
    forall j: nat | j < SLOTS ensures SpellsInode(disk[x := b], j, dinodes[j]) {
      assert SpellsInode(disk, j, dinodes[j]);
    }
    assert DataBlocks(disk[x := b]) == DataBlocks(disk)[x := b];
  }

  /** Where lseek() goes for a sector number: its product with BSIZE is a 32-bit number. */
  function Sector(x: nat): nat { x % 0x40_0000 }

  /** The bitmap as bytes. */
  function Raw(bitmap: seq<bv8>): Block
    requires |bitmap| == BSIZE
  {
    seq(BSIZE, i requires 0 <= i < BSIZE => bitmap[i] as nat)
  }

  /** The inodes that the kernel finds: those of the table. */
  function Inodes(disk: seq<Block>): (r: seq<Dinode>)
    requires |disk| == FSSIZE
    ensures |r| == NINODES && forall i :: 0 <= i < NINODES ==> r[i] == InodeAt(disk, i)
  {
    seq(NINODES, i requires 0 <= i < NINODES => InodeAt(disk, i))
  }

  /** The file system that the kernel finds. */
  function View(disk: seq<Block>, bitmap: seq<bv8>): Snapshot
    requires |disk| == FSSIZE
  {
    Snapshot(bitmap, Inodes(disk), DataBlocks(disk))
  }

  /** A consistent file system whose root names the given files, each with its contents in an inode of its own. */
  ghost predicate Good(s: Snapshot, names: seq<string>, datas: seq<seq<byte>>) {
    && Consistent(SB, s) && |names| == |datas| && ROOTINO < |s.dinodes| && RootLists(s.dinodes[ROOTINO], s.blocks, names)
    && forall j: nat :: j < |names| ==> FileIn(s, 2 + j, datas[j])
  }

  ghost predicate FileIn(s: Snapshot, i: nat, data: seq<byte>) { i < |s.dinodes| && FileHas(s.dinodes[i], s.blocks, data) }

  class Image {
    var freeinode: nat
    var freeblock: nat
    var disk: seq<Block>
    var bitmap: seq<bv8>           // what balloc() has written
    ghost var dinodes: seq<Dinode>
    ghost var blocks: seq<Block>
    ghost var owner: Owner

    ghost predicate Shape()
      reads this
    {
      |disk| == FSSIZE && NMETA <= freeblock <= FSSIZE
    }

    /** As long as no inode lies among the data blocks, the disk holds an image. */
    ghost predicate Valid()
      reads this
    {
      Shape() && (freeinode <= SLOTS ==> Built(dinodes, blocks, owner, freeinode, freeblock) && Spells(disk, dinodes, blocks))
    }

    /** main() before it makes the root: every block written with zeroes. */
    constructor ()
      ensures Valid() && freeinode == 1 && freeblock == NMETA
    {
      freeinode, freeblock := 1, NMETA;
      disk := seq(FSSIZE, b => Zeroes());
      bitmap := seq(BSIZE, b => 0);
      dinodes := seq(SLOTS, i => FREE_DINODE);
      blocks := seq(FSSIZE, b => Zeroes());
      owner := map[];
      new;
      ZeroSpells(disk, dinodes, blocks);
    }

    /** winode(); false when the read of its block fails. */
    method Winode(inum: nat, din: Dinode) returns (ok: bool)
      requires |disk| == FSSIZE && Plain(din)
      modifies this`disk
      ensures ok <==> InodeBlock(inum) < FSSIZE
      ensures ok ==> disk == WithInode(old(disk), inum, din)
      ensures !ok ==> disk == old(disk)
    {
      if InodeBlock(inum) >= FSSIZE { return false; }
      disk := WithInode(disk, inum, din);
      ok := true;
    }

    /** ialloc(): the next inode, with one link, wherever that is. */
    method Ialloc(kind: nat) returns (ok: bool, inum: nat)
      requires Valid() && 0 < kind < SHORT
      modifies this`freeinode, this`disk, this`dinodes
      ensures inum == old(freeinode) && freeinode == inum + 1 && (ok <==> InodeBlock(inum) < FSSIZE)
      ensures ok ==> Valid() && disk == WithInode(old(disk), inum, FREE_DINODE.(kind := kind, nlink := 1))
      ensures ok && freeinode <= SLOTS ==> |old(dinodes)| == SLOTS && dinodes == old(dinodes)[inum := FREE_DINODE.(kind := kind, nlink := 1)]
    {
      hide Built, Spells, Plain, PutSlot;
      var din := FREE_DINODE.(kind := kind, nlink := 1);
      NewPlain(kind);
      inum := freeinode;
      freeinode := freeinode + 1;
      if inum < SLOTS {
        NewInode(dinodes, blocks, owner, inum, freeblock, kind);
        BuiltSize(dinodes, blocks, owner, inum, freeblock);
        SpellsWinode(disk, dinodes, blocks, inum, din);
        dinodes := dinodes[inum := din];
      }
      ok := Winode(inum, din);
    }

    /** The block of addrs[s] of din, the next free one if there was none; false when no block is left, which the
        read of that block would find out. */
    method PlaceAddr(ghost inum: nat, din: Dinode, s: nat, ghost bn: nat) returns (ok: bool, din1: Dinode)
      requires (bn == s || s == NDIRECT) && s <= NDIRECT && Shape() && Plain(din)
      requires freeinode <= SLOTS ==> inum < |dinodes| && Packed(dinodes[inum := din], blocks, owner, freeblock)
      modifies this`freeblock, this`owner
      ensures Shape() && Plain(din1) && freeblock <= old(freeblock) + 1 && (!ok ==> old(freeblock) >= FSSIZE)
      ensures ok && freeinode <= SLOTS ==> Packed(dinodes[inum := din1], blocks, owner, freeblock) && din1.addrs[s] != 0
      ensures ok && freeinode <= SLOTS ==> Grows(dinodes[inum := din], blocks, old(owner), dinodes[inum := din1], blocks, inum)
      ensures ok && freeinode <= SLOTS ==> Rest(dinodes[inum := din], blocks, dinodes[inum := din1], blocks, inum, 0)
      ensures ok && freeinode <= SLOTS ==> OneSlot(dinodes[inum := din], blocks, dinodes[inum := din1], blocks, inum, bn)
    {
      hide Grows, Rest, OneSlot, Refs, Accounted;
      din1 := din;
      if din.addrs[s] == 0 {
        if freeblock >= FSSIZE { return false, din; }
        din1 := SetAddr(din, s, freeblock);
        if freeinode <= SLOTS {
          ghost var all := dinodes[inum := din];
          TakeAddr(all, blocks, owner, freeblock, inum, s, bn);
          assert all[inum := din1] == dinodes[inum := din1];
          owner := owner[freeblock := (inum, s)];
        }
        freeblock := freeblock + 1;
      } else if freeinode <= SLOTS {
        GrowsSame(dinodes[inum := din], blocks, owner, inum, bn);
      }
      ok := true;
    }

    /** Entry e of the indirect block, the next free block if there was none; false when a block cannot be read. */
    method PlaceEntry(ghost inum: nat, din: Dinode, e: nat) returns (ok: bool, x: nat)
      requires Shape() && e < NINDIRECT
      requires freeinode <= SLOTS ==> inum < |dinodes| && Packed(dinodes[inum := din], blocks, owner, freeblock) && din.addrs[NDIRECT] != 0
      requires freeinode <= SLOTS ==> Spells(disk, dinodes, blocks)
      modifies this`freeblock, this`owner, this`disk, this`blocks
      ensures Shape() && freeblock <= old(freeblock) + 1 && (!ok && freeinode <= SLOTS ==> old(freeblock) >= FSSIZE)
      ensures ok && freeinode <= SLOTS ==> Packed(dinodes[inum := din], blocks, owner, freeblock) && Spells(disk, dinodes, blocks)
      ensures ok && freeinode <= SLOTS ==> x == Slot(din, blocks, NDIRECT + 1 + e) != 0
      ensures ok && freeinode <= SLOTS ==> Grows(dinodes[inum := din], old(blocks), old(owner), dinodes[inum := din], blocks, inum)
      ensures ok && freeinode <= SLOTS ==> Rest(dinodes[inum := din], old(blocks), dinodes[inum := din], blocks, inum, 0)
      ensures ok && freeinode <= SLOTS ==> OneSlot(dinodes[inum := din], old(blocks), dinodes[inum := din], blocks, inum, NDIRECT + e)
    {
      hide Grows, Rest, OneSlot, Refs, Accounted, Spells;
      x := 0;
      var ind := Sector(din.addrs[NDIRECT]);
      if freeinode <= SLOTS {
        IndirectBelow(dinodes[inum := din], blocks, owner, freeblock, inum);
        SpellsData(disk, dinodes, blocks, ind, Zeroes());
      }
      if ind >= FSSIZE { return false, 0; }
      if Word(disk[ind], e) == 0 {
        if freeblock >= FSSIZE { return false, 0; }
        var b := PutWord(disk[ind], e, freeblock);
        if freeinode <= SLOTS {
          TakeEntry(dinodes[inum := din], blocks, owner, freeblock, inum, e);
          SpellsData(disk, dinodes, blocks, ind, b);
          blocks := blocks[ind := b];
          owner := owner[freeblock := (inum, NDIRECT + 1 + e)];
        }
        WordPut(disk[ind], e, freeblock, e);
        disk := disk[ind := b];
        freeblock := freeblock + 1;
      } else if freeinode <= SLOTS {
        GrowsSame(dinodes[inum := din], blocks, owner, inum, NDIRECT + e);
      }
      x := Word(disk[ind], e);
      ok := true;
    }

    /** The block for file block fbn. */
    method Place(ghost inum: nat, din: Dinode, fbn: nat) returns (ok: bool, din1: Dinode, x: nat)
      requires Shape() && Plain(din) && fbn < MAXFILE
      requires freeinode <= SLOTS ==> inum < |dinodes| && Packed(dinodes[inum := din], blocks, owner, freeblock) && Spells(disk, dinodes, blocks)
      modifies this`freeblock, this`owner, this`disk, this`blocks
      ensures Shape() && Plain(din1) && freeblock <= old(freeblock) + 2 && (!ok && freeinode <= SLOTS ==> old(freeblock) + 2 > FSSIZE)
      ensures ok && freeinode <= SLOTS ==> Packed(dinodes[inum := din1], blocks, owner, freeblock) && Spells(disk, dinodes, blocks)
      ensures ok && freeinode <= SLOTS ==> Grows(dinodes[inum := din], old(blocks), old(owner), dinodes[inum := din1], blocks, inum)
      ensures ok && freeinode <= SLOTS ==> Rest(dinodes[inum := din], old(blocks), dinodes[inum := din1], blocks, inum, 0)
      ensures ok && freeinode <= SLOTS ==> OneSlot(dinodes[inum := din], old(blocks), dinodes[inum := din1], blocks, inum, fbn)
      ensures ok && freeinode <= SLOTS ==> x == Addr(din1, blocks, fbn) != 0
    {
      hide Packed, Grows, Rest, OneSlot, Spells, Plain;
      x := 0;
      if fbn < NDIRECT {
        ok, din1 := PlaceAddr(inum, din, fbn, fbn);
        x := din1.addrs[fbn];
      } else {
        ghost var blocks0, owner0, free0 := blocks, owner, freeblock;
        ok, din1 := PlaceAddr(inum, din, NDIRECT, fbn);
        if !ok { return; }
        ghost var owner1, free1 := owner, freeblock;
        ok, x := PlaceEntry(inum, din1, fbn - NDIRECT);
        if !ok { return; }
        if freeinode <= SLOTS {
          RefsOf(dinodes[inum := din], blocks0, owner0, free0, inum);
          RefsOf(dinodes[inum := din1], blocks0, owner1, free1, inum);
          GrowsTrans(dinodes[inum := din], blocks0, owner0, dinodes[inum := din1], blocks0, owner1, dinodes[inum := din1], blocks, inum);
          RestTrans(dinodes[inum := din], blocks0, dinodes[inum := din1], blocks0, dinodes[inum := din1], blocks, inum, 0, 0);
          OneSlotTrans(dinodes[inum := din], blocks0, dinodes[inum := din1], blocks0, dinodes[inum := din1], blocks, inum, fbn);
        }
      }
    }

    /** One round of iappend(): a chunk that stays in one block. */
    method AppendStep(ghost inum: nat, din: Dinode, off: nat, data: seq<byte>, t: nat, ghost blocks0: seq<Block>)
      returns (ok: bool, din1: Dinode, n: nat)
      requires Shape() && Plain(din) && t < |data|
      requires freeinode <= SLOTS ==> inum < |dinodes| && Packed(dinodes[inum := din], blocks, owner, freeblock) && Spells(disk, dinodes, blocks)
      requires freeinode <= SLOTS ==> off == dinodes[inum].size + t
      requires freeinode <= SLOTS ==> Written(dinodes, blocks0, dinodes[inum := din], blocks, inum, dinodes[inum].size, data, t)
      requires freeinode <= SLOTS ==>
        Rest(dinodes, blocks0, dinodes[inum := din], blocks, inum, off) && Trim(dinodes[inum := din], blocks, inum, off)
      modifies this`freeblock, this`owner, this`disk, this`blocks
      ensures Shape() && Plain(din1) && freeblock <= old(freeblock) + 2
      ensures !ok && freeinode <= SLOTS ==> old(freeblock) + 2 > FSSIZE || off >= MAXFILE * BSIZE
      ensures ok ==> n == Chunk(|data| - t, off) && off + n <= MAXFILE * BSIZE
      ensures ok && freeinode <= SLOTS ==> Packed(dinodes[inum := din1], blocks, owner, freeblock) && Spells(disk, dinodes, blocks)
      ensures ok && freeinode <= SLOTS ==> Written(dinodes, blocks0, dinodes[inum := din1], blocks, inum, dinodes[inum].size, data, t + n)
      ensures ok && freeinode <= SLOTS ==> Rest(dinodes, blocks0, dinodes[inum := din1], blocks, inum, off + n)
      ensures ok && freeinode <= SLOTS ==> Trim(dinodes[inum := din1], blocks, inum, off + n)
    {
      hide Packed, Written, Grows, Rest, Trim, OneSlot, Spells, Plain;
      var fbn := off / BSIZE;
      n := 0;
      if fbn >= MAXFILE { return false, din, n; }
      ghost var blocks1, owner1, free1 := blocks, owner, freeblock;
      var x;
      ok, din1, x := Place(inum, din, fbn);
      if !ok { return; }
      n := Chunk(|data| - t, off);
      assert off + n <= MAXFILE * BSIZE;
      if freeinode <= SLOTS {
        Chunked(dinodes, dinodes[inum := din], dinodes[inum := din1], blocks0, blocks1, blocks, owner1, owner, free1, freeblock,
                inum, fbn, off, data, t, n);
        SpellsData(disk, dinodes, blocks, x, Zeroes());
      }
      var sec := Sector(x);
      if sec >= FSSIZE { return false, din1, n; }
      var b := Patch(disk[sec], off - fbn * BSIZE, data[t..t + n]);
      if freeinode <= SLOTS {
        SpellsData(disk, dinodes, blocks, x, b);
        blocks := blocks[x := b];
      }
      disk := disk[sec := b];
    }

    method AppendLoop(ghost inum: nat, din0: Dinode, data: seq<byte>, ghost blocks0: seq<Block>)
      returns (ok: bool, din: Dinode, off: nat)
      requires Valid() && Plain(din0) && blocks0 == blocks
      requires freeinode <= SLOTS ==> inum < |dinodes| && din0 == dinodes[inum]
      modifies this`freeblock, this`owner, this`disk, this`blocks
      ensures Shape() && Plain(din) && off < UINT_LIMIT && (ok ==> off == din0.size + |data|)
      ensures freeinode <= SLOTS ==> freeblock <= old(freeblock) + 2 * Span(din0.size, |data|)
      ensures !ok && freeinode <= SLOTS ==> NoRoom(old(freeblock), din0.size, |data|)
      ensures ok && freeinode <= SLOTS ==> Packed(dinodes[inum := din], blocks, owner, freeblock) && Spells(disk, dinodes, blocks)
      ensures ok && freeinode <= SLOTS ==> Written(dinodes, blocks0, dinodes[inum := din], blocks, inum, din0.size, data, |data|)
      ensures ok && freeinode <= SLOTS ==> Rest(dinodes, blocks0, dinodes[inum := din], blocks, inum, off)
      ensures ok && freeinode <= SLOTS ==> Trim(dinodes[inum := din], blocks, inum, off)
    {
      hide Packed, Written, Rest, InodeOk, ZeroTail, Trim, Spells;
      din, off := din0, din0.size;
      if freeinode <= SLOTS {
        BuiltSize(dinodes, blocks, owner, freeinode, freeblock);
        assert dinodes[inum := din] == dinodes;
        NoneWritten(dinodes, blocks, inum, data);
        TrimAt(dinodes, blocks, inum);
      }
      var t := 0;
      ok := true;
      while t < |data|
        invariant t <= |data| && ok && Shape() && Plain(din) && off == din0.size + t < UINT_LIMIT
        invariant 0 < t < |data| ==> off % BSIZE == 0
        invariant freeblock <= old(freeblock) + 2 * Span(din0.size, t)
        invariant freeinode <= SLOTS ==> Packed(dinodes[inum := din], blocks, owner, freeblock) && Spells(disk, dinodes, blocks)
        invariant freeinode <= SLOTS ==> Written(dinodes, blocks0, dinodes[inum := din], blocks, inum, din0.size, data, t)
        invariant freeinode <= SLOTS ==> Rest(dinodes, blocks0, dinodes[inum := din], blocks, inum, off)
        invariant freeinode <= SLOTS ==> Trim(dinodes[inum := din], blocks, inum, off)
      {
        var n;
        SpanNext(din0.size, t, |data|);
        ok, din, n := AppendStep(inum, din, off, data, t, blocks0);
        if !ok { return; }
        t, off := t + n, off + n;
      }
    }

    /** iappend(): the bytes go to the end of the file, and no other file changes. False is the failed assertion on
        the file's length, or a block that cannot be read because it is beyond the last. */
    method Iappend(inum: nat, data: seq<byte>) returns (ok: bool)
      requires Valid() && (freeinode <= SLOTS ==> 0 < inum < freeinode)
      modifies this`freeblock, this`owner, this`disk, this`blocks, this`dinodes
      ensures freeinode <= SLOTS ==> |old(dinodes)| == SLOTS && freeblock <= old(freeblock) + 2 * Span(old(dinodes)[inum].size, |data|)
      ensures !ok && freeinode <= SLOTS ==> NoRoom(old(freeblock), old(dinodes)[inum].size, |data|)
      ensures ok ==> Valid()
      ensures ok && freeinode <= SLOTS ==> Appended(old(dinodes), old(blocks), dinodes, blocks, inum, data)
    {
      hide Packed, InodeOk, ZeroTail, Written, Rest, Trim, Spells, Plain, FromWords, SlotWords, PutSlot, Appended;
      ghost var dinodes0, blocks0 := dinodes, blocks;
      if freeinode <= SLOTS {
        BuiltSize(dinodes, blocks, owner, freeinode, freeblock);
        SpellsAt(disk, dinodes, blocks, inum);
      }
      if InodeBlock(inum) >= FSSIZE { return false; }
      InodeAtPlain(disk, inum);
      var din, off;
      ok, din, off := AppendLoop(inum, InodeAt(disk, inum), data, blocks);
      if !ok { return; }
      PlainSize(din, off);
      if freeinode <= SLOTS {
        AppendDone(dinodes0, blocks0, din, blocks, owner, freeinode, freeblock, inum, data);
        SpellsWinode(disk, dinodes, blocks, inum, din.(size := off));
        dinodes := dinodes[inum := din.(size := off)];
      }
      ok := Winode(inum, din.(size := off));
    }

    /** balloc(): the bits of the first freeblock blocks, over whatever the bitmap block held. */
    method Balloc()
      requires Shape()
      modifies this`bitmap, this`disk
      ensures |bitmap| == BSIZE && Represents(bitmap, Below(freeblock)) && disk == old(disk)[BMAP_START := Raw(bitmap)]
    {
      bitmap := seq(BSIZE, b => 0);
      NoBits(bitmap);
      var i := 0;
      while i < freeblock
        invariant 0 <= i <= freeblock && |bitmap| == BSIZE && Represents(bitmap, Below(i)) && disk == old(disk)
      {
        SetRepresents(bitmap, Below(i), i);
        NextBelow(i);
        bitmap := SetBit(bitmap, i);
        i := i + 1;
      }
      disk := disk[BMAP_START := Raw(bitmap)];
    }

    /** A new inode and a directory entry for it. */
    method AddEntry(kind: nat, name: string, ghost names: seq<string>, ghost datas: seq<seq<byte>>) returns (ok: bool, inum: nat)
      requires Valid() && NameOk(name) && kind == T_FILE && freeinode == 2 + |names|
      requires freeinode <= SLOTS ==> Holds(dinodes, blocks, freeinode, names, datas)
      modifies this`freeinode, this`dinodes, this`freeblock, this`owner, this`disk, this`blocks
      ensures freeinode == 3 + |names|
      ensures freeinode <= SLOTS ==> freeblock <= old(freeblock) + 2 && (!ok ==> old(freeblock) + 2 > FSSIZE)
      ensures ok ==> Valid() && inum == 2 + |names|
      ensures ok && freeinode <= SLOTS ==> Holds(dinodes, blocks, freeinode, names + [name], datas + [[]])
    {
      hide Built, Packed, Spells, PutSlot;
      OneRecord(|names| + 2);
      ghost var dinodes0 := dinodes;
      ok, inum := Ialloc(kind);
      if !ok { return; }
      ghost var dinodes1, blocks1 := dinodes, blocks;
      ok := Iappend(ROOTINO, Encode(inum, name));
      if !ok { return; }
      if freeinode <= SLOTS { HoldsEntry(dinodes0, dinodes1, blocks1, dinodes, blocks, names, datas, name); }
    }

    /** One file of the command line. False is a failed assertion or a block beyond the disk. */
    method AddFile(f: HostFile, ghost names: seq<string>, ghost datas: seq<seq<byte>>) returns (ok: bool)
      requires Valid() && IsPath(f.path) && freeinode == 2 + |names|
      requires freeinode <= SLOTS ==> Holds(dinodes, blocks, freeinode, names, datas)
      modifies this`freeinode, this`dinodes, this`freeblock, this`owner, this`disk, this`blocks
      ensures f.pieces == [] && 3 + |names| <= SLOTS ==> freeblock <= old(freeblock) + 2
      ensures f.pieces == [] && 3 + |names| <= SLOTS && !ok ==> ShortName(f.path).None? || old(freeblock) + 2 > FSSIZE
      ensures ok ==> ShortName(f.path).Some? && Valid() && freeinode == 3 + |names|
      ensures ok && freeinode <= SLOTS ==>
        Holds(dinodes, blocks, freeinode, names + [ShortName(f.path).value], datas + [Flat(f.pieces)])
    {
      hide Built, Packed, Holds, Spells;
      var name := ShortName(f.path);
      if name.None? { return false; }
      ShortOk(f.path);
      var inum;
      ok, inum := AddEntry(T_FILE, name.value, names, datas);
      if !ok { return; }
      ghost var names1 := names + [name.value];
      var k := 0;
      assert f.pieces[..0] == [];
      while k < |f.pieces|
        invariant 0 <= k <= |f.pieces| && ok && Valid() && freeinode == 3 + |names|
        invariant k == 0 && freeinode <= SLOTS ==> freeblock <= old(freeblock) + 2
        invariant freeinode <= SLOTS ==> Holds(dinodes, blocks, freeinode, names1, datas + [Flat(f.pieces[..k])])
      {
        ghost var dinodes0, blocks0 := dinodes, blocks;
        ok := Iappend(inum, f.pieces[k]);
        if !ok { return; }
        if freeinode <= SLOTS {
          HoldsPiece(dinodes0, blocks0, dinodes, blocks, freeinode, names1, datas, Flat(f.pieces[..k]), f.pieces[k]);
        }
        FlatNext(f.pieces, k);
        k := k + 1;
      }
      assert f.pieces[..k] == f.pieces;
    }

    method MakeRoot() returns (ok: bool)
      requires Valid() && freeinode == 1 && freeblock == NMETA
      modifies this`freeinode, this`dinodes, this`freeblock, this`owner, this`disk, this`blocks
      ensures ok && freeblock <= NMETA + 4 && freeinode == 2 && Valid() && Holds(dinodes, blocks, freeinode, [], [])
    {
      hide Built, Packed, InodeOk, Spells, PutSlot;
      var root;
      ok, root := Ialloc(T_DIR);
      BuiltSizes(dinodes, blocks, owner, freeinode, freeblock);
      ghost var dinodes1, blocks1 := dinodes, blocks;
      ok := Iappend(root, Encode(root, "."));
      ghost var dinodes2, blocks2 := dinodes, blocks;
      ok := Iappend(root, Encode(root, ".."));
      RootHolds(dinodes1, blocks1, dinodes2, blocks2, dinodes, blocks);
    }

    method AddFiles(files: seq<HostFile>) returns (ok: bool, ghost names: seq<string>)
      requires Valid() && freeinode == 2 && Holds(dinodes, blocks, freeinode, [], []) && freeblock <= NMETA + 4
      requires forall i :: 0 <= i < |files| ==> IsPath(files[i].path)
      modifies this`freeinode, this`dinodes, this`freeblock, this`owner, this`disk, this`blocks
      ensures Bare(files) && |files| + 2 <= SLOTS ==> ok && freeblock <= NMETA + 4 + 2 * |files|
      ensures ok ==> Valid() && Names(files) == Some(names) && |names| == |files| && freeinode == 2 + |files|
      ensures ok && freeinode <= SLOTS ==> Holds(dinodes, blocks, freeinode, names, Datas(files))
    {
      hide Built, Packed, Holds, Names, Spells;
      ok, names := true, [];
      var i := 0;
      assert files[..0] == [];
      NoNames();
      while i < |files|
        invariant 0 <= i <= |files| && ok && Valid() && Names(files[..i]) == Some(names) && |names| == i && freeinode == 2 + i
        invariant Bare(files) && freeinode <= SLOTS ==> freeblock <= NMETA + 4 + 2 * i
        invariant freeinode <= SLOTS ==> Holds(dinodes, blocks, freeinode, names, Datas(files[..i]))
      {
        NamesNext(files, i);
        ok := AddFile(files[i], names, Datas(files[..i]));
        if !ok { return; }
        names := names + [ShortName(files[i].path).value];
        i := i + 1;
      }
      assert files[..i] == files;
    }

    method FixRoot(ghost names: seq<string>, ghost datas: seq<seq<byte>>)
      requires Valid() && (freeinode <= SLOTS ==> Holds(dinodes, blocks, freeinode, names, datas))
      modifies this`disk, this`dinodes
      ensures Shape()
      ensures freeinode <= SLOTS ==> Packed(dinodes, blocks, owner, freeblock) && Final(dinodes, blocks, freeinode, names, datas)
                                     && Spells(disk, dinodes, blocks) && |dinodes| == SLOTS
      ensures freeinode <= SLOTS && |dinodes| == SLOTS ==>
        ((forall i: nat :: i < SLOTS ==> InodeOk(dinodes[i], blocks)) <==> (|names| + 2) % PER_BLOCK != 0)
      ensures freeinode <= SLOTS && (|names| + 2) % PER_BLOCK == 0 ==> RootHole(dinodes, blocks)
    {
      hide Built, Packed, Holds, Final, InodeOk, RootHole, Spells, PutSlot, Plain, FromWords, SlotWords;
      InodeAtPlain(disk, ROOTINO);
      var din := InodeAt(disk, ROOTINO);
      var off := (din.size / BSIZE + 1) * BSIZE % UINT_LIMIT;
      PlainSize(din, off);
      if freeinode <= SLOTS {
        SpellsAt(disk, dinodes, blocks, ROOTINO);
        HoldsRootSize(dinodes, blocks, freeinode, names, datas);
        Rounded(dinodes, blocks, owner, freeinode, freeblock, names, datas);
        SpellsWinode(disk, dinodes, blocks, ROOTINO, din.(size := off));
        dinodes := dinodes[ROOTINO := dinodes[ROOTINO].(size := off)];
      }
      var ok := Winode(ROOTINO, din.(size := off));
    }

    /** main(): the image of the given files, whenever mkfs exits normally. The kernel finds the files in a consistent
        file system exactly if their inodes fit the table and the records of the root, before its size is rounded, do
        not fill whole blocks. */
    method Build(files: seq<HostFile>) returns (ok: bool)
      requires Valid() && freeinode == 1 && freeblock == NMETA && forall i :: 0 <= i < |files| ==> IsPath(files[i].path)
      modifies this
      ensures Bare(files) && |files| + 2 <= SLOTS ==> ok
      ensures ok ==> Shape() && |bitmap| == BSIZE && Represents(bitmap, Below(freeblock)) && disk[BMAP_START] == Raw(bitmap)
      ensures ok ==> Names(files).Some? && freeinode == 2 + |files|
      ensures ok ==> (Good(View(disk, bitmap), Names(files).value, Datas(files))
                      <==> |files| + 2 <= NINODES && (|files| + 2) % PER_BLOCK != 0)
      ensures ok && |files| + 2 <= NINODES ==> Final(Inodes(disk), DataBlocks(disk), freeinode, Names(files).value, Datas(files))
      ensures ok && |files| + 2 <= NINODES ==> BlocksSound(SB, View(disk, bitmap), Below(freeblock), owner)
      ensures ok && |files| + 2 <= NINODES && (|files| + 2) % PER_BLOCK != 0 ==>
        Sound(SB, View(disk, bitmap), Below(freeblock), owner)
      ensures Bare(files) && |files| + 2 <= SLOTS ==> freeblock <= NMETA + 4 + 2 * |files|
      ensures ok && |files| + 2 <= NINODES && (|files| + 2) % PER_BLOCK == 0 ==> RootHole(Inodes(disk), DataBlocks(disk))
      ensures ok && |files| + 2 <= SLOTS ==> RootLists(Inodes(disk)[ROOTINO], DataBlocks(disk), Names(files).value)
      ensures ok && NINODES < |files| + 2 <= SLOTS && (exists j :: NINODES - 2 <= j < |files| && Datas(files)[j] != []) ==>
        !Consistent(SB, View(disk, bitmap))
    {
      hide Built, Packed, Holds, InodeOk, Final, RootHole, Represents, Names, Bare, Spells, Good, Sound, BlocksSound, Consistent, RootLists;
      ok := MakeRoot();
      ghost var names;
      ok, names := AddFiles(files);
      if !ok { return; }
      FixRoot(names, Datas(files));
      ghost var disk1 := disk;
      Balloc();
      if freeinode <= SLOTS {
        Finished(disk1, disk, bitmap, dinodes, blocks, owner, freeinode, freeblock, names, Datas(files));
      } else {
        TooMany(View(disk, bitmap), names, Datas(files));
      }
    }
  }

  lemma InodeAtPlain(disk: seq<Block>, i: nat)
    requires InodeBlock(i) < |disk|
    ensures Plain(InodeAt(disk, i))
  {
    hide Plain, FromWords;
    var b, k := disk[InodeBlock(i)], i % IPB;
    var w := SlotWords(b, k);
    forall t: nat | t < WORDS ensures w[t] < UINT_LIMIT { assert w[t] == Word(b, WORDS * k + t); }
    FromWordsPlain(w);
  }

  lemma PlainSize(din: Dinode, size: nat)
    requires Plain(din) && size < UINT_LIMIT
    ensures Plain(din.(size := size))
  {
  }

  lemma ChunkSizes(inodes0: seq<Dinode>, inodes1: seq<Dinode>, inodes: seq<Dinode>, blocks0: seq<Block>, blocks1: seq<Block>,
                   blocks: seq<Block>, owner1: Owner, owner: Owner, free1: nat, free: nat, i: nat, off: nat)
    requires i < |inodes0| && Packed(inodes1, blocks1, owner1, free1) && Packed(inodes, blocks, owner, free)
    requires Rest(inodes0, blocks0, inodes1, blocks1, i, off)
    ensures i < |inodes0| == |inodes1| == |inodes| && |blocks1| == |blocks| == FSSIZE
  {
  }

  /** One chunk of an append, after its block has been placed. */
  lemma Chunked(inodes0: seq<Dinode>, inodes1: seq<Dinode>, inodes: seq<Dinode>, blocks0: seq<Block>, blocks1: seq<Block>,
                blocks: seq<Block>, owner1: Owner, owner: Owner, free1: nat, free: nat, i: nat, fbn: nat, off: nat,
                data: seq<byte>, t: nat, n: nat)
    requires i < |inodes0| && Packed(inodes1, blocks1, owner1, free1) && Packed(inodes, blocks, owner, free)
    requires off == inodes0[i].size + t && fbn == off / BSIZE < MAXFILE && t < |data| && n == Chunk(|data| - t, off)
    requires Written(inodes0, blocks0, inodes1, blocks1, i, inodes0[i].size, data, t)
    requires Rest(inodes0, blocks0, inodes1, blocks1, i, off) && Trim(inodes1, blocks1, i, off)
    requires Grows(inodes1, blocks1, owner1, inodes, blocks, i) && Rest(inodes1, blocks1, inodes, blocks, i, 0)
    requires OneSlot(inodes1, blocks1, inodes, blocks, i, fbn) && Addr(inodes[i], blocks, fbn) != 0
    requires off + n <= MAXFILE * BSIZE
    ensures var x := Addr(inodes[i], blocks, fbn);
            && NMETA <= x < FSSIZE
            && var blocks2 := blocks[x := Patch(blocks[x], off - fbn * BSIZE, data[t..t + n])];
            && Packed(inodes, blocks2, owner, free)
            && Written(inodes0, blocks0, inodes, blocks2, i, inodes0[i].size, data, t + n)
            && Rest(inodes0, blocks0, inodes, blocks2, i, off + n) && Trim(inodes, blocks2, i, off + n)
  {
    hide Packed, Written, Grows, Rest, Trim, OneSlot, Addr, Refs;
    ChunkSizes(inodes0, inodes1, inodes, blocks0, blocks1, blocks, owner1, owner, free1, free, i, off);
    BlockThere(inodes, blocks, owner, free, i, fbn);
    RefsOf(inodes1, blocks1, owner1, free1, i);
    RefsOf(inodes, blocks, owner, free, i);
    RestLess(inodes1, blocks1, inodes, blocks, i, off);
    WrittenGrows(inodes0, blocks0, inodes1, blocks1, owner1, inodes, blocks, i, inodes0[i].size, data, t);
    var x := Addr(inodes[i], blocks, fbn);
    assert off - fbn * BSIZE == off % BSIZE;
    var b := Patch(blocks[x], off % BSIZE, data[t..t + n]);
    PackedPatch(inodes, blocks, owner, free, i, fbn, b);
    WrittenPatch(inodes0, blocks0, inodes, blocks, owner, i, inodes0[i].size, data, t, n);
    PatchRest(inodes, blocks, owner, i, fbn, off, data[t..t + n]);
    RestTrans(inodes0, blocks0, inodes1, blocks1, inodes, blocks, i, off, off);
    OneSlotTrans(inodes1, blocks1, inodes, blocks, inodes, blocks[x := b], i, fbn);
    TrimNext(inodes1, blocks1, inodes, blocks[x := b], i, fbn, off, n);
    RestTrans(inodes0, blocks0, inodes, blocks, inodes, blocks[x := b], i, off, off + n);
  }

  lemma HoldsRootSize(dinodes: seq<Dinode>, blocks: seq<Block>, freeinode: nat, names: seq<string>, datas: seq<seq<byte>>)
    requires Holds(dinodes, blocks, freeinode, names, datas)
    ensures |dinodes| == SLOTS && dinodes[ROOTINO].size <= RECORD * SLOTS && freeinode == 2 + |names| && |names| == |datas|
  {
  }

  /** A file without an inode in the table is not found. */
  lemma TooMany(s: Snapshot, names: seq<string>, datas: seq<seq<byte>>)
    requires |names| + 2 > NINODES && |s.dinodes| == NINODES
    ensures !Good(s, names, datas)
  {
    hide FileHas;
    var j: nat := NINODES - 2;
    assert !(2 + j < |s.dinodes|);
    assert |names| == |datas| ==> !FileIn(s, 2 + j, datas[j]);
  }

  /** What the kernel finds when the bitmap has been written over its block. */
  lemma Finished(disk1: seq<Block>, disk: seq<Block>, bitmap: seq<bv8>, dinodes: seq<Dinode>, blocks: seq<Block>, owner: Owner,
                 freeinode: nat, freeblock: nat, names: seq<string>, datas: seq<seq<byte>>)
    requires Spells(disk1, dinodes, blocks) && |bitmap| == BSIZE && |disk1| == FSSIZE && disk == disk1[BMAP_START := Raw(bitmap)]
    requires Packed(dinodes, blocks, owner, freeblock) && Final(dinodes, blocks, freeinode, names, datas) && |dinodes| == SLOTS
    requires Represents(bitmap, Below(freeblock)) && freeinode <= SLOTS
    requires (forall i: nat :: i < SLOTS ==> InodeOk(dinodes[i], blocks)) <==> (|names| + 2) % PER_BLOCK != 0
    requires (|names| + 2) % PER_BLOCK == 0 ==> RootHole(dinodes, blocks)
    ensures Good(View(disk, bitmap), names, datas) <==> |names| + 2 <= NINODES && (|names| + 2) % PER_BLOCK != 0
    ensures |names| + 2 <= NINODES ==> Final(Inodes(disk), DataBlocks(disk), freeinode, names, datas)
    ensures |names| + 2 <= NINODES ==> BlocksSound(SB, View(disk, bitmap), Below(freeblock), owner)
    ensures |names| + 2 <= NINODES && (|names| + 2) % PER_BLOCK != 0 ==> Sound(SB, View(disk, bitmap), Below(freeblock), owner)
    ensures |names| + 2 <= NINODES && (|names| + 2) % PER_BLOCK == 0 ==> RootHole(Inodes(disk), DataBlocks(disk))
    ensures RootLists(Inodes(disk)[ROOTINO], DataBlocks(disk), names)
    ensures (exists j :: NINODES - 2 <= j < |datas| && datas[j] != []) ==> !Consistent(SB, View(disk, bitmap))
  {
    Seen(disk1, disk, bitmap, dinodes, blocks);
    FinalRoot(dinodes, blocks, freeinode, names, datas);
    hide *;
    if |names| + 2 > NINODES {
      TooMany(View(disk, bitmap), names, datas);
      Orphans(dinodes, blocks, owner, freeblock, bitmap, freeinode, names, datas);
    } else {
      Fitting(dinodes, blocks, owner, freeblock, bitmap, freeinode, names, datas);
    }
  }

  lemma FinalRoot(dinodes: seq<Dinode>, blocks: seq<Block>, freeinode: nat, names: seq<string>, datas: seq<seq<byte>>)
    requires Final(dinodes, blocks, freeinode, names, datas)
    ensures RootLists(dinodes[ROOTINO], blocks, names) && |names| == |datas| && freeinode == 2 + |names|
  {
  }

  lemma Fitting(dinodes: seq<Dinode>, blocks: seq<Block>, owner: Owner, freeblock: nat, bitmap: seq<bv8>, freeinode: nat,
                names: seq<string>, datas: seq<seq<byte>>)
    requires Packed(dinodes, blocks, owner, freeblock) && Final(dinodes, blocks, freeinode, names, datas) && |dinodes| == SLOTS
    requires Represents(bitmap, Below(freeblock)) && |names| + 2 <= NINODES
    requires (forall i: nat :: i < SLOTS ==> InodeOk(dinodes[i], blocks)) <==> (|names| + 2) % PER_BLOCK != 0
    requires (|names| + 2) % PER_BLOCK == 0 ==> RootHole(dinodes, blocks)
    ensures var s := Snapshot(bitmap, dinodes[..NINODES], blocks);
            && (Good(s, names, datas) <==> (|names| + 2) % PER_BLOCK != 0)
            && Final(s.dinodes, blocks, freeinode, names, datas)
            && BlocksSound(SB, s, Below(freeblock), owner)
            && ((|names| + 2) % PER_BLOCK != 0 ==> Sound(SB, s, Below(freeblock), owner))
            && ((|names| + 2) % PER_BLOCK == 0 ==> RootHole(s.dinodes, blocks))
  {
    FirstPart(dinodes, blocks, freeinode, names, datas);
    hide Packed, Represents, InodeOk, RootHole, RootLists, Sound, FileHas;
    var s := Snapshot(bitmap, dinodes[..NINODES], blocks);
    PrefixSound(dinodes, blocks, owner, freeblock, bitmap, freeinode);
    if (|names| + 2) % PER_BLOCK != 0 {
      forall j: nat | j < |names| ensures FileIn(s, 2 + j, datas[j]) { assert FileHas(s.dinodes[2 + j], blocks, datas[j]); }
    } else {
      HoleNotOk(s.dinodes, s.blocks);
      NotSound(s);
    }
  }

  lemma Seen(disk1: seq<Block>, disk: seq<Block>, bitmap: seq<bv8>, dinodes: seq<Dinode>, blocks: seq<Block>)
    requires Spells(disk1, dinodes, blocks) && |bitmap| == BSIZE && disk == disk1[BMAP_START := Raw(bitmap)]
    ensures |disk| == FSSIZE && |dinodes| == SLOTS && DataBlocks(disk) == blocks && Inodes(disk) == dinodes[..NINODES]
  {
    hide SlotWords, FromWords, Raw;
    forall i: nat | i < NINODES ensures InodeAt(disk, i) == dinodes[i] { SpellsAt(disk1, dinodes, blocks, i); }
    assert DataBlocks(disk) == DataBlocks(disk1);
  }

  lemma FirstPart(dinodes: seq<Dinode>, blocks: seq<Block>, freeinode: nat, names: seq<string>, datas: seq<seq<byte>>)
    requires Final(dinodes, blocks, freeinode, names, datas) && freeinode <= NINODES <= |dinodes|
    ensures Final(dinodes[..NINODES], blocks, freeinode, names, datas)
    ensures RootHole(dinodes, blocks) ==> RootHole(dinodes[..NINODES], blocks)
  {
    hide RootLists, FileHas;
    forall j: nat | j < |names| ensures FileHas(dinodes[..NINODES][2 + j], blocks, datas[j]) {
      assert FileHas(dinodes[2 + j], blocks, datas[j]);
    }
  }

  lemma PrefixSound(dinodes: seq<Dinode>, blocks: seq<Block>, owner: Owner, freeblock: nat, bitmap: seq<bv8>, freeinode: nat)
    requires Packed(dinodes, blocks, owner, freeblock) && Represents(bitmap, Below(freeblock)) && freeinode <= NINODES
    requires forall i: nat :: i < |dinodes| && (i == 0 || i >= freeinode) ==> dinodes[i] == FREE_DINODE
    ensures var s := Snapshot(bitmap, dinodes[..NINODES], blocks);
            && BlocksSound(SB, s, Below(freeblock), owner)
            && ((forall i: nat :: i < SLOTS ==> InodeOk(dinodes[i], blocks)) ==> Sound(SB, s, Below(freeblock), owner))
  {
    hide InodeOk, Represents, Accounted;
    var p := dinodes[..NINODES];
    forall b | b in owner ensures owner[b].0 < NINODES && Slot(p[owner[b].0], blocks, owner[b].1) == b {
      assert Slot(dinodes[owner[b].0], blocks, owner[b].1) == b;
    }
    forall i, t | 0 <= i < NINODES && 0 <= t <= MAXFILE && Slot(p[i], blocks, t) != 0
      ensures Slot(p[i], blocks, t) in owner && owner[Slot(p[i], blocks, t)] == (i, t)
    {
      assert Slot(dinodes[i], blocks, t) != 0;
    }
  }

  lemma NotSound(s: Snapshot)
    requires ROOTINO < |s.dinodes| && !InodeOk(s.dinodes[ROOTINO], s.blocks)
    ensures !Consistent(SB, s)
  {
    hide InodeOk;
  }

  lemma Orphans(dinodes: seq<Dinode>, blocks: seq<Block>, owner: Owner, freeblock: nat, bitmap: seq<bv8>, freeinode: nat,
                names: seq<string>, datas: seq<seq<byte>>)
    requires Packed(dinodes, blocks, owner, freeblock) && Final(dinodes, blocks, freeinode, names, datas) && |dinodes| == SLOTS
    requires Represents(bitmap, Below(freeblock)) && NINODES < |names| + 2 <= SLOTS
    requires (forall i: nat :: i < SLOTS ==> InodeOk(dinodes[i], blocks)) <==> (|names| + 2) % PER_BLOCK != 0
    ensures (exists j :: NINODES - 2 <= j < |datas| && datas[j] != []) ==>
      !Consistent(SB, Snapshot(bitmap, dinodes[..NINODES], blocks))
  {
    hide Packed, Represents, InodeOk, RootLists, Sound, FileHas;
    var s := Snapshot(bitmap, dinodes[..NINODES], blocks);
    if j :| NINODES - 2 <= j < |datas| && datas[j] != [] {
      var i: nat := 2 + j;
      assert FileHas(dinodes[2 + j], blocks, datas[j]) && InodeOk(dinodes[i], blocks);
      forall used: seq<bool>, own: Owner ensures !Sound(SB, s, used, own) {
        Orphan(dinodes, blocks, owner, freeblock, bitmap, i, datas[j], used, own);
      }
    }
  }

  /** A block of an inode past the table is marked, and no inode of the table refers to it. */
  lemma Orphan(dinodes: seq<Dinode>, blocks: seq<Block>, owner: Owner, freeblock: nat, bitmap: seq<bv8>, i: nat, data: seq<byte>,
               used: seq<bool>, own: Owner)
    requires Packed(dinodes, blocks, owner, freeblock) && Represents(bitmap, Below(freeblock)) && NINODES <= i < |dinodes|
    requires FileHas(dinodes[i], blocks, data) && data != [] && InodeOk(dinodes[i], blocks)
    ensures !Sound(SB, Snapshot(bitmap, dinodes[..NINODES], blocks), used, own)
  {
    var b := Addr(dinodes[i], blocks, 0);
    FirstBlock(dinodes[i], blocks, data);
    assert Slot(dinodes[i], blocks, 0) == b && owner[b] == (i, 0) && b < freeblock;
    hide Slot, InodeOk, FileHas;
    assert Below(freeblock)[b] && Bit(bitmap, b);
  }

  lemma FirstBlock(ip: Dinode, blocks: seq<Block>, data: seq<byte>)
    requires FileHas(ip, blocks, data) && data != [] && InodeOk(ip, blocks)
    ensures Addr(ip, blocks, 0) != 0
  {
    assert |Contents(ip, blocks)| == ip.size > 0;
  }

  lemma NewPlain(kind: nat)
    requires kind < SHORT
    ensures Plain(FREE_DINODE.(kind := kind, nlink := 1)) && Plain(FREE_DINODE)
  {
  }

  lemma ZeroSpells(disk: seq<Block>, dinodes: seq<Dinode>, blocks: seq<Block>)
    requires |disk| == |blocks| == FSSIZE && |dinodes| == SLOTS
    requires forall b :: 0 <= b < FSSIZE ==> disk[b] == blocks[b] == Zeroes()
    requires forall i :: 0 <= i < SLOTS ==> dinodes[i] == FREE_DINODE
    ensures Spells(disk, dinodes, blocks)
  {
    NewPlain(0);
    forall i: nat | i < SLOTS ensures SpellsInode(disk, i, dinodes[i]) {
      var w, z := SlotWords(Zeroes(), i % IPB), DinodeWords(FREE_DINODE);
      forall t: nat | t < WORDS ensures w[t] == 0 == z[t] { assert Word(Zeroes(), WORDS * (i % IPB) + t) == 0; }
    }
    assert DataBlocks(disk) == blocks;
  }

  lemma RestLess(inodes0: seq<Dinode>, blocks0: seq<Block>, inodes: seq<Dinode>, blocks: seq<Block>, i: nat, from: nat)
    requires Rest(inodes0, blocks0, inodes, blocks, i, 0)
    ensures Rest(inodes0, blocks0, inodes, blocks, i, from)
  {
  }

  lemma PatchSlots(inodes: seq<Dinode>, blocks: seq<Block>, owner: Owner, i: nat, bn: nat, o: nat, data: seq<byte>)
    requires Refs(inodes, blocks, owner) && i < |inodes| && bn < MAXFILE && o + |data| <= BSIZE && Addr(inodes[i], blocks, bn) != 0
    ensures var x := Addr(inodes[i], blocks, bn);
            x < |blocks| && OneSlot(inodes, blocks, inodes, blocks[x := Patch(blocks[x], o, data)], i, bn)
  {
    var x := Addr(inodes[i], blocks, bn);
    assert owner[x] == (i, SlotOf(bn));
    SlotsSame(inodes, blocks, owner, x, Patch(blocks[x], o, data));
  }

  lemma PatchRest(inodes: seq<Dinode>, blocks: seq<Block>, owner: Owner, i: nat, bn: nat, off: nat, data: seq<byte>)
    requires Refs(inodes, blocks, owner) && i < |inodes| && bn < MAXFILE && bn == off / BSIZE && off % BSIZE + |data| <= BSIZE
    requires Addr(inodes[i], blocks, bn) != 0
    ensures var x := Addr(inodes[i], blocks, bn);
            && x < |blocks| && Rest(inodes, blocks, inodes, blocks[x := Patch(blocks[x], off % BSIZE, data)], i, off + |data|)
            && OneSlot(inodes, blocks, inodes, blocks[x := Patch(blocks[x], off % BSIZE, data)], i, bn)
  {
    PatchSlots(inodes, blocks, owner, i, bn, off % BSIZE, data);
    hide Refs, FileByte, Slot, OneSlot;
    PatchByte(inodes, blocks, owner, i, bn, off % BSIZE, data, i, 0);
    var x := Addr(inodes[i], blocks, bn);
    var blocks1 := blocks[x := Patch(blocks[x], off % BSIZE, data)];
    forall j: nat, p: nat | j < |inodes| && p < MAXFILE * BSIZE && (j != i || p >= off + |data|)
      ensures FileByte(inodes[j], blocks1, p) == FileByte(inodes[j], blocks, p)
    {
      PatchByte(inodes, blocks, owner, i, bn, off % BSIZE, data, j, p);
    }
  }

  lemma BlockThere(inodes: seq<Dinode>, blocks: seq<Block>, owner: Owner, freeblock: nat, i: nat, bn: nat)
    requires Packed(inodes, blocks, owner, freeblock) && i < |inodes| && bn < MAXFILE && Addr(inodes[i], blocks, bn) != 0
    ensures NMETA <= Addr(inodes[i], blocks, bn) < |blocks| == FSSIZE
  {
    PackedPatch(inodes, blocks, owner, freeblock, i, bn, Zeroes());
  }

  lemma TrimAt(inodes: seq<Dinode>, blocks: seq<Block>, i: nat)
    requires i < |inodes| && Trim(inodes, blocks, |inodes|, 0)
    ensures Trim(inodes, blocks, i, inodes[i].size)
  {
  }

  lemma NoneWritten(inodes: seq<Dinode>, blocks: seq<Block>, i: nat, data: seq<byte>)
    requires i < |inodes| && InodeOk(inodes[i], blocks)
    ensures Written(inodes, blocks, inodes, blocks, i, inodes[i].size, data, 0) && Rest(inodes, blocks, inodes, blocks, i, inodes[i].size)
  {
  }

  /** File i has grown by data at its end, and nothing else has changed. */
  ghost predicate Appended(inodes0: seq<Dinode>, blocks0: seq<Block>, inodes: seq<Dinode>, blocks: seq<Block>, i: nat, data: seq<byte>) {
    && |inodes0| == |inodes| && i < |inodes|
    && (forall j: nat :: j < |inodes| ==> inodes0[j].size <= MAXFILE * BSIZE && inodes[j].size <= MAXFILE * BSIZE)
    && inodes[i] == inodes0[i].(size := inodes[i].size, addrs := inodes[i].addrs)
    && Contents(inodes[i], blocks) == Contents(inodes0[i], blocks0) + data
    && (forall j: nat :: j < |inodes| && j != i ==>
          inodes[j] == inodes0[j] && Contents(inodes[j], blocks) == Contents(inodes0[j], blocks0))
  }

  lemma AppendDone(inodes0: seq<Dinode>, blocks0: seq<Block>, din: Dinode, blocks: seq<Block>, owner: Owner,
                   freeinode: nat, freeblock: nat, i: nat, data: seq<byte>)
    requires |inodes0| == SLOTS && 0 < i < freeinode <= SLOTS && Packed(inodes0[i := din], blocks, owner, freeblock)
    requires forall j: nat :: j < SLOTS ==> InodeOk(inodes0[j], blocks0)
    requires forall j: nat :: j < SLOTS ==> (inodes0[j].kind != 0 <==> 0 < j < freeinode)
    requires forall j: nat :: j < SLOTS && inodes0[j].kind == 0 ==> inodes0[j] == FREE_DINODE
    requires forall j: nat :: j < SLOTS ==> ZeroTail(inodes0[j], blocks0)
    requires Written(inodes0, blocks0, inodes0[i := din], blocks, i, inodes0[i].size, data, |data|)
    requires Rest(inodes0, blocks0, inodes0[i := din], blocks, i, inodes0[i].size + |data|)
    requires Trim(inodes0[i := din], blocks, i, inodes0[i].size + |data|)
    ensures var inodes := inodes0[i := din.(size := inodes0[i].size + |data|)];
            Built(inodes, blocks, owner, freeinode, freeblock) && Appended(inodes0, blocks0, inodes, blocks, i, data)
  {
    hide Written, InodeOk, Trim, Rest, Refs, Accounted, ZeroTail;
    var n, size := |data|, inodes0[i].size + |data|;
    var mid, inodes := inodes0[i := din], inodes0[i := din.(size := size)];
    AppendFiles(inodes0, blocks0, din, blocks, i, data);
    SizeKeepsRefs(mid, inodes, blocks, owner);
    forall j: nat | j < SLOTS ensures ZeroTail(inodes[j], blocks) { TailKept(inodes0, blocks0, mid, blocks, i, j, size); }
    TrimDone(mid, blocks, i, size);
    assert mid[i := mid[i].(size := size)] == inodes;
  }

  lemma AppendFiles(inodes0: seq<Dinode>, blocks0: seq<Block>, din: Dinode, blocks: seq<Block>, i: nat, data: seq<byte>)
    requires i < |inodes0| && inodes0[i].kind != 0 && forall j: nat :: j < |inodes0| ==> InodeOk(inodes0[j], blocks0)
    requires Written(inodes0, blocks0, inodes0[i := din], blocks, i, inodes0[i].size, data, |data|)
    ensures var inodes := inodes0[i := din.(size := inodes0[i].size + |data|)];
            && (forall j: nat :: j < |inodes| ==> InodeOk(inodes[j], blocks)) && Appended(inodes0, blocks0, inodes, blocks, i, data)
            && din == inodes0[i].(addrs := din.addrs)
  {
    var n := |data|;
    var mid := inodes0[i := din];
    assert mid[i] == inodes0[i].(addrs := din.addrs);
    WriteiFiles(inodes0, blocks0, mid, blocks, i, data, inodes0[i].size, n, n);
    hide Written, InodeOk;
    var inodes := inodes0[i := din.(size := inodes0[i].size + n)];
    assert mid[i := mid[i].(size := Max(inodes0[i].size, inodes0[i].size + n))] == inodes;
    SpliceEnd(inodes0[i], blocks0, data);
  }

  lemma TrimDone(inodes: seq<Dinode>, blocks: seq<Block>, i: nat, end: nat)
    requires i < |inodes| && Trim(inodes, blocks, i, end)
    ensures Trim(inodes[i := inodes[i].(size := end)], blocks, |inodes|, 0)
  {
    var inodes1 := inodes[i := inodes[i].(size := end)];
    forall j: nat, b: nat | j < |inodes| && b < MAXFILE ensures Addr(inodes1[j], blocks, b) == Addr(inodes[j], blocks, b) { }
  }

  lemma TailKept(inodes0: seq<Dinode>, blocks0: seq<Block>, inodes: seq<Dinode>, blocks: seq<Block>, i: nat, j: nat, size: nat)
    requires Rest(inodes0, blocks0, inodes, blocks, i, size) && i < |inodes| && j < |inodes| && ZeroTail(inodes0[j], blocks0)
    requires j == i ==> inodes0[i].size <= size
    requires j != i ==> inodes[j].size == inodes0[j].size
    ensures ZeroTail(if j == i then inodes[i].(size := size) else inodes[j], blocks)
  {
    hide FileByte;
    var ip := if j == i then inodes[i].(size := size) else inodes[j];
    forall p: nat | ip.size <= p < MAXFILE * BSIZE ensures FileByte(ip, blocks, p) == 0 {
      SameAddr(ip, inodes[j], blocks, p);
      assert FileByte(inodes[j], blocks, p) == FileByte(inodes0[j], blocks0, p);
    }
  }

  lemma SpliceEnd(ip: Dinode, blocks: seq<Block>, data: seq<byte>)
    requires ip.size <= MAXFILE * BSIZE
    ensures var c := Contents(ip, blocks);
            var r := Splice(c, ip.size, data[..|data|]);
            r == c + data && |r| == ip.size + |data| && r[..|r|] == r
  {
  }

  lemma RefsOf(inodes: seq<Dinode>, blocks: seq<Block>, owner: Owner, freeblock: nat, i: nat)
    requires Packed(inodes, blocks, owner, freeblock) && i < |inodes|
    ensures Refs(inodes, blocks, owner) && (inodes[i].addrs[NDIRECT] != 0 ==> inodes[i].addrs[NDIRECT] < |blocks|)
  {
    assert Slot(inodes[i], blocks, NDIRECT) == inodes[i].addrs[NDIRECT];
  }

  lemma GrowsSame(inodes: seq<Dinode>, blocks: seq<Block>, owner: Owner, i: nat, bn: nat)
    requires i < |inodes|
    ensures Grows(inodes, blocks, owner, inodes, blocks, i) && Rest(inodes, blocks, inodes, blocks, i, 0)
    ensures OneSlot(inodes, blocks, inodes, blocks, i, bn)
  {
  }

  lemma BuiltSize(dinodes: seq<Dinode>, blocks: seq<Block>, owner: Owner, freeinode: nat, freeblock: nat)
    requires Built(dinodes, blocks, owner, freeinode, freeblock)
    ensures |dinodes| == SLOTS
  {
  }

  lemma NewInode(dinodes: seq<Dinode>, blocks: seq<Block>, owner: Owner, freeinode: nat, freeblock: nat, kind: nat)
    requires Built(dinodes, blocks, owner, freeinode, freeblock) && freeinode < SLOTS && kind != 0
    ensures Built(dinodes[freeinode := FREE_DINODE.(kind := kind, nlink := 1)], blocks, owner, freeinode + 1, freeblock)
  {
    var dinodes1 := dinodes[freeinode := FREE_DINODE.(kind := kind, nlink := 1)];
    assert dinodes[freeinode] == FREE_DINODE;
    hide Refs, Accounted;
    SizeKeepsRefs(dinodes, dinodes1, blocks, owner);
    hide Slot;
    NewInodeOk(blocks, kind);
    forall j: nat, b: nat | j < SLOTS && b < MAXFILE ensures Addr(dinodes1[j], blocks, b) == Addr(dinodes[j], blocks, b) { }
  }

  lemma NewInodeOk(blocks: seq<Block>, kind: nat)
    requires kind != 0
    ensures var ip := FREE_DINODE.(kind := kind, nlink := 1);
            InodeOk(ip, blocks) && ZeroTail(ip, blocks)
  {
  }

  /** mkfs, and the kernel that mounts its image. When mkfs exits normally the mounted file system meets the invariant of
      all its operations exactly if the inodes fit the table and the root has no hole. */
  method MakeFs(files: seq<HostFile>) returns (ok: bool, fs: FileSystem?)
    requires forall i :: 0 <= i < |files| ==> IsPath(files[i].path)
    ensures ok ==> (fs != null <==> |files| + 2 <= NINODES && (|files| + 2) % PER_BLOCK != 0)
    ensures fs != null ==> ok && fresh(fs) && fs.Valid() && fs.sb == SB
    ensures fs != null ==> Names(files).Some? && Final(fs.dinodes, fs.blocks, 2 + |files|, Names(files).value, Datas(files))
    ensures Bare(files) && |files| + 2 <= SLOTS ==> ok
  {
    hide InodeOk, Final, Refs, Accounted, Represents, Good, Consistent, RootLists, RootHole;
    var image := new Image();
    ok := image.Build(files);
    if !ok || |files| + 2 > NINODES || (|files| + 2) % PER_BLOCK == 0 { return ok, null; }
    fs := new FileSystem(SB, image.bitmap, Inodes(image.disk), DataBlocks(image.disk), Below(image.freeblock), image.owner);
  }

  /** n empty files. */
  function Cats(n: nat): (files: seq<HostFile>)
    ensures |files| == n && Bare(files) && forall i :: 0 <= i < |files| ==> IsPath(files[i].path)
  {
    assert ShortName("user/_cat").Some? && IsPath("user/_cat");
    seq(n, i => HostFile("user/_cat", []))
  }

  lemma ListedSize(root: Dinode, blocks: seq<Block>, names: seq<string>)
    requires RootLists(root, blocks, names)
    ensures root.size == RoundedSize(|names| + 2)
  {
  }

  /** 62 files fill one block of the root with their records and the dots: the image has a hole. */
  method HoleImage() returns (image: Image)
    ensures |image.disk| == FSSIZE && !Consistent(SB, View(image.disk, image.bitmap))
    ensures RootHole(Inodes(image.disk), DataBlocks(image.disk)) && !InodeOk(Inodes(image.disk)[ROOTINO], DataBlocks(image.disk))
    ensures BlocksSound(SB, View(image.disk, image.bitmap), Below(image.freeblock), image.owner) && image.freeblock < FSSIZE
    ensures Inodes(image.disk)[ROOTINO].size == 2 * BSIZE
  {
    hide InodeOk, Final, Represents, Names, RootHole, Good, Sound, BlocksSound, Consistent, RootLists, Raw, Bare, Cats;
    var files := Cats(62);
    image := new Image();
    var ok := image.Build(files);
    NamesSize(files);
    ListedSize(Inodes(image.disk)[ROOTINO], DataBlocks(image.disk), Names(files).value);
    HoleNotOk(Inodes(image.disk), DataBlocks(image.disk));
    NotSound(View(image.disk, image.bitmap));
  }

  /** What the kernel does with the hole: the bmap() of readi() takes a free block for it and hands it to log_write().
      fileread() begins no transaction for that. */
  method ReadHole() returns (fs: FileSystem, bn: nat, addr: nat)
    ensures bn < NDIRECT && fs.sb == SB && ROOTINO < |fs.inodes| && bn * BSIZE < fs.inodes[ROOTINO].size
    ensures addr != 0 && addr == Addr(fs.inodes[ROOTINO], fs.blocks, bn) && addr in fs.logged
  {
    hide InodeOk, BlocksSound, Consistent, Slot, Refs, Accounted, Represents, Covered;
    var image := HoleImage();
    fs := new FileSystem(SB, image.bitmap, Inodes(image.disk), DataBlocks(image.disk), Below(image.freeblock), image.owner);
    bn := fs.inodes[ROOTINO].size / BSIZE - 1;
    assert bn == 1 && !fs.used[image.freeblock];
    addr := fs.Bmap(ROOTINO, bn);
  }

  /** 207 empty files, and mkfs exits normally: the root names inode 208, which is not in the table, and where that inode
      was written the bitmap stands. */
  method OverrunImage() returns (image: Image, ghost names: seq<string>)
    ensures |image.disk| == FSSIZE && |names| == 207 && RootLists(Inodes(image.disk)[ROOTINO], DataBlocks(image.disk), names)
    ensures RootRecords(names)[208].inum == 208 >= SB.ninodes && InodeBlock(208) == SB.bmapstart
    ensures InodeAt(image.disk, 208).kind == 0xFFFF
  {
    hide InodeOk, Final, Represents, Names, RootHole, Good, Sound, BlocksSound, Consistent, RootLists, Raw, Bare, Cats, RootRecords;
    var files := Cats(207);
    image := new Image();
    var ok := image.Build(files);
    names := Names(files).value;
    NamesSize(files);
    RecordAt(names, 206);
    BitsOver(image.disk, image.bitmap, image.freeblock);
  }

  lemma {:induction false} NamesSize(files: seq<HostFile>)
    requires Names(files).Some?
    ensures |Names(files).value| == |files|
  {
    if files != [] { NamesSize(files[..|files| - 1]); }
  }

  lemma RecordAt(names: seq<string>, j: nat)
    requires j < |names|
    ensures RootRecords(names)[2 + j] == Dirs.Dirent(2 + j, names[j])
  {
  }

  /** What stands where inode 208 was. */
  lemma BitsOver(disk: seq<Block>, bitmap: seq<bv8>, freeblock: nat)
    requires |disk| == FSSIZE && |bitmap| == BSIZE && disk[BMAP_START] == Raw(bitmap)
    requires Represents(bitmap, Below(freeblock)) && NMETA <= freeblock <= FSSIZE
    ensures InodeAt(disk, 208).kind == 0xFFFF
  {
    AllBits(bitmap, freeblock, 0);
    AllBits(bitmap, freeblock, 1);
    assert Raw(bitmap)[0] == 255 && Raw(bitmap)[1] == 255;
    assert Word(disk[BMAP_START], 0) % SHORT == 0xFFFF;
  }

  lemma AllBits(bitmap: seq<bv8>, freeblock: nat, k: nat)
    requires |bitmap| == BSIZE && Represents(bitmap, Below(freeblock)) && 8 * k + 8 <= freeblock <= FSSIZE && k < BSIZE
    ensures bitmap[k] == 255
  {
    assert Bit(bitmap, 8 * k) && Bit(bitmap, 8 * k + 1) && Bit(bitmap, 8 * k + 2) && Bit(bitmap, 8 * k + 3);
    assert Bit(bitmap, 8 * k + 4) && Bit(bitmap, 8 * k + 5) && Bit(bitmap, 8 * k + 6) && Bit(bitmap, 8 * k + 7);
  }

  lemma HoleNotOk(dinodes: seq<Dinode>, blocks: seq<Block>)
    requires RootHole(dinodes, blocks)
    ensures !InodeOk(dinodes[ROOTINO], blocks)
  {
    var size := dinodes[ROOTINO].size;
    var last := size / BSIZE - 1;
    assert last < MAXFILE && last * BSIZE < size;
  }
}
