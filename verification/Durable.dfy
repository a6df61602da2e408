/** The file system of Fs.dfy on the disk of LogSpec.dfy: what each block holds, and that the file system is
    consistent after any run of its transactions with crashes at any disk write. */
module Durable {
  import opened Bits
  import opened Dinodes
  import opened FsSpec
  import opened Fs
  import L = LogSpec
  import Mkfs

  /** The order of the areas that mkfs lays out: log, inode blocks, bitmap, data, and each large enough. */
  predicate LaidOut(sb: Superblock, l: L.Layout) {
    && l.start + l.logBlocks < sb.inodestart <= sb.bmapstart <= sb.nmeta <= sb.size
    && sb.ninodes <= IPB * (sb.bmapstart - sb.inodestart) && sb.size <= BPB * (sb.nmeta - sb.bmapstart)
  }

  predicate Stored(sb: Superblock, x: nat) { sb.inodestart <= x < sb.size }

  function InodeWord(dinodes: seq<Dinode>, k: nat, w: nat): nat {
    var i := IPB * k + w / 16;
    if i < |dinodes| then DinodeWords(dinodes[i])[w % 16] else 0
  }

  function BitmapByte(bitmap: seq<bv8>, i: nat): nat { if i < |bitmap| then bitmap[i] as nat else 0 }

  /** Four bytes of a block as a little-endian word. */
  function FourBytes(a: nat, b: nat, c: nat, d: nat): nat { a + 0x100 * b + 0x1_0000 * c + 0x100_0000 * d }

  function BitmapWord(bitmap: seq<bv8>, k: nat, w: nat): nat {
    var i := BSIZE * k + 4 * w;
    FourBytes(BitmapByte(bitmap, i), BitmapByte(bitmap, i + 1), BitmapByte(bitmap, i + 2), BitmapByte(bitmap, i + 3))
  }

  function DataWord(b: Block, w: nat): nat
    requires w < L.WORDS
  {
    FourBytes(b[4 * w], b[4 * w + 1], b[4 * w + 2], b[4 * w + 3])
  }

  /** Word w of block x. */
  function WordAt(sb: Superblock, s: Snapshot, x: nat, w: nat): nat
    requires Stored(sb, x) && w < L.WORDS
  {
    if x < sb.bmapstart then InodeWord(s.dinodes, x - sb.inodestart, w)
    else if x < sb.nmeta then BitmapWord(s.bitmap, x - sb.bmapstart, w)
    else if x < |s.blocks| then DataWord(s.blocks[x], w)
    else 0
  }

  function Content(sb: Superblock, s: Snapshot, x: nat): (b: L.Block)
    requires Stored(sb, x)
  {
    seq<nat>(L.WORDS, w requires 0 <= w < L.WORDS => WordAt(sb, s, x, w))
  }

  /** Disk d holds s. */
  ghost predicate Stores(sb: Superblock, d: L.Disk, s: Snapshot) {
    |d| == sb.size && forall x: nat :: x < |d| && Stored(sb, x) ==> d[x] == Content(sb, s, x)
  }

  /** A block that a transaction has not logged holds what it held. */
  lemma Unlogged(sb: Superblock, s: Snapshot, s1: Snapshot, logged: set<nat>, x: nat)
    requires Covered(sb, s, s1.bitmap, s1.dinodes, s1.blocks, logged) && Stored(sb, x) && x !in logged
    ensures Content(sb, s1, x) == Content(sb, s, x)
  {
    hide Covered;
    forall w: nat | w < L.WORDS ensures WordAt(sb, s1, x, w) == WordAt(sb, s, x, w) {
      UnloggedWord(sb, s, s1, logged, x, w);
    }
    hide WordAt;
    assert Content(sb, s1, x) == Content(sb, s, x);
  }

  lemma UnloggedWord(sb: Superblock, s: Snapshot, s1: Snapshot, logged: set<nat>, x: nat, w: nat)
    requires Covered(sb, s, s1.bitmap, s1.dinodes, s1.blocks, logged) && Stored(sb, x) && x !in logged && w < L.WORDS
    ensures WordAt(sb, s1, x, w) == WordAt(sb, s, x, w)
  {
    hide InodeWord, BitmapByte, FourBytes;
    if x < sb.bmapstart {
      UnloggedInode(sb, s, s1, logged, x, w);
    } else if x < sb.nmeta {
      UnloggedByte(sb, s, s1, logged, x, 4 * w);
      UnloggedByte(sb, s, s1, logged, x, 4 * w + 1);
      UnloggedByte(sb, s, s1, logged, x, 4 * w + 2);
      UnloggedByte(sb, s, s1, logged, x, 4 * w + 3);
    }
  }

  lemma UnloggedInode(sb: Superblock, s: Snapshot, s1: Snapshot, logged: set<nat>, x: nat, w: nat)
    requires Covered(sb, s, s1.bitmap, s1.dinodes, s1.blocks, logged) && sb.inodestart <= x && x !in logged && w < L.WORDS
    ensures InodeWord(s1.dinodes, x - sb.inodestart, w) == InodeWord(s.dinodes, x - sb.inodestart, w)
  {
    var k := x - sb.inodestart;
    var i := IPB * k + w / 16;
    assert i / IPB == k;
    assert Iblock(sb, i) == x;
  }

  lemma UnloggedByte(sb: Superblock, s: Snapshot, s1: Snapshot, logged: set<nat>, x: nat, j: nat)
    requires Covered(sb, s, s1.bitmap, s1.dinodes, s1.blocks, logged) && sb.bmapstart <= x && x !in logged && j < BSIZE
    ensures BitmapByte(s1.bitmap, BSIZE * (x - sb.bmapstart) + j) == BitmapByte(s.bitmap, BSIZE * (x - sb.bmapstart) + j)
  {
    var k := x - sb.bmapstart;
    var i := BSIZE * k + j;
    assert 8 * i / BPB == k;
    assert Bblock(sb, 8 * i) == x;
  }

  /** The transaction that commits a change to s1: each logged block once, with its new contents. */
  ghost predicate TxnFor(sb: Superblock, s1: Snapshot, logged: set<nat>, e: L.Event) {
    && |e.data| == |e.dsts| && (forall x :: x in logged <==> x in e.dsts)
    && forall k :: 0 <= k < |e.dsts| && Stored(sb, e.dsts[k]) ==> e.data[k] == Content(sb, s1, e.dsts[k])
  }

  /** Applied as a whole, the transaction takes a disk that holds s to one that holds s1. */
  lemma TxnStores(sb: Superblock, d: L.Disk, s: Snapshot, s1: Snapshot, logged: set<nat>, e: L.Event)
    requires Stores(sb, d, s) && Covered(sb, s, s1.bitmap, s1.dinodes, s1.blocks, logged) && TxnFor(sb, s1, logged, e)
    requires forall i :: 0 <= i < |e.dsts| ==> e.dsts[i] < |d|
    ensures Stores(sb, L.NewHome(d, e.dsts, e.data), s1)
  {
    hide Covered, Content;
    forall x: nat | x < |d| && Stored(sb, x) ensures L.NewHome(d, e.dsts, e.data)[x] == Content(sb, s1, x) {
      L.ApplyAt(d, e.dsts, e.data, |e.dsts|, x);
      var k := L.LastTo(e.dsts, |e.dsts|, x);
      if k < 0 {
        assert x !in e.dsts;
        Unlogged(sb, s, s1, logged, x);
      }
    }
  }

  /** What is stored is in home blocks. */
  lemma StoresHome(sb: Superblock, l: L.Layout, a: L.Disk, b: L.Disk, s: Snapshot)
    requires LaidOut(sb, l) && L.SameHome(l, a, b) && Stores(sb, b, s)
    ensures Stores(sb, a, s)
  {
    hide Content;
  }

  /** Between operations a transaction so far goes from its start to a consistent file system, and has logged all
      it changed. */
  lemma OpenTransaction(fs: FileSystem)
    requires fs.Valid()
    ensures Consistent(fs.sb, Snapshot(fs.bitmap, fs.dinodes, fs.blocks))
    ensures Covered(fs.sb, fs.start, fs.bitmap, fs.dinodes, fs.blocks, fs.logged)
  {
    assert Sound(fs.sb, Snapshot(fs.bitmap, fs.dinodes, fs.blocks), fs.used, fs.owner);
  }

  /** A transaction of file system operations: where it leads and what it logs. */
  datatype Op = Op(after: Snapshot, logged: set<nat>)

  /** The commit never reached its header write. */
  predicate Lost(e: L.Event) { e.Crashed? && e.at <= |e.dsts| }

  /** Each event is the commit, perhaps cut off, of the next transaction, which starts from what the disk holds. */
  ghost predicate FsRun(sb: Superblock, s: Snapshot, es: seq<L.Event>, ops: seq<Op>)
    decreases es
  {
    |ops| == |es| && (es != [] ==>
      && Consistent(sb, ops[0].after) && Storable(sb, ops[0].after)
      && Covered(sb, s, ops[0].after.bitmap, ops[0].after.dinodes, ops[0].after.blocks, ops[0].logged)
      && TxnFor(sb, ops[0].after, ops[0].logged, es[0])
      && FsRun(sb, if Lost(es[0]) then s else ops[0].after, es[1..], ops[1..]))
  }

  /** The file system made of the transactions that were not lost. */
  ghost function FsAfter(sb: Superblock, s: Snapshot, es: seq<L.Event>, ops: seq<Op>): Snapshot
    requires FsRun(sb, s, es, ops)
    decreases es
  {
    if es == [] then s else FsAfter(sb, if Lost(es[0]) then s else ops[0].after, es[1..], ops[1..])
  }

  /** After any run of transactions with crashes at any disk write, of commits and of recoveries, the disk holds the
      file system of the committed transactions, and it is consistent. */
  lemma {:induction false} FsSurvives(sb: Superblock, l: L.Layout, d: L.Disk, s: Snapshot, es: seq<L.Event>, ops: seq<Op>)
    requires LaidOut(sb, l) && L.RunOk(l, d, es) && Stores(sb, d, s) && Consistent(sb, s) && Storable(sb, s) && FsRun(sb, s, es, ops)
    ensures Stores(sb, L.Run(l, d, es), FsAfter(sb, s, es, ops))
    ensures Consistent(sb, FsAfter(sb, s, es, ops)) && Storable(sb, FsAfter(sb, s, es, ops))
    decreases es
  {
    hide Stores, Covered, TxnFor, Consistent, Storable;
    if es != [] {
      var e, op := es[0], ops[0];
      var s1 := if Lost(e) then s else op.after;
      OneEvent(sb, l, d, s, e, op);
      FsSurvives(sb, l, L.AfterEvent(l, d, e), s1, es[1..], ops[1..]);
    }
  }

  lemma OneEvent(sb: Superblock, l: L.Layout, d: L.Disk, s: Snapshot, e: L.Event, op: Op)
    requires LaidOut(sb, l) && L.EventOk(l, d, e) && Stores(sb, d, s)
    requires Covered(sb, s, op.after.bitmap, op.after.dinodes, op.after.blocks, op.logged)
    requires TxnFor(sb, op.after, op.logged, e)
    ensures Stores(sb, L.AfterEvent(l, d, e), if Lost(e) then s else op.after)
  {
    hide Stores, Covered, TxnFor;
    L.AfterEventAtomic(l, d, e);
    TxnStores(sb, d, s, op.after, op.logged, e);
    StoresHome(sb, l, L.AfterEvent(l, d, e), L.AtomicEvent(d, e), if Lost(e) then s else op.after);
  }

  /** Byte j of a word. */
  function ByteOf(w: nat, j: nat): byte {
    if j == 0 then w % 0x100 else if j == 1 then w / 0x100 % 0x100 else if j == 2 then w / 0x1_0000 % 0x100 else w / 0x100_0000 % 0x100
  }

  lemma FourBack(a: byte, b: byte, c: byte, d: byte)
    ensures var w := FourBytes(a, b, c, d);
            ByteOf(w, 0) == a && ByteOf(w, 1) == b && ByteOf(w, 2) == c && ByteOf(w, 3) == d
  {
    var w := FourBytes(a, b, c, d);
    assert w / 0x100 == b + 0x100 * c + 0x1_0000 * d;
    assert w / 0x1_0000 == c + 0x100 * d;
    assert w / 0x100_0000 == d;
  }

  /** The bytes of a block of words. */
  function Bytes(b: L.Block): (r: Block)
    ensures forall k :: 0 <= k < BSIZE ==> r[k] == ByteOf(b[k / 4], k % 4)
  {
    seq<byte>(BSIZE, k requires 0 <= k < BSIZE => ByteOf(b[k / 4], k % 4))
  }

  function InodeFrom(sb: Superblock, d: L.Disk, i: nat): Dinode
    requires Iblock(sb, i) < |d|
  {
    FromWords(d[Iblock(sb, i)][WORDS * (i % IPB)..WORDS * (i % IPB) + WORDS])
  }

  function BitmapFrom(sb: Superblock, d: L.Disk, i: nat): bv8
    requires sb.bmapstart + i / BSIZE < |d|
  {
    Bytes(d[sb.bmapstart + i / BSIZE])[i % BSIZE] as bv8
  }

  function BlockFrom(sb: Superblock, d: L.Disk, x: nat): Block
    requires x < |d|
  {
    if x < sb.nmeta then Zeroes() else Bytes(d[x])
  }

  /** The file system that a disk holds. */
  function Decode(sb: Superblock, l: L.Layout, d: L.Disk): Snapshot
    requires LaidOut(sb, l) && |d| == sb.size
  {
    Snapshot(seq(BSIZE * (sb.nmeta - sb.bmapstart), i requires 0 <= i < BSIZE * (sb.nmeta - sb.bmapstart) => BitmapFrom(sb, d, i)),
             seq(sb.ninodes, i requires 0 <= i < sb.ninodes => InodeFrom(sb, d, i)),
             seq<Block>(sb.size, x requires 0 <= x < sb.size => BlockFrom(sb, d, x)))
  }

  /** The inodes have the C types of their fields, and the bitmap its blocks. */
  ghost predicate Storable(sb: Superblock, s: Snapshot) {
    && |s.bitmap| == BSIZE * (sb.nmeta - sb.bmapstart) && |s.dinodes| == sb.ninodes && |s.blocks| == sb.size
    && forall i :: 0 <= i < |s.dinodes| ==> Plain(s.dinodes[i])
  }

  /** Equal but for the blocks before the data, which are not part of a file system. */
  ghost predicate Same(sb: Superblock, s: Snapshot, t: Snapshot) {
    && t.bitmap == s.bitmap && t.dinodes == s.dinodes && |t.blocks| == |s.blocks|
    && forall x :: sb.nmeta <= x < |s.blocks| ==> t.blocks[x] == s.blocks[x]
  }

  /** The words of a disk determine the file system. */
  lemma DecodeStores(sb: Superblock, l: L.Layout, d: L.Disk, s: Snapshot)
    requires LaidOut(sb, l) && Stores(sb, d, s) && Storable(sb, s)
    ensures Same(sb, s, Decode(sb, l, d))
  {
    hide Content, Bytes, Plain, InodeFrom, BitmapFrom;
    var t := Decode(sb, l, d);
    forall i: nat | i < sb.ninodes ensures t.dinodes[i] == s.dinodes[i] { InodeBack(sb, l, d, s, i); }
    forall i: nat | i < |s.bitmap| ensures t.bitmap[i] == s.bitmap[i] { BitmapBack(sb, l, d, s, i); }
    forall x: nat | sb.nmeta <= x < sb.size ensures t.blocks[x] == s.blocks[x] { BlockBack(sb, l, d, s, x); }
  }

  lemma InodeBack(sb: Superblock, l: L.Layout, d: L.Disk, s: Snapshot, i: nat)
    requires LaidOut(sb, l) && Stores(sb, d, s) && Storable(sb, s) && i < sb.ninodes
    ensures InodeFrom(sb, d, i) == s.dinodes[i]
  {
    hide DinodeWords, FromWords, Plain;
    var x, k := Iblock(sb, i), i / IPB;
    assert d[x] == Content(sb, s, x);
    var w := d[x][WORDS * (i % IPB)..WORDS * (i % IPB) + WORDS];
    forall t: nat | t < WORDS ensures w[t] == DinodeWords(s.dinodes[i])[t] {
      var p := WORDS * (i % IPB) + t;
      assert p / 16 == i % IPB && p % 16 == t && IPB * k + p / 16 == i;
      assert w[t] == WordAt(sb, s, x, p) == InodeWord(s.dinodes, k, p);
    }
    assert w == DinodeWords(s.dinodes[i]);
    DinodeRoundTrip(s.dinodes[i]);
  }

  lemma BlockBack(sb: Superblock, l: L.Layout, d: L.Disk, s: Snapshot, x: nat)
    requires LaidOut(sb, l) && Stores(sb, d, s) && |s.blocks| == sb.size && sb.nmeta <= x < sb.size
    ensures Bytes(d[x]) == s.blocks[x]
  {
    hide FourBytes, ByteOf;
    assert d[x] == Content(sb, s, x);
    var b, r := s.blocks[x], Bytes(d[x]);
    forall k: nat | k < BSIZE ensures r[k] == b[k] {
      var w := k / 4;
      assert d[x][w] == DataWord(b, w) && k == 4 * w + k % 4;
      FourBack(b[4 * w], b[4 * w + 1], b[4 * w + 2], b[4 * w + 3]);
    }
  }

  lemma BitmapBack(sb: Superblock, l: L.Layout, d: L.Disk, s: Snapshot, i: nat)
    requires LaidOut(sb, l) && Stores(sb, d, s) && Storable(sb, s) && i < |s.bitmap|
    ensures sb.bmapstart + i / BSIZE < |d| && BitmapFrom(sb, d, i) == s.bitmap[i]
  {
    hide FourBytes, ByteOf, Plain;
    var k, j := i / BSIZE, i % BSIZE;
    var x, w := sb.bmapstart + k, j / 4;
    assert d[x] == Content(sb, s, x);
    assert d[x][w] == BitmapWord(s.bitmap, k, w) && j == 4 * w + j % 4 && i == BSIZE * k + 4 * w + j % 4;
    var p := BSIZE * k + 4 * w;
    FourBack(BitmapByte(s.bitmap, p), BitmapByte(s.bitmap, p + 1), BitmapByte(s.bitmap, p + 2), BitmapByte(s.bitmap, p + 3));
    assert Bytes(d[x])[j] == BitmapByte(s.bitmap, i);
  }

  /** What counts of a file system is in its inodes, its bitmap and the data blocks. */
  lemma SameSound(sb: Superblock, s: Snapshot, t: Snapshot, used: seq<bool>, owner: Owner)
    requires Sound(sb, s, used, owner) && Same(sb, s, t)
    ensures Sound(sb, t, used, owner)
  {
    forall i, k | 0 <= i < |s.dinodes| && 0 <= k <= MAXFILE ensures Slot(t.dinodes[i], t.blocks, k) == Slot(s.dinodes[i], s.blocks, k) {
      assert Slot(s.dinodes[i], s.blocks, NDIRECT) == s.dinodes[i].addrs[NDIRECT];
    }
    hide Slot;
    forall i | 0 <= i < |t.dinodes| ensures InodeOk(t.dinodes[i], t.blocks) {
      assert InodeOk(s.dinodes[i], s.blocks);
      assert forall bn: nat :: bn < MAXFILE ==> Addr(t.dinodes[i], t.blocks, bn) == Addr(s.dinodes[i], s.blocks, bn);
    }
  }

  /** The kernel mounts what it finds on the disk: the file system s that the disk holds. */
  method Mount(sb: Superblock, l: L.Layout, d: L.Disk, ghost s: Snapshot) returns (fs: FileSystem)
    requires LaidOut(sb, l) && Stores(sb, d, s) && Storable(sb, s) && Consistent(sb, s)
    ensures fresh(fs) && fs.Valid() && fs.sb == sb && Same(sb, s, Snapshot(fs.bitmap, fs.dinodes, fs.blocks))
  {
    hide Refs, Accounted, Represents, InodeOk, Storable, LaidOut, Same, Content;
    var t := Decode(sb, l, d);
    DecodeStores(sb, l, d, s);
    ghost var used: seq<bool>, owner: Owner :| Sound(sb, s, used, owner);
    SameSound(sb, s, t, used, owner);
    fs := new FileSystem(sb, t.bitmap, t.dinodes, t.blocks, used, owner);
  }

  /** After any such run, recovery and mounting give the file system of the committed transactions. */
  method Reboot(sb: Superblock, l: L.Layout, d: L.Disk, ghost d0: L.Disk, ghost s: Snapshot, ghost es: seq<L.Event>, ghost ops: seq<Op>)
    returns (fs: FileSystem)
    requires LaidOut(sb, l) && L.RunOk(l, d0, es) && Stores(sb, d0, s) && Consistent(sb, s) && Storable(sb, s) && FsRun(sb, s, es, ops)
    requires d == L.Run(l, d0, es)
    ensures fresh(fs) && fs.Valid() && fs.sb == sb
    ensures Same(sb, FsAfter(sb, s, es, ops), Snapshot(fs.bitmap, fs.dinodes, fs.blocks))
  {
    hide *;
    FsSurvives(sb, l, d0, s, es, ops);
    fs := Mount(sb, l, d, FsAfter(sb, s, es, ops));
  }

  /** The disk that mkfs writes for s: zeroes in the log. */
  function DiskOf(sb: Superblock, s: Snapshot): (d: L.Disk) {
    seq<L.Block>(sb.size, x requires 0 <= x => if Stored(sb, x) then Content(sb, s, x) else seq<nat>(L.WORDS, w => 0))
  }

  /** Such a disk is a good start: the areas are in order, the log is empty, and the file system is there. */
  lemma NewDisk(s: Snapshot)
    ensures var l, d := L.Layout(2, Mkfs.NLOG - 1), DiskOf(Mkfs.SB, s);
            LaidOut(Mkfs.SB, l) && Stores(Mkfs.SB, d, s) && L.RunOk(l, d, [])
  {
    hide Content;
    var d := DiskOf(Mkfs.SB, s);
    assert d[2] == seq<nat>(L.WORDS, w => 0);
  }
}
