/** Inodes, block references and file contents of kernel/fs.c, as functions of the inode table and
    the block contents. Fs.dfy holds the operations that change them. */
module FsSpec {
  const BSIZE: nat := 1024
  const NDIRECT: nat := 12
  const NINDIRECT: nat := 256             // BSIZE / sizeof(uint)
  const MAXFILE: nat := 268               // NDIRECT + NINDIRECT
  const BPB: nat := 8192                  // bitmap bits per block
  const IPB: nat := 16                    // inodes per block
  const UINT_LIMIT: nat := 0x1_0000_0000

  type byte = x: nat | x < 256
  type Block = b: seq<byte> | |b| == BSIZE witness seq(BSIZE, i => 0)
  type Addrs = a: seq<nat> | |a| == NDIRECT + 1 witness seq(NDIRECT + 1, i => 0)

  /** A zeroed block. */
  function Zeroes(): (b: Block)
    ensures forall i :: 0 <= i < BSIZE ==> b[i] == 0
  {
    seq(BSIZE, i => 0)
  }

  const NO_ADDRS: Addrs := [0, 0, 0, 0, 0, 0, 0, 0, 0, 0, 0, 0, 0]

  /** struct dinode; kind is the type field, 0 for a free inode. */
  datatype Dinode = Dinode(kind: nat, major: int, minor: int, nlink: int, size: nat, addrs: Addrs)

  const FREE_DINODE := Dinode(0, 0, 0, 0, 0, NO_ADDRS)

  /** Entry e of an indirect block: a little-endian 32-bit block number. */
  function Word(b: Block, e: nat): nat
    requires e < NINDIRECT
  {
    var x0: nat, x1: nat, x2: nat, x3: nat := b[4 * e], b[4 * e + 1], b[4 * e + 2], b[4 * e + 3];
    x0 + 256 * x1 + 65536 * x2 + 16777216 * x3
  }

  function PutWord(b: Block, e: nat, w: nat): Block
    requires e < NINDIRECT && w < UINT_LIMIT
  {
    var w1 := w / 256;
    var w2 := w1 / 256;
    b[4 * e := w % 256][4 * e + 1 := w1 % 256][4 * e + 2 := w2 % 256][4 * e + 3 := w2 / 256]
  }

  lemma WordPut(b: Block, e: nat, w: nat, f: nat)
    requires e < NINDIRECT && f < NINDIRECT && w < UINT_LIMIT
    ensures Word(PutWord(b, e, w), f) == if f == e then w else Word(b, f)
  {
    var w1 := w / 256;
    var w2 := w1 / 256;
    assert w == 256 * w1 + w % 256 && w1 == 256 * w2 + w1 % 256 && w2 == 256 * (w2 / 256) + w2 % 256;
    var r := PutWord(b, e, w);
    assert f != e ==> r[4 * f] == b[4 * f] && r[4 * f + 1] == b[4 * f + 1]
                      && r[4 * f + 2] == b[4 * f + 2] && r[4 * f + 3] == b[4 * f + 3];
  }

  /** The references of an inode, in order: direct blocks, the indirect block, and the entries of the
      indirect block. Zero means no block. */
  function Slot(ip: Dinode, blocks: seq<Block>, s: nat): nat
    requires s <= MAXFILE
  {
    if s <= NDIRECT then ip.addrs[s]
    else if 0 < ip.addrs[NDIRECT] < |blocks| then Word(blocks[ip.addrs[NDIRECT]], s - NDIRECT - 1)
    else 0
  }

  /** The reference that file block bn goes through. */
  function SlotOf(bn: nat): nat { if bn < NDIRECT then bn else bn + 1 }

  /** The disk block of file block bn, or 0. */
  function Addr(ip: Dinode, blocks: seq<Block>, bn: nat): nat
    requires bn < MAXFILE
  {
    Slot(ip, blocks, SlotOf(bn))
  }

  type Owner = map<nat, (nat, nat)>

  /** Every reference of every inode points to a block of its own: `owner` says which reference. */
  ghost predicate Refs(inodes: seq<Dinode>, blocks: seq<Block>, owner: Owner) {
    && (forall i, s :: 0 <= i < |inodes| && 0 <= s <= MAXFILE && Slot(inodes[i], blocks, s) != 0 ==>
          Slot(inodes[i], blocks, s) in owner && owner[Slot(inodes[i], blocks, s)] == (i, s))
    && (forall b :: b in owner ==>
          && 0 < b < |blocks|
          && owner[b].0 < |inodes| && owner[b].1 <= MAXFILE
          && Slot(inodes[owner[b].0], blocks, owner[b].1) == b)
  }

  /** The blocks in use are the first nmeta blocks, the referenced blocks, and the blocks in `extra`
      that the running operation has allocated or detached. */
  ghost predicate Accounted(used: seq<bool>, nmeta: nat, owner: Owner, extra: set<nat>) {
    && (forall b :: b in owner ==> nmeta <= b < |used|)
    && (forall b :: b in extra ==> nmeta <= b < |used| && b !in owner)
    && (forall b :: 0 <= b < |used| ==> (used[b] <==> b < nmeta || b in owner || b in extra))
  }

  /** Changing a block that is no inode's indirect block changes no reference. */
  lemma SlotsSame(inodes: seq<Dinode>, blocks: seq<Block>, owner: Owner, b: nat, x: Block)
    requires Refs(inodes, blocks, owner) && b < |blocks|
    requires b in owner ==> owner[b].1 != NDIRECT
    ensures forall j, s :: 0 <= j < |inodes| && 0 <= s <= MAXFILE ==>
              Slot(inodes[j], blocks[b := x], s) == Slot(inodes[j], blocks, s)
    ensures Refs(inodes, blocks[b := x], owner)
  {
    var blocks' := blocks[b := x];
    forall j, s | 0 <= j < |inodes| && 0 <= s <= MAXFILE
      ensures Slot(inodes[j], blocks', s) == Slot(inodes[j], blocks, s)
    {
      assert Slot(inodes[j], blocks, NDIRECT) == inodes[j].addrs[NDIRECT];
    }
    forall j, s | 0 <= j < |inodes| && 0 <= s <= MAXFILE && Slot(inodes[j], blocks', s) != 0
      ensures Slot(inodes[j], blocks', s) in owner && owner[Slot(inodes[j], blocks', s)] == (j, s) {
      assert Slot(inodes[j], blocks, s) != 0;
    }
  }

  function SetAddr(ip: Dinode, s: nat, b: nat): Dinode
    requires s <= NDIRECT
  {
    ip.(addrs := ip.addrs[s := b])
  }

  /** Storing a new block's number in an empty direct slot, or a zeroed block's in the indirect slot. */
  lemma AttachAddr(inodes: seq<Dinode>, blocks: seq<Block>, owner: Owner, i: nat, s: nat, b: nat)
    requires Refs(inodes, blocks, owner) && i < |inodes| && s <= NDIRECT
    requires inodes[i].addrs[s] == 0 && 0 < b < |blocks| && b !in owner
    requires s == NDIRECT ==> blocks[b] == Zeroes()
    ensures Refs(inodes[i := SetAddr(inodes[i], s, b)], blocks, owner[b := (i, s)])
    ensures forall t :: 0 <= t <= MAXFILE && t != s ==>
              Slot(SetAddr(inodes[i], s, b), blocks, t) == Slot(inodes[i], blocks, t)
  {
    var ip := SetAddr(inodes[i], s, b);
    forall t | 0 <= t <= MAXFILE && t != s ensures Slot(ip, blocks, t) == Slot(inodes[i], blocks, t) {
      if s == NDIRECT && t > NDIRECT { assert Word(Zeroes(), t - NDIRECT - 1) == 0; }
    }
    var inodes', owner' := inodes[i := ip], owner[b := (i, s)];
    assert Slot(ip, blocks, s) == b;
  }

  /** Storing a new block's number in an empty entry of the indirect block. */
  lemma AttachEntry(inodes: seq<Dinode>, blocks: seq<Block>, owner: Owner, i: nat, e: nat, b: nat)
    requires Refs(inodes, blocks, owner) && i < |inodes| && e < NINDIRECT
    requires 0 < inodes[i].addrs[NDIRECT] < |blocks|
    requires Slot(inodes[i], blocks, NDIRECT + 1 + e) == 0
    requires 0 < b < |blocks| && b < UINT_LIMIT && b !in owner
    ensures var ind := inodes[i].addrs[NDIRECT];
            var blocks' := blocks[ind := PutWord(blocks[ind], e, b)];
            && Refs(inodes, blocks', owner[b := (i, NDIRECT + 1 + e)])
            && forall j, t :: 0 <= j < |inodes| && 0 <= t <= MAXFILE ==>
                 Slot(inodes[j], blocks', t) ==
                 if j == i && t == NDIRECT + 1 + e then b else Slot(inodes[j], blocks, t)
  {
    var ind := inodes[i].addrs[NDIRECT];
    assert Slot(inodes[i], blocks, NDIRECT) == ind;
    var blocks' := blocks[ind := PutWord(blocks[ind], e, b)];
    forall j, t | 0 <= j < |inodes| && 0 <= t <= MAXFILE
      ensures Slot(inodes[j], blocks', t) ==
              if j == i && t == NDIRECT + 1 + e then b else Slot(inodes[j], blocks, t)
    {
      assert Slot(inodes[j], blocks, NDIRECT) == inodes[j].addrs[NDIRECT];
      if t > NDIRECT && inodes[j].addrs[NDIRECT] == ind {
        assert j == i;
        WordPut(blocks[ind], e, b, t - NDIRECT - 1);
      }
    }
  }

  /** Clearing a direct slot. */
  lemma DetachDirect(inodes: seq<Dinode>, blocks: seq<Block>, owner: Owner, i: nat, s: nat)
    requires Refs(inodes, blocks, owner) && i < |inodes| && s < NDIRECT && inodes[i].addrs[s] != 0
    ensures Refs(inodes[i := SetAddr(inodes[i], s, 0)], blocks, owner - {inodes[i].addrs[s]})
    ensures forall t :: 0 <= t <= MAXFILE && t != s ==>
              Slot(SetAddr(inodes[i], s, 0), blocks, t) == Slot(inodes[i], blocks, t)
  {
    var b := inodes[i].addrs[s];
    assert Slot(inodes[i], blocks, s) == b && owner[b] == (i, s);
    var inodes' := inodes[i := SetAddr(inodes[i], s, 0)];
    forall t | 0 <= t <= MAXFILE && t != s
      ensures Slot(SetAddr(inodes[i], s, 0), blocks, t) == Slot(inodes[i], blocks, t) {}
    forall j, t | 0 <= j < |inodes| && 0 <= t <= MAXFILE && Slot(inodes'[j], blocks, t) != 0
      ensures Slot(inodes'[j], blocks, t) in owner - {b} && owner[Slot(inodes'[j], blocks, t)] == (j, t)
    {
      assert Slot(inodes'[j], blocks, t) == Slot(inodes[j], blocks, t);
    }
  }

  /** The blocks that inode i reaches through its indirect slot, that block included. */
  ghost function Indirect(owner: Owner, i: nat): set<nat> {
    set b | b in owner && owner[b].0 == i && owner[b].1 >= NDIRECT
  }

  /** Clearing the indirect slot drops the block and everything it lists. */
  lemma DetachIndirect(inodes: seq<Dinode>, blocks: seq<Block>, owner: Owner, i: nat)
    requires Refs(inodes, blocks, owner) && i < |inodes|
    ensures Refs(inodes[i := SetAddr(inodes[i], NDIRECT, 0)], blocks, owner - Indirect(owner, i))
  {
    var inodes' := inodes[i := SetAddr(inodes[i], NDIRECT, 0)];
    forall j, t | 0 <= j < |inodes| && 0 <= t <= MAXFILE && Slot(inodes'[j], blocks, t) != 0
      ensures Slot(inodes'[j], blocks, t) in owner - Indirect(owner, i)
      ensures owner[Slot(inodes'[j], blocks, t)] == (j, t)
    {
      assert Slot(inodes'[j], blocks, t) == Slot(inodes[j], blocks, t);
    }
    forall b | b in owner - Indirect(owner, i)
      ensures Slot(inodes'[owner[b].0], blocks, owner[b].1) == b {}
  }

  /** Byte p of a file; a missing block reads as zeroes. */
  function FileByte(ip: Dinode, blocks: seq<Block>, p: nat): byte
    requires p < MAXFILE * BSIZE
  {
    var b := Addr(ip, blocks, p / BSIZE);
    if 0 < b < |blocks| then blocks[b][p % BSIZE] else 0
  }

  function Contents(ip: Dinode, blocks: seq<Block>): (r: seq<byte>)
    requires ip.size <= MAXFILE * BSIZE
    ensures |r| == ip.size
  {
    seq(ip.size, p requires 0 <= p < ip.size <= MAXFILE * BSIZE => FileByte(ip, blocks, p))
  }

  /** Every file block below the size is there. */
  ghost predicate NoHole(ip: Dinode, blocks: seq<Block>, size: nat) {
    forall bn :: 0 <= bn < MAXFILE && bn * BSIZE < size ==> Addr(ip, blocks, bn) != 0
  }

  ghost predicate InodeOk(ip: Dinode, blocks: seq<Block>) {
    && ip.size <= MAXFILE * BSIZE && NoHole(ip, blocks, ip.size)
    && (ip.kind == 0 ==> ip.size == 0 && ip.addrs == NO_ADDRS)
  }

  /** A block with some of its bytes replaced. */
  function Patch(b: Block, o: nat, data: seq<byte>): Block
    requires o + |data| <= BSIZE
  {
    b[..o] + data + b[o + |data|..]
  }

  /** Patching the block of one file changes those bytes of that file and no other byte of any file. */
  lemma PatchByte(inodes: seq<Dinode>, blocks: seq<Block>, owner: Owner, i: nat, bn: nat, o: nat,
                  data: seq<byte>, j: nat, p: nat)
    requires Refs(inodes, blocks, owner) && i < |inodes| && bn < MAXFILE && o + |data| <= BSIZE
    requires Addr(inodes[i], blocks, bn) != 0
    requires j < |inodes| && p < MAXFILE * BSIZE
    ensures var addr := Addr(inodes[i], blocks, bn);
            && addr < |blocks|
            && var blocks' := blocks[addr := Patch(blocks[addr], o, data)];
            && Addr(inodes[j], blocks', p / BSIZE) == Addr(inodes[j], blocks, p / BSIZE)
            && FileByte(inodes[j], blocks', p) ==
               if j == i && bn * BSIZE + o <= p < bn * BSIZE + o + |data| then data[p - bn * BSIZE - o]
               else FileByte(inodes[j], blocks, p)
  {
    var addr := Addr(inodes[i], blocks, bn);
    assert owner[addr] == (i, SlotOf(bn));
    SlotsSame(inodes, blocks, owner, addr, Patch(blocks[addr], o, data));
    var s := SlotOf(p / BSIZE);
    assert Slot(inodes[j], blocks, s) == addr ==> j == i && p / BSIZE == bn;
    assert p == p / BSIZE * BSIZE + p % BSIZE;
  }

  /** old with the bytes of w over it from position off on, longer if w reaches past the end. */
  function Splice(s: seq<byte>, off: nat, w: seq<byte>): seq<byte>
    requires off <= |s|
  {
    s[..off] + w + (if off + |w| < |s| then s[off + |w|..] else [])
  }

  function Max(a: nat, b: nat): nat { if a < b then b else a }

  /** Inode i has the first t bytes of src at off0 and beyond that every byte of an existing file block
      is as it was in (inodes0, blocks0); nothing but ip->addrs[] of inode i has changed. */
  ghost predicate Written(inodes0: seq<Dinode>, blocks0: seq<Block>, inodes: seq<Dinode>, blocks: seq<Block>,
                          i: nat, off0: nat, src: seq<byte>, t: nat)
  {
    && |inodes| == |inodes0| && i < |inodes| && t <= |src| && off0 + t <= MAXFILE * BSIZE
    && (forall j :: 0 <= j < |inodes| && j != i ==> inodes[j] == inodes0[j])
    && inodes[i] == inodes0[i].(addrs := inodes[i].addrs)
    && (forall j, p :: 0 <= j < |inodes| && 0 <= p < MAXFILE * BSIZE && Addr(inodes0[j], blocks0, p / BSIZE) != 0 ==>
          && Addr(inodes[j], blocks, p / BSIZE) != 0
          && (j != i || p < off0 || off0 + t <= p ==>
                FileByte(inodes[j], blocks, p) == FileByte(inodes0[j], blocks0, p)))
    && (forall p :: off0 <= p < off0 + t ==>
          Addr(inodes[i], blocks, p / BSIZE) != 0 && FileByte(inodes[i], blocks, p) == src[p - off0])
  }

  /** The next chunk of a write. */
  lemma WrittenPatch(inodes0: seq<Dinode>, blocks0: seq<Block>, inodes: seq<Dinode>, blocks: seq<Block>,
                     owner: Owner, i: nat, off0: nat, src: seq<byte>, t: nat, m: nat)
    requires Written(inodes0, blocks0, inodes, blocks, i, off0, src, t) && Refs(inodes, blocks, owner)
    requires t + m <= |src| && off0 + t + m <= MAXFILE * BSIZE && (off0 + t) / BSIZE < MAXFILE
    requires (off0 + t) % BSIZE + m <= BSIZE
    requires Addr(inodes[i], blocks, (off0 + t) / BSIZE) != 0
    ensures var addr := Addr(inodes[i], blocks, (off0 + t) / BSIZE);
            && addr < |blocks|
            && var blocks' := blocks[addr := Patch(blocks[addr], (off0 + t) % BSIZE, src[t..t + m])];
            && Written(inodes0, blocks0, inodes, blocks', i, off0, src, t + m)
            && Refs(inodes, blocks', owner)
            && forall j, s :: 0 <= j < |inodes| && 0 <= s <= MAXFILE ==>
                 Slot(inodes[j], blocks', s) == Slot(inodes[j], blocks, s)
  {
    var bn, o := (off0 + t) / BSIZE, (off0 + t) % BSIZE;
    var addr := Addr(inodes[i], blocks, bn);
    assert owner[addr] == (i, SlotOf(bn));
    var data := src[t..t + m];
    var blocks' := blocks[addr := Patch(blocks[addr], o, data)];
    SlotsSame(inodes, blocks, owner, addr, Patch(blocks[addr], o, data));
    assert off0 + t == bn * BSIZE + o;
    hide Refs, Slot, FileByte, Patch;
    forall j, p | 0 <= j < |inodes| && 0 <= p < MAXFILE * BSIZE
      ensures Addr(inodes[j], blocks', p / BSIZE) == Addr(inodes[j], blocks, p / BSIZE)
      ensures FileByte(inodes[j], blocks', p) ==
              if j == i && off0 + t <= p < off0 + t + m then src[p - off0] else FileByte(inodes[j], blocks, p)
    {
      PatchByte(inodes, blocks, owner, i, bn, o, data, j, p);
    }
  }

  /** No hole below the new size after a write of `tot` bytes, of which w >= tot reached the blocks. */
  lemma WrittenNoHole(inodes0: seq<Dinode>, blocks0: seq<Block>, inodes: seq<Dinode>, blocks: seq<Block>,
                      i: nat, off0: nat, src: seq<byte>, tot: nat, w: nat)
    requires Written(inodes0, blocks0, inodes, blocks, i, off0, src, w) && tot <= w
    requires InodeOk(inodes0[i], blocks0) && off0 <= inodes0[i].size
    ensures NoHole(inodes[i], blocks, Max(inodes0[i].size, off0 + tot))
  {
    forall bn | 0 <= bn < MAXFILE && bn * BSIZE < Max(inodes0[i].size, off0 + tot)
      ensures Addr(inodes[i], blocks, bn) != 0
    {
      var p := bn * BSIZE;
      assert p / BSIZE == bn;
      var firstByte := FileByte(inodes[i], blocks, p);
    }
  }

  /** What a write leaves in the file: the bytes written over the old contents, cut at the new size
      (a copy that failed half way has changed bytes past the ones it counts). */
  lemma WrittenContents(inodes0: seq<Dinode>, blocks0: seq<Block>, inodes: seq<Dinode>, blocks: seq<Block>,
                        i: nat, off0: nat, src: seq<byte>, tot: nat, w: nat)
    requires Written(inodes0, blocks0, inodes, blocks, i, off0, src, w) && tot <= w
    requires InodeOk(inodes0[i], blocks0) && off0 <= inodes0[i].size
    ensures var size := Max(inodes0[i].size, off0 + tot);
            && size <= |Splice(Contents(inodes0[i], blocks0), off0, src[..w])|
            && Contents(inodes[i].(size := size), blocks) ==
               Splice(Contents(inodes0[i], blocks0), off0, src[..w])[..size]
  {
    var size := Max(inodes0[i].size, off0 + tot);
    var ip := inodes[i].(size := size);
    var was := Contents(inodes0[i], blocks0);
    forall p | 0 <= p < size ensures Contents(ip, blocks)[p] == Splice(was, off0, src[..w])[p] {
      assert FileByte(ip, blocks, p) == FileByte(inodes[i], blocks, p) by { SameAddr(ip, inodes[i], blocks, p); }
      if p < inodes0[i].size {
        assert p / BSIZE * BSIZE < inodes0[i].size;
        assert Addr(inodes0[i], blocks0, p / BSIZE) != 0;
      }
    }
  }

  /** A file's bytes depend on its block numbers only. */
  lemma SameAddr(a: Dinode, b: Dinode, blocks: seq<Block>, p: nat)
    requires a.addrs == b.addrs && p < MAXFILE * BSIZE
    ensures FileByte(a, blocks, p) == FileByte(b, blocks, p)
    ensures Addr(a, blocks, p / BSIZE) == Addr(b, blocks, p / BSIZE)
  {
  }

  lemma WrittenOthers(inodes0: seq<Dinode>, blocks0: seq<Block>, inodes: seq<Dinode>, blocks: seq<Block>,
                      i: nat, off0: nat, src: seq<byte>, w: nat, j: nat)
    requires Written(inodes0, blocks0, inodes, blocks, i, off0, src, w) && j < |inodes| && j != i
    requires InodeOk(inodes0[j], blocks0)
    ensures InodeOk(inodes[j], blocks) && Contents(inodes[j], blocks) == Contents(inodes0[j], blocks0)
  {
    assert NoHole(inodes[j], blocks, inodes[j].size) by {
      forall bn | 0 <= bn < MAXFILE && bn * BSIZE < inodes[j].size ensures Addr(inodes[j], blocks, bn) != 0 {
        var p := bn * BSIZE;
        assert p / BSIZE == bn;
        assert FileByte(inodes[j], blocks, p) == FileByte(inodes0[j], blocks0, p);
      }
    }
    forall p | 0 <= p < inodes[j].size ensures Contents(inodes[j], blocks)[p] == Contents(inodes0[j], blocks0)[p] {
      assert p / BSIZE * BSIZE < inodes0[j].size;
      assert Addr(inodes0[j], blocks0, p / BSIZE) != 0;
    }
  }
}
