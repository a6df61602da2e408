/** The block and file layers of kernel/fs.c: balloc, bfree, bmap, itrunc, readi, writei, ialloc and
    the freeing half of iput. The disk is the one the log presents: every log_write takes effect at
    once and is noted in `logged`. */
module Fs {
  import opened Bits
  import opened FsSpec

  /** nmeta is the number of blocks before the data blocks: boot, superblock, log, inodes, bitmap. */
  datatype Superblock = Superblock(size: nat, ninodes: nat, inodestart: nat, bmapstart: nat, nmeta: nat)

  function Bblock(sb: Superblock, b: nat): nat { b / BPB + sb.bmapstart }
  function Iblock(sb: Superblock, i: nat): nat { i / IPB + sb.inodestart }

  /** The blocks that hold the bitmap. */
  ghost function Bitmaps(sb: Superblock): (r: set<nat>)
    ensures forall b :: 0 <= b < sb.size ==> Bblock(sb, b) in r
  {
    set b | 0 <= b < sb.size :: Bblock(sb, b)
  }

  /** An operation has logged bitmap blocks and blocks of `touched` only. */
  ghost predicate MayLog(sb: Superblock, before: set<nat>, logged: set<nat>, touched: set<nat>) {
    forall x :: x in logged ==> x in before || x in Bitmaps(sb) || (x != 0 && x in touched)
  }

  /** What the disk holds of a file system: the bitmap, the inodes and the data blocks. */
  datatype Snapshot = Snapshot(bitmap: seq<bv8>, dinodes: seq<Dinode>, blocks: seq<Block>)

  /** Every block that differs from the start of the transaction has been given to log_write. */
  ghost predicate Covered(sb: Superblock, s: Snapshot, bitmap: seq<bv8>, dinodes: seq<Dinode>, blocks: seq<Block>, logged: set<nat>) {
    && |s.bitmap| == |bitmap| && |s.dinodes| == |dinodes| && |s.blocks| == |blocks|
    && (forall k :: 0 <= k < |bitmap| && bitmap[k] != s.bitmap[k] ==> Bblock(sb, 8 * k) in logged)
    && (forall i :: 0 <= i < |dinodes| && dinodes[i] != s.dinodes[i] ==> Iblock(sb, i) in logged)
    && (forall b :: 0 <= b < |blocks| && blocks[b] != s.blocks[b] ==> b in logged)
  }

  lemma CoveredByte(sb: Superblock, s: Snapshot, bitmap: seq<bv8>, dinodes: seq<Dinode>, blocks: seq<Block>, logged: set<nat>,
                    k: nat, x: bv8)
    requires Covered(sb, s, bitmap, dinodes, blocks, logged) && k < |bitmap|
    ensures Covered(sb, s, bitmap[k := x], dinodes, blocks, logged + {Bblock(sb, 8 * k)})
  {
  }

  /** The bits of a byte are in one block. */
  lemma SameBblock(sb: Superblock, b: nat)
    ensures Bblock(sb, 8 * (b / 8)) == Bblock(sb, b)
  {
    var k := b / 8;
    assert b / BPB == k / 1024 && 8 * k / BPB == k / 1024;
  }

  lemma CoveredSet(sb: Superblock, s: Snapshot, bitmap: seq<bv8>, dinodes: seq<Dinode>, blocks: seq<Block>, logged: set<nat>, b: nat)
    requires Covered(sb, s, bitmap, dinodes, blocks, logged) && b < 8 * |bitmap|
    ensures Covered(sb, s, SetBit(bitmap, b), dinodes, blocks, logged + {Bblock(sb, b)})
    ensures Covered(sb, s, ClearBit(bitmap, b), dinodes, blocks, logged + {Bblock(sb, b)})
  {
    hide Covered;
    SameBblock(sb, b);
    CoveredByte(sb, s, bitmap, dinodes, blocks, logged, b / 8, SetBit(bitmap, b)[b / 8]);
    CoveredByte(sb, s, bitmap, dinodes, blocks, logged, b / 8, ClearBit(bitmap, b)[b / 8]);
    hide Mask, Bblock;
    assert SetBit(bitmap, b) == bitmap[b / 8 := SetBit(bitmap, b)[b / 8]];
    assert ClearBit(bitmap, b) == bitmap[b / 8 := ClearBit(bitmap, b)[b / 8]];
  }

  lemma CoveredBlock(sb: Superblock, s: Snapshot, bitmap: seq<bv8>, dinodes: seq<Dinode>, blocks: seq<Block>, logged: set<nat>,
                     b: nat, x: Block)
    requires Covered(sb, s, bitmap, dinodes, blocks, logged) && b < |blocks|
    ensures Covered(sb, s, bitmap, dinodes, blocks[b := x], logged + {b})
  {
  }

  lemma CoveredInode(sb: Superblock, s: Snapshot, bitmap: seq<bv8>, dinodes: seq<Dinode>, blocks: seq<Block>, logged: set<nat>,
                     i: nat, x: Dinode)
    requires Covered(sb, s, bitmap, dinodes, blocks, logged) && i < |dinodes|
    ensures Covered(sb, s, bitmap, dinodes[i := x], blocks, logged + {Iblock(sb, i)})
  {
  }

  /** The references that existed before an operation on inode i are still there, other inodes are
      untouched, and no block that held file data has changed. */
  ghost predicate Grows(inodes0: seq<Dinode>, blocks0: seq<Block>, owner0: Owner,
                        inodes: seq<Dinode>, blocks: seq<Block>, i: nat)
  {
    && |inodes| == |inodes0| && |blocks| == |blocks0| && i < |inodes|
    && (forall j :: 0 <= j < |inodes| && j != i ==> inodes[j] == inodes0[j])
    && inodes[i] == inodes0[i].(addrs := inodes[i].addrs)
    && (forall j, s :: 0 <= j < |inodes| && 0 <= s <= MAXFILE && Slot(inodes0[j], blocks0, s) != 0 ==>
          Slot(inodes[j], blocks, s) == Slot(inodes0[j], blocks0, s))
    && (forall b :: b in owner0 && owner0[b].1 != NDIRECT && b < |blocks| ==> blocks[b] == blocks0[b])
  }

  /** Bytes of existing file blocks survive. */
  lemma GrowsKeepsByte(inodes0: seq<Dinode>, blocks0: seq<Block>, owner0: Owner,
                       inodes: seq<Dinode>, blocks: seq<Block>, i: nat, j: nat, p: nat)
    requires Refs(inodes0, blocks0, owner0) && Grows(inodes0, blocks0, owner0, inodes, blocks, i)
    requires j < |inodes| && p < MAXFILE * BSIZE && Addr(inodes0[j], blocks0, p / BSIZE) != 0
    ensures Addr(inodes[j], blocks, p / BSIZE) == Addr(inodes0[j], blocks0, p / BSIZE)
    ensures FileByte(inodes[j], blocks, p) == FileByte(inodes0[j], blocks0, p)
  {
    var s := SlotOf(p / BSIZE);
    var b := Slot(inodes0[j], blocks0, s);
    assert b in owner0 && owner0[b] == (j, s);
  }

  lemma GrowsTrans(inodes0: seq<Dinode>, blocks0: seq<Block>, owner0: Owner,
                   inodes1: seq<Dinode>, blocks1: seq<Block>, owner1: Owner,
                   inodes2: seq<Dinode>, blocks2: seq<Block>, i: nat)
    requires Refs(inodes0, blocks0, owner0) && Grows(inodes0, blocks0, owner0, inodes1, blocks1, i)
    requires Refs(inodes1, blocks1, owner1) && Grows(inodes1, blocks1, owner1, inodes2, blocks2, i)
    ensures Grows(inodes0, blocks0, owner0, inodes2, blocks2, i)
  {
    forall b | b in owner0 && owner0[b].1 != NDIRECT ensures blocks2[b] == blocks0[b] {
      assert Slot(inodes1[owner0[b].0], blocks1, owner0[b].1) == b;
    }
  }

  /** A free block becomes the target of an empty slot of ip->addrs[]. */
  lemma AllocAddr(inodes: seq<Dinode>, blocks: seq<Block>, owner: Owner, used: seq<bool>, nmeta: nat,
                  i: nat, s: nat, b: nat)
    requires Refs(inodes, blocks, owner) && Accounted(used, nmeta, owner, {}) && |used| == |blocks|
    requires i < |inodes| && s <= NDIRECT && inodes[i].addrs[s] == 0
    requires 0 < nmeta <= b < |used| && !used[b]
    ensures var blocks', inodes' := blocks[b := Zeroes()], inodes[i := SetAddr(inodes[i], s, b)];
            var owner' := owner[b := (i, s)];
            && Refs(inodes', blocks', owner') && Accounted(used[b := true], nmeta, owner', {})
            && Grows(inodes, blocks, owner, inodes', blocks', i)
  {
    SlotsSame(inodes, blocks, owner, b, Zeroes());
    AttachAddr(inodes, blocks[b := Zeroes()], owner, i, s, b);
  }

  /** A free block becomes the target of an empty entry of the indirect block. */
  lemma AllocEntry(inodes: seq<Dinode>, blocks: seq<Block>, owner: Owner, used: seq<bool>, nmeta: nat,
                   i: nat, e: nat, b: nat)
    requires Refs(inodes, blocks, owner) && Accounted(used, nmeta, owner, {}) && |used| == |blocks|
    requires i < |inodes| && e < NINDIRECT && inodes[i].addrs[NDIRECT] != 0
    requires Slot(inodes[i], blocks, NDIRECT + 1 + e) == 0
    requires 0 < nmeta <= b < |used| <= UINT_LIMIT && !used[b]
    ensures var ind := inodes[i].addrs[NDIRECT];
            && ind < |blocks| && ind != b
            && var blocks' := blocks[b := Zeroes()][ind := PutWord(blocks[ind], e, b)];
            var owner' := owner[b := (i, NDIRECT + 1 + e)];
            && Refs(inodes, blocks', owner') && Accounted(used[b := true], nmeta, owner', {})
            && Grows(inodes, blocks, owner, inodes, blocks', i)
            && Slot(inodes[i], blocks', NDIRECT + 1 + e) == b
  {
    var ind := inodes[i].addrs[NDIRECT];
    assert Slot(inodes[i], blocks, NDIRECT) == ind;
    SlotsSame(inodes, blocks, owner, b, Zeroes());
    AttachEntry(inodes, blocks[b := Zeroes()], owner, i, e, b);
  }

  lemma MetaUsed(used: seq<bool>, nmeta: nat, owner: Owner)
    requires Accounted(used, nmeta, owner, {})
    ensures forall b :: 0 <= b < nmeta && b < |used| ==> used[b]
  {
  }

  /** One pass of the loops in readi and writei moves at most the rest of one block. */
  function Chunk(left: nat, off: nat): (m: nat)
    requires left > 0
    ensures 0 < m <= left && off % BSIZE + m <= BSIZE
  {
    if left < BSIZE - off % BSIZE then left else BSIZE - off % BSIZE
  }

  lemma ReadChunk(ip: Dinode, blocks: seq<Block>, off: nat, m: nat)
    requires ip.size <= MAXFILE * BSIZE && off + m <= ip.size && off % BSIZE + m <= BSIZE && off < ip.size
    requires 0 < Addr(ip, blocks, off / BSIZE) < |blocks|
    ensures blocks[Addr(ip, blocks, off / BSIZE)][off % BSIZE..off % BSIZE + m] == Contents(ip, blocks)[off..off + m]
  {
    var b := blocks[Addr(ip, blocks, off / BSIZE)];
    var x, y := b[off % BSIZE..off % BSIZE + m], Contents(ip, blocks)[off..off + m];
    forall k | 0 <= k < m ensures x[k] == y[k] {
      assert (off + k) / BSIZE == off / BSIZE && (off + k) % BSIZE == off % BSIZE + k;
    }
  }

  /** A write in progress: the state it started from, and the first t bytes of src stored at off. Its
      file blocks are lo..hi. */
  datatype Job = Job(inodes0: seq<Dinode>, blocks0: seq<Block>, logged0: set<nat>,
                     src: seq<byte>, off: nat, t: nat, lo: nat, hi: nat)

  /** The disk blocks that inode ip uses for its file blocks lo..hi, and its indirect block. */
  ghost function Touched(ip: Dinode, blocks: seq<Block>, lo: nat, hi: nat): set<nat>
    requires hi <= MAXFILE
  {
    {ip.addrs[NDIRECT]} + set bn | lo <= bn < hi :: Addr(ip, blocks, bn)
  }

  ghost predicate Progress(sb: Superblock, job: Job, inodes: seq<Dinode>, blocks: seq<Block>, logged: set<nat>, i: nat) {
    && job.hi <= MAXFILE
    && Written(job.inodes0, job.blocks0, inodes, blocks, i, job.off, job.src, job.t)
    && MayLog(sb, job.logged0, logged, Touched(inodes[i], blocks, job.lo, job.hi))
  }

  /** bmap disturbs neither the bytes written nor the account of logged blocks. */
  lemma ProgressGrows(sb: Superblock, job: Job, inodes1: seq<Dinode>, blocks1: seq<Block>, owner1: Owner,
                      logged1: set<nat>, inodes2: seq<Dinode>, blocks2: seq<Block>, logged2: set<nat>, i: nat, bn: nat)
    requires Refs(inodes1, blocks1, owner1) && Grows(inodes1, blocks1, owner1, inodes2, blocks2, i)
    requires Progress(sb, job, inodes1, blocks1, logged1, i) && job.lo <= bn < job.hi
    requires MayLog(sb, logged1, logged2, {Addr(inodes2[i], blocks2, bn), inodes2[i].addrs[NDIRECT]})
    ensures Progress(sb, job, inodes2, blocks2, logged2, i)
  {
    forall j, p | 0 <= j < |inodes1| && 0 <= p < MAXFILE * BSIZE && Addr(inodes1[j], blocks1, p / BSIZE) != 0
      ensures Addr(inodes2[j], blocks2, p / BSIZE) != 0
      ensures FileByte(inodes2[j], blocks2, p) == FileByte(inodes1[j], blocks1, p)
    {
      GrowsKeepsByte(inodes1, blocks1, owner1, inodes2, blocks2, i, j, p);
    }
    forall x | x in Touched(inodes1[i], blocks1, job.lo, job.hi) && x != 0
      ensures x in Touched(inodes2[i], blocks2, job.lo, job.hi)
    {
      if x == inodes1[i].addrs[NDIRECT] {
        assert Slot(inodes1[i], blocks1, NDIRECT) == x;
      } else {
        var b :| job.lo <= b < job.hi && Addr(inodes1[i], blocks1, b) == x;
        assert Addr(inodes2[i], blocks2, b) == x;
      }
    }
  }

  lemma TouchedSame(ip1: Dinode, ip2: Dinode, blocks1: seq<Block>, blocks2: seq<Block>, lo: nat, hi: nat)
    requires hi <= MAXFILE && ip1.addrs == ip2.addrs
    requires forall bn :: lo <= bn < hi ==> Addr(ip1, blocks1, bn) == Addr(ip2, blocks2, bn)
    ensures Touched(ip1, blocks1, lo, hi) == Touched(ip2, blocks2, lo, hi)
  {
  }

  /** References do not depend on sizes, types or link counts. */
  lemma SizeKeepsRefs(inodes1: seq<Dinode>, inodes2: seq<Dinode>, blocks: seq<Block>, owner: Owner)
    requires Refs(inodes1, blocks, owner) && |inodes1| == |inodes2|
    requires forall j :: 0 <= j < |inodes1| ==> inodes1[j].addrs == inodes2[j].addrs
    ensures Refs(inodes2, blocks, owner)
    ensures forall j, s :: 0 <= j < |inodes1| && 0 <= s <= MAXFILE ==>
              Slot(inodes2[j], blocks, s) == Slot(inodes1[j], blocks, s)
  {
    forall j, s | 0 <= j < |inodes1| && 0 <= s <= MAXFILE
      ensures Slot(inodes2[j], blocks, s) == Slot(inodes1[j], blocks, s) {}
  }

  /** Writing into a file block of the job logs a block that the job may log. */
  lemma PatchLogged(sb: Superblock, ip: Dinode, blocks: seq<Block>, blocks': seq<Block>, before: set<nat>, logged: set<nat>,
                    lo: nat, hi: nat, bn: nat)
    requires lo <= bn < hi <= MAXFILE && Addr(ip, blocks, bn) != 0
    requires MayLog(sb, before, logged, Touched(ip, blocks, lo, hi))
    requires forall s :: 0 <= s <= MAXFILE ==> Slot(ip, blocks', s) == Slot(ip, blocks, s)
    ensures MayLog(sb, before, logged + {Addr(ip, blocks, bn)}, Touched(ip, blocks', lo, hi))
  {
    TouchedSame(ip, ip, blocks, blocks', lo, hi);
    assert Addr(ip, blocks, bn) in Touched(ip, blocks, lo, hi);
  }

  lemma ProgressPatch(sb: Superblock, job: Job, inodes: seq<Dinode>, blocks: seq<Block>, owner: Owner,
                      logged: set<nat>, i: nat, off: nat, data: seq<byte>)
    requires Refs(inodes, blocks, owner) && Progress(sb, job, inodes, blocks, logged, i)
    requires off == job.off + job.t && off % BSIZE + |data| <= BSIZE && job.lo <= off / BSIZE < job.hi
    requires job.t + |data| <= |job.src| && data == job.src[job.t..job.t + |data|]
    requires off + |data| <= MAXFILE * BSIZE && Addr(inodes[i], blocks, off / BSIZE) != 0
    ensures var addr := Addr(inodes[i], blocks, off / BSIZE);
            && addr < |blocks|
            && var blocks' := blocks[addr := Patch(blocks[addr], off % BSIZE, data)];
            && Refs(inodes, blocks', owner)
            && Progress(sb, job.(t := job.t + |data|), inodes, blocks', logged + {addr}, i)
  {
    hide Refs, Progress, Slot, Patch, Zeroes;
    assert job.src[job.t..job.t + |data|] == data && job.off + job.t == off;
    ProgressNext(sb, job, inodes, blocks, owner, logged, i, |data|);
  }

  /** The next m bytes of the job. */
  lemma ProgressNext(sb: Superblock, job: Job, inodes: seq<Dinode>, blocks: seq<Block>, owner: Owner, logged: set<nat>, i: nat, m: nat)
    requires Refs(inodes, blocks, owner) && Progress(sb, job, inodes, blocks, logged, i)
    requires (job.off + job.t) % BSIZE + m <= BSIZE && job.lo <= (job.off + job.t) / BSIZE < job.hi
    requires job.t + m <= |job.src| && job.off + job.t + m <= MAXFILE * BSIZE
    requires Addr(inodes[i], blocks, (job.off + job.t) / BSIZE) != 0
    ensures var addr := Addr(inodes[i], blocks, (job.off + job.t) / BSIZE);
            && addr < |blocks|
            && var blocks' := blocks[addr := Patch(blocks[addr], (job.off + job.t) % BSIZE, job.src[job.t..job.t + m])];
            && Refs(inodes, blocks', owner) && Progress(sb, job.(t := job.t + m), inodes, blocks', logged + {addr}, i)
  {
    hide Refs, Written, Slot, Addr, Patch, MayLog, Touched, Progress, Zeroes;
    var bn, o := (job.off + job.t) / BSIZE, (job.off + job.t) % BSIZE;
    ProgressParts(sb, job, inodes, blocks, logged, i);
    WrittenPatch(job.inodes0, job.blocks0, inodes, blocks, owner, i, job.off, job.src, job.t, m);
    var addr := Addr(inodes[i], blocks, bn);
    ProgressLogged(sb, job, inodes, blocks, blocks[addr := Patch(blocks[addr], o, job.src[job.t..job.t + m])], logged, i, bn, job.t + m);
  }

  lemma ProgressLogged(sb: Superblock, job: Job, inodes: seq<Dinode>, blocks: seq<Block>, blocks': seq<Block>,
                       logged: set<nat>, i: nat, bn: nat, t: nat)
    requires Progress(sb, job, inodes, blocks, logged, i) && job.lo <= bn < job.hi && Addr(inodes[i], blocks, bn) != 0
    requires Written(job.inodes0, job.blocks0, inodes, blocks', i, job.off, job.src, t)
    requires forall j, s :: 0 <= j < |inodes| && 0 <= s <= MAXFILE ==> Slot(inodes[j], blocks', s) == Slot(inodes[j], blocks, s)
    ensures Progress(sb, job.(t := t), inodes, blocks', logged + {Addr(inodes[i], blocks, bn)}, i)
  {
    hide *;
    ProgressParts(sb, job, inodes, blocks, logged, i);
    PatchLogged(sb, inodes[i], blocks, blocks', job.logged0, logged, job.lo, job.hi, bn);
    FoldProgress(sb, job.(t := t), inodes, blocks', logged + {Addr(inodes[i], blocks, bn)}, i);
  }

  lemma ProgressParts(sb: Superblock, job: Job, inodes: seq<Dinode>, blocks: seq<Block>, logged: set<nat>, i: nat)
    requires Progress(sb, job, inodes, blocks, logged, i)
    ensures job.hi <= MAXFILE && i < |inodes| && Written(job.inodes0, job.blocks0, inodes, blocks, i, job.off, job.src, job.t)
    ensures MayLog(sb, job.logged0, logged, Touched(inodes[i], blocks, job.lo, job.hi))
  {
  }

  lemma FoldProgress(sb: Superblock, job: Job, inodes: seq<Dinode>, blocks: seq<Block>, logged: set<nat>, i: nat)
    requires job.hi <= MAXFILE && i < |inodes| && Written(job.inodes0, job.blocks0, inodes, blocks, i, job.off, job.src, job.t)
    requires MayLog(sb, job.logged0, logged, Touched(inodes[i], blocks, job.lo, job.hi))
    ensures Progress(sb, job, inodes, blocks, logged, i)
  {
  }

  /** One past the last file block that bytes off .. off + n lie in. */
  function LastBlock(off: nat, n: nat): nat { (off + n + BSIZE - 1) / BSIZE }

  /** What a write of tot bytes has done to all files. */
  ghost predicate WriteiDone(inodes0: seq<Dinode>, blocks0: seq<Block>, inodes: seq<Dinode>, blocks: seq<Block>,
                             i: nat, src: seq<byte>, off: nat, tot: nat, w: nat)
  {
    && |inodes| == |inodes0| && i < |inodes|
    && (forall j :: 0 <= j < |inodes| ==> inodes[j].size <= MAXFILE * BSIZE && inodes0[j].size <= MAXFILE * BSIZE)
    && off <= inodes0[i].size && tot <= w <= |src|
    && inodes[i] == inodes0[i].(size := Max(inodes0[i].size, off + tot), addrs := inodes[i].addrs)
    && inodes[i].size <= |Splice(Contents(inodes0[i], blocks0), off, src[..w])|
    && Contents(inodes[i], blocks) == Splice(Contents(inodes0[i], blocks0), off, src[..w])[..inodes[i].size]
    && forall j :: 0 <= j < |inodes| && j != i ==>
         inodes[j] == inodes0[j] && Contents(inodes[j], blocks) == Contents(inodes0[j], blocks0)
  }

  lemma WriteiFiles(inodes0: seq<Dinode>, blocks0: seq<Block>, inodes: seq<Dinode>, blocks: seq<Block>,
                    i: nat, src: seq<byte>, off: nat, tot: nat, w: nat)
    requires Written(inodes0, blocks0, inodes, blocks, i, off, src, w) && tot <= w
    requires forall j :: 0 <= j < |inodes0| ==> InodeOk(inodes0[j], blocks0)
    requires off <= inodes0[i].size && inodes0[i].kind != 0
    ensures var inodes' := inodes[i := inodes[i].(size := Max(inodes0[i].size, off + tot))];
            && (forall j :: 0 <= j < |inodes'| ==> InodeOk(inodes'[j], blocks))
            && WriteiDone(inodes0, blocks0, inodes', blocks, i, src, off, tot, w)
  {
    WrittenNoHole(inodes0, blocks0, inodes, blocks, i, off, src, tot, w);
    WrittenContents(inodes0, blocks0, inodes, blocks, i, off, src, tot, w);
    var ip := inodes[i].(size := Max(inodes0[i].size, off + tot));
    forall bn | 0 <= bn < MAXFILE && bn * BSIZE < ip.size ensures Addr(ip, blocks, bn) != 0 {
      assert Addr(ip, blocks, bn) == Addr(inodes[i], blocks, bn);
    }
    forall j | 0 <= j < |inodes| && j != i
      ensures InodeOk(inodes[j], blocks) && Contents(inodes[j], blocks) == Contents(inodes0[j], blocks0)
    {
      WrittenOthers(inodes0, blocks0, inodes, blocks, i, off, src, w, j);
    }
  }

  lemma FreedDirect(inodes: seq<Dinode>, blocks: seq<Block>, owner: Owner, used: seq<bool>, nmeta: nat, i: nat, s: nat)
    requires Refs(inodes, blocks, owner) && Accounted(used, nmeta, owner, {}) && |used| == |blocks|
    requires i < |inodes| && s < NDIRECT && inodes[i].addrs[s] != 0
    ensures var b := inodes[i].addrs[s];
            && b < |used| && used[b]
            && Refs(inodes[i := SetAddr(inodes[i], s, 0)], blocks, owner - {b})
            && Accounted(used[b := false], nmeta, owner - {b}, {})
  {
    assert Slot(inodes[i], blocks, s) == inodes[i].addrs[s];
    DetachDirect(inodes, blocks, owner, i, s);
  }

  /** The blocks that itrunc has still to free when it has freed the first j entries of the indirect
      block of inode i. */
  ghost function Listed(owner: Owner, i: nat, j: nat): set<nat> {
    set b | b in owner && owner[b].0 == i && (owner[b].1 == NDIRECT || owner[b].1 >= NDIRECT + 1 + j)
  }

  lemma AllListed(inodes: seq<Dinode>, blocks: seq<Block>, owner: Owner, used: seq<bool>, nmeta: nat, i: nat)
    requires Accounted(used, nmeta, owner, {})
    ensures Accounted(used, nmeta, owner - Indirect(owner, i), Listed(owner, i, 0))
  {
    assert Listed(owner, i, 0) == Indirect(owner, i);
  }

  lemma ListedNext(inodes: seq<Dinode>, blocks: seq<Block>, owner: Owner, i: nat, j: nat)
    requires Refs(inodes, blocks, owner) && i < |inodes| && j < NINDIRECT
    requires 0 < inodes[i].addrs[NDIRECT] < |blocks|
    ensures var b := Word(blocks[inodes[i].addrs[NDIRECT]], j);
            && (b != 0 ==> b in Listed(owner, i, j))
            && Listed(owner, i, j + 1) == Listed(owner, i, j) - (if b != 0 then {b} else {})
  {
    var b := Word(blocks[inodes[i].addrs[NDIRECT]], j);
    assert Slot(inodes[i], blocks, NDIRECT + 1 + j) == b;
    forall c | c in Listed(owner, i, j) && c != b ensures c in Listed(owner, i, j + 1) {
      assert owner[c].1 != NDIRECT + 1 + j;
    }
  }

  lemma ListedLast(inodes: seq<Dinode>, blocks: seq<Block>, owner: Owner, i: nat)
    requires Refs(inodes, blocks, owner) && i < |inodes| && inodes[i].addrs[NDIRECT] != 0
    ensures Listed(owner, i, NINDIRECT) == {inodes[i].addrs[NDIRECT]}
  {
    var ind := inodes[i].addrs[NDIRECT];
    assert Slot(inodes[i], blocks, NDIRECT) == ind;
    forall c | c in Listed(owner, i, NINDIRECT) ensures c == ind {
      assert Slot(inodes[i], blocks, owner[c].1) == c;
    }
  }

  ghost function OwnedBy(owner: Owner, i: nat): set<nat> {
    set b | b in owner && owner[b].0 == i
  }

  /** An inode without block numbers owns nothing. */
  lemma NothingOwned(inodes: seq<Dinode>, blocks: seq<Block>, owner: Owner, i: nat)
    requires Refs(inodes, blocks, owner) && i < |inodes|
    requires forall t :: 0 <= t <= NDIRECT ==> inodes[i].addrs[t] == 0
    ensures inodes[i].addrs == NO_ADDRS
    ensures forall b :: b in owner ==> owner[b].0 != i
  {
    forall b | b in owner ensures owner[b].0 != i {
      assert Slot(inodes[owner[b].0], blocks, owner[b].1) == b;
    }
  }

  /** Inode i has lost some of its block numbers, and nothing else has changed. */
  ghost predicate Shrunk(inodes0: seq<Dinode>, owner0: Owner, inodes: seq<Dinode>, owner: Owner, i: nat) {
    && |inodes| == |inodes0| && i < |inodes|
    && inodes == inodes0[i := inodes0[i].(addrs := inodes[i].addrs)]
    && (forall b :: b in owner ==> b in owner0 && owner[b] == owner0[b])
    && (forall b :: b in owner0 && owner0[b].0 != i ==> b in owner)
  }

  /** Dropping one more direct block of inode i. */
  lemma ShrunkNext(inodes0: seq<Dinode>, owner0: Owner, inodes: seq<Dinode>, blocks: seq<Block>, owner: Owner, i: nat, s: nat)
    requires Shrunk(inodes0, owner0, inodes, owner, i) && Refs(inodes, blocks, owner) && s < NDIRECT
    ensures Shrunk(inodes0, owner0, inodes[i := SetAddr(inodes[i], s, 0)], owner - {inodes[i].addrs[s]}, i)
  {
    assert inodes[i].addrs[s] != 0 ==> Slot(inodes[i], blocks, s) == inodes[i].addrs[s];
  }

  lemma ShrunkToNothing(inodes0: seq<Dinode>, owner0: Owner, inodes: seq<Dinode>, owner: Owner, i: nat)
    requires Shrunk(inodes0, owner0, inodes, owner, i)
    requires forall b :: b in owner ==> owner[b].0 != i
    ensures owner == owner0 - OwnedBy(owner0, i)
  {
  }

  lemma FreshInodeOk(blocks: seq<Block>, kind: nat)
    ensures InodeOk(FREE_DINODE.(kind := kind), blocks)
  {
  }

  lemma FreedInodeOk(ip: Dinode, blocks: seq<Block>)
    requires ip.size == 0 && ip.addrs == NO_ADDRS
    ensures InodeOk(ip, blocks)
  {
  }

  ghost predicate RefersTo(dinodes: seq<Dinode>, blocks: seq<Block>, i: nat, s: nat, b: nat) {
    i < |dinodes| && s <= MAXFILE && b != 0 && Slot(dinodes[i], blocks, s) == b
  }

  const CHUNK: nat := 3072  // ((MAXOPBLOCKS - 1 - 1 - 2) / 2) * BSIZE

  /** A set whose elements are all on a list is no larger than the list. */
  lemma {:induction false} ListBound(a: set<nat>, xs: seq<nat>)
    requires forall x :: x in a ==> x in xs
    ensures |a| <= |xs|
  {
    if xs == [] {
      assert a == {};
    } else {
      ListBound(a - {xs[0]}, xs[1..]);
      assert |a| <= |a - {xs[0]}| + 1;
    }
  }

  /** Freeing an inode logs its block and the one bitmap block. */
  lemma FreeLogs(sb: Superblock, logged: set<nat>, i: nat)
    requires sb.size <= BPB && MayLog(sb, {Iblock(sb, i)}, logged, {})
    ensures |logged| <= 2
  {
    var all := [sb.bmapstart, Iblock(sb, i)];
    forall x | x in logged ensures x in all {
      if x in Bitmaps(sb) { assert all[0] == x; } else { assert all[1] == x; }
    }
    ListBound(logged, all);
  }

  /** Writing a directory record, which stays in one block, logs that block, the indirect block, the inode and the bitmap. */
  lemma RecordLogs(sb: Superblock, ip: Dinode, blocks: seq<Block>, logged: set<nat>, i: nat, off: nat)
    requires sb.size <= BPB && off % 16 == 0 && off + 16 <= MAXFILE * BSIZE
    requires MayLog(sb, {Iblock(sb, i)}, logged, Touched(ip, blocks, off / BSIZE, LastBlock(off, 16)))
    ensures |logged| <= 4
  {
    var lo, hi := off / BSIZE, LastBlock(off, 16);
    assert hi <= lo + 1;
    var all := [sb.bmapstart, Iblock(sb, i), ip.addrs[NDIRECT], Addr(ip, blocks, lo)];
    forall x | x in logged ensures x in all {
      if x in Bitmaps(sb) {
        assert all[0] == x;
      } else if x == Iblock(sb, i) {
        assert all[1] == x;
      } else if x == ip.addrs[NDIRECT] {
        assert all[2] == x;
      } else {
        assert all[3] == x;
      }
    }
    ListBound(logged, all);
  }

  /** A transaction of filewrite logs at most four data blocks, the indirect block, the inode block
      and the one bitmap block. */
  lemma ChunkLogs(sb: Superblock, ip: Dinode, blocks: seq<Block>, logged: set<nat>, i: nat, off: nat, n: nat)
    requires sb.size <= BPB && n <= CHUNK && off + n <= MAXFILE * BSIZE
    requires MayLog(sb, {Iblock(sb, i)}, logged, Touched(ip, blocks, off / BSIZE, LastBlock(off, n)))
    ensures |logged| <= 7
  {
    var lo, hi := off / BSIZE, LastBlock(off, n);
    assert hi <= lo + 4;
    var data := seq(4, k requires 0 <= k < 4 => if lo + k < hi then Addr(ip, blocks, lo + k) else 0);
    var all := [sb.bmapstart, Iblock(sb, i), ip.addrs[NDIRECT]] + data;
    forall x | x in logged ensures x in all {
      if x in Bitmaps(sb) {
        assert all[0] == x;
      } else if x == Iblock(sb, i) {
        assert all[1] == x;
      } else if x == ip.addrs[NDIRECT] {
        assert all[2] == x;
      } else {
        var bn :| lo <= bn < hi && Addr(ip, blocks, bn) == x;
        assert data[bn - lo] == x && all[3 + (bn - lo)] == x;
      }
    }
    ListBound(logged, all);
  }

  /** What filewrite has done after counting `tot` bytes: nothing at all when it starts past the end. */
  ghost predicate FilewriteDone(inodes0: seq<Dinode>, blocks0: seq<Block>, inodes: seq<Dinode>, blocks: seq<Block>,
                                i: nat, src: seq<byte>, off: nat, tot: nat, w: nat)
  {
    && |inodes0| == |inodes| && i < |inodes|
    && inodes[i].size == (if off <= inodes0[i].size then Max(inodes0[i].size, off + tot) else inodes0[i].size)
    && if off <= inodes0[i].size then WriteiDone(inodes0, blocks0, inodes, blocks, i, src, off, tot, w)
       else tot == 0 && inodes == inodes0 && blocks == blocks0
  }

  lemma NothingWritten(inodes: seq<Dinode>, blocks: seq<Block>, i: nat, src: seq<byte>, off: nat)
    requires i < |inodes| && off <= inodes[i].size
    requires forall j :: 0 <= j < |inodes| ==> InodeOk(inodes[j], blocks)
    ensures WriteiDone(inodes, blocks, inodes, blocks, i, src, off, 0, 0)
  {
    var c := Contents(inodes[i], blocks);
    assert Splice(c, off, src[..0]) == c;
  }

  lemma SpliceCompose(c: seq<byte>, off: nat, a: seq<byte>, b: seq<byte>)
    requires off <= |c|
    ensures Splice(Splice(c, off, a), off + |a|, b) == Splice(c, off, a + b)
  {
  }

  /** A write that continues where a complete one stopped is one longer write. */
  lemma WritesCompose(inodes0: seq<Dinode>, blocks0: seq<Block>, inodes1: seq<Dinode>, blocks1: seq<Block>,
                      inodes2: seq<Dinode>, blocks2: seq<Block>, i: nat, src: seq<byte>, off: nat,
                      done: nat, piece: seq<byte>, r: nat, w1: nat)
    requires WriteiDone(inodes0, blocks0, inodes1, blocks1, i, src, off, done, done)
    requires WriteiDone(inodes1, blocks1, inodes2, blocks2, i, piece, off + done, r, w1)
    requires done + |piece| <= |src| && piece == src[done..done + |piece|]
    ensures WriteiDone(inodes0, blocks0, inodes2, blocks2, i, src, off, done + r, done + w1)
  {
    var c0, c1 := Contents(inodes0[i], blocks0), Contents(inodes1[i], blocks1);
    var s1 := Splice(c0, off, src[..done]);
    assert |s1| == Max(|c0|, off + done) && s1[..|s1|] == s1;
    assert c1 == s1;
    SpliceCompose(c0, off, src[..done], piece[..w1]);
    assert src[..done] + piece[..w1] == src[..done + w1];
  }

  ghost predicate OpDone(inodes0: seq<Dinode>, blocks0: seq<Block>, inodes: seq<Dinode>, blocks: seq<Block>,
                         i: nat, src: seq<byte>, off: nat, r: int, w: nat)
  {
    if r >= 0 then WriteiDone(inodes0, blocks0, inodes, blocks, i, src, off, r, w)
    else inodes == inodes0 && blocks == blocks0
  }

  lemma FilewriteStep(inodes0: seq<Dinode>, blocks0: seq<Block>, inodes1: seq<Dinode>, blocks1: seq<Block>,
                      inodes2: seq<Dinode>, blocks2: seq<Block>, i: nat, src: seq<byte>, off: nat,
                      done: nat, piece: seq<byte>, off1: nat, r: int, w1: nat, tot: nat, w: nat)
    requires off1 == off + done
    requires tot == (if r > 0 then done + r else done) && w == (if r >= 0 then done + w1 else done)
    requires FilewriteDone(inodes0, blocks0, inodes1, blocks1, i, src, off, done, done)
    requires done + |piece| <= |src| && piece == src[done..done + |piece|]
    requires OpDone(inodes1, blocks1, inodes2, blocks2, i, piece, off1, r, w1)
    ensures |inodes2| == |inodes0| && inodes2[i].kind == inodes0[i].kind
    ensures FilewriteDone(inodes0, blocks0, inodes2, blocks2, i, src, off, tot, w)
  {
    if r >= 0 {
      WritesCompose(inodes0, blocks0, inodes1, blocks1, inodes2, blocks2, i, src, off, done, piece, r, w1);
    }
  }

  /** Block consistency: each block is referred to once or free, and the bitmap says which. */
  ghost predicate BlocksSound(sb: Superblock, s: Snapshot, used: seq<bool>, owner: Owner) {
    && |s.blocks| == |used| == sb.size <= UINT_LIMIT && 0 < sb.nmeta && |s.dinodes| == sb.ninodes
    && Represents(s.bitmap, used) && Refs(s.dinodes, s.blocks, owner) && Accounted(used, sb.nmeta, owner, {})
  }

  /** And no holes: what the kernel needs of a disk to mount it. */
  ghost predicate Sound(sb: Superblock, s: Snapshot, used: seq<bool>, owner: Owner) {
    && BlocksSound(sb, s, used, owner)
    && forall i :: 0 <= i < |s.dinodes| ==> InodeOk(s.dinodes[i], s.blocks)
  }

  ghost predicate Consistent(sb: Superblock, s: Snapshot) {
    exists used: seq<bool>, owner: Owner :: Sound(sb, s, used, owner)
  }

  class FileSystem {
    const sb: Superblock
    var bitmap: seq<bv8>
    var dinodes: seq<Dinode>  // the inode blocks
    var inodes: seq<Dinode>   // the in-memory copies
    var blocks: seq<Block>
    ghost var used: seq<bool>
    ghost var owner: Owner
    ghost var start: Snapshot   // the disk at the last begin_op
    ghost var logged: set<nat>  // blocks given to log_write since then

    ghost predicate Shape()
      reads this
    {
      && |blocks| == |used| == sb.size <= UINT_LIMIT && 0 < sb.nmeta
      && |inodes| == |dinodes| == sb.ninodes
      && Represents(bitmap, used) && Covered(sb, start, bitmap, dinodes, blocks, logged)
    }

    /** Block consistency, with `extra` allocated or detached by the running operation. */
    ghost predicate Blocks(extra: set<nat>)
      reads this
    {
      Shape() && Refs(inodes, blocks, owner) && Accounted(used, sb.nmeta, owner, extra)
    }

    ghost predicate Files()
      reads this
    {
      forall i :: 0 <= i < |inodes| ==> InodeOk(inodes[i], blocks)
    }

    /** What holds between operations: block consistency, no holes below any size, and every change to
        an in-memory inode written back. */
    ghost predicate Valid()
      reads this
    {
      Blocks({}) && Files() && inodes == dinodes
    }

    /** The file system on a disk whose blocks are consistent, valid if its files have no holes. */
    constructor (sb: Superblock, bitmap: seq<bv8>, dinodes: seq<Dinode>, blocks: seq<Block>, ghost used: seq<bool>, ghost owner: Owner)
      requires BlocksSound(sb, Snapshot(bitmap, dinodes, blocks), used, owner)
      ensures Blocks({}) && inodes == dinodes && this.used == used
      ensures (forall i :: 0 <= i < |dinodes| ==> InodeOk(dinodes[i], blocks)) ==> Valid()
      ensures this.sb == sb && this.dinodes == dinodes && this.blocks == blocks && this.bitmap == bitmap
      ensures start == Snapshot(bitmap, dinodes, blocks) && logged == {}
    {
      this.sb, this.bitmap, this.dinodes, this.inodes, this.blocks := sb, bitmap, dinodes, dinodes, blocks;
      this.used, this.owner, this.logged, this.start := used, owner, {}, Snapshot(bitmap, dinodes, blocks);
    }

    /** begin_op, as far as it concerns what is logged. */
    ghost method Begin()
      requires Valid()
      modifies this`start, this`logged
      ensures Valid() && start == Snapshot(bitmap, dinodes, blocks) && logged == {}
    {
      start, logged := Snapshot(bitmap, dinodes, blocks), {};
    }

    /** balloc: the lowest free block, zeroed, or 0 when every block is in use. */
    method Balloc() returns (r: nat)
      requires Shape() && forall b :: 0 <= b < sb.nmeta && b < sb.size ==> used[b]
      modifies this`bitmap, this`used, this`blocks, this`logged
      ensures Shape()
      ensures r == 0 <==> forall c :: 0 <= c < sb.size ==> old(used)[c]
      ensures r == 0 ==> used == old(used) && blocks == old(blocks) && logged == old(logged)
      ensures r != 0 ==> sb.nmeta <= r < sb.size && !old(used)[r] && forall c :: 0 <= c < r ==> old(used)[c]
      ensures r != 0 ==> used == old(used)[r := true] && blocks == old(blocks)[r := Zeroes()]
      ensures r != 0 ==> logged == old(logged) + {Bblock(sb, r), r}
    {
      hide Covered;
      var b := 0;
      while b < sb.size
        invariant forall c :: 0 <= c < b && c < sb.size ==> used[c]
      {
        var bi := 0;
        while bi < BPB && b + bi < sb.size
          invariant 0 <= bi <= BPB && (bi > 0 ==> b + bi <= sb.size)
          invariant forall c :: 0 <= c < b + bi && c < sb.size ==> used[c]
        {
          if !Bit(bitmap, b + bi) {
            r := b + bi;
            SetRepresents(bitmap, used, r);
            CoveredSet(sb, start, bitmap, dinodes, blocks, logged, r);
            bitmap := SetBit(bitmap, r);
            used := used[r := true];
            logged := logged + {Bblock(sb, r)};
            Bzero(r);
            return;
          }
          bi := bi + 1;
        }
        b := b + BPB;
      }
      r := 0;
    }

    method Bzero(b: nat)
      requires b < |blocks| && Covered(sb, start, bitmap, dinodes, blocks, logged)
      modifies this`blocks, this`logged
      ensures blocks == old(blocks)[b := Zeroes()] && logged == old(logged) + {b}
      ensures Covered(sb, start, bitmap, dinodes, blocks, logged)
    {
      CoveredBlock(sb, start, bitmap, dinodes, blocks, logged, b, Zeroes());
      blocks := blocks[b := Zeroes()];
      logged := logged + {b};
    }

    /** bfree. Its panic, on a block that is free already, is the precondition every caller meets. */
    method Bfree(b: nat)
      requires Shape() && b < sb.size && used[b]
      modifies this`bitmap, this`used, this`logged
      ensures Shape() && used == old(used)[b := false] && logged == old(logged) + {Bblock(sb, b)}
    {
      assert Bit(bitmap, b);
      ClearRepresents(bitmap, used, b);
      CoveredSet(sb, start, bitmap, dinodes, blocks, logged, b);
      bitmap := ClearBit(bitmap, b);
      used := used[b := false];
      logged := logged + {Bblock(sb, b)};
    }

    /** The use of one of ip->addrs[] in bmap: fetch the block number, allocating if it is zero. */
    method BmapAddr(i: nat, s: nat) returns (addr: nat)
      requires Blocks({}) && i < |inodes| && s <= NDIRECT
      modifies this`bitmap, this`used, this`blocks, this`inodes, this`owner, this`logged
      ensures Blocks({})
      ensures Grows(old(inodes), old(blocks), old(owner), inodes, blocks, i)
      ensures addr == inodes[i].addrs[s]
      ensures old(inodes)[i].addrs[s] != 0 || addr == 0 ==>
                Same(old(inodes), old(blocks), old(used), old(owner), old(logged))
      ensures addr == 0 ==> forall c :: 0 <= c < sb.size ==> used[c]
      ensures MayLog(sb, old(logged), logged, {addr})
      ensures old(inodes)[i].addrs[s] == 0 && addr != 0 ==> addr in logged
    {
      addr := inodes[i].addrs[s];
      if addr == 0 {
        addr := Balloc();
        if addr == 0 { return; }
        AllocAddr(inodes, old(blocks), owner, old(used), sb.nmeta, i, s, addr);
        inodes := inodes[i := SetAddr(inodes[i], s, addr)];
        owner := owner[addr := (i, s)];
      }
    }

    /** The use of one entry of the indirect block in bmap. */
    method BmapEntry(i: nat, e: nat) returns (addr: nat)
      requires Blocks({}) && i < |inodes| && e < NINDIRECT && inodes[i].addrs[NDIRECT] != 0
      modifies this`bitmap, this`used, this`blocks, this`owner, this`logged
      ensures Blocks({})
      ensures Grows(old(inodes), old(blocks), old(owner), inodes, blocks, i)
      ensures addr == Slot(inodes[i], blocks, NDIRECT + 1 + e)
      ensures old(Slot(inodes[i], blocks, NDIRECT + 1 + e)) != 0 || addr == 0 ==>
                Same(inodes, old(blocks), old(used), old(owner), old(logged))
      ensures addr == 0 ==> forall c :: 0 <= c < sb.size ==> used[c]
      ensures MayLog(sb, old(logged), logged, {addr, inodes[i].addrs[NDIRECT]})
    {
      var ind := inodes[i].addrs[NDIRECT];
      assert Slot(inodes[i], blocks, NDIRECT) == ind;
      addr := Word(blocks[ind], e);
      if addr == 0 { addr := NewEntry(i, e); }
    }

    method NewEntry(i: nat, e: nat) returns (addr: nat)
      requires Blocks({}) && i < |inodes| && e < NINDIRECT && inodes[i].addrs[NDIRECT] != 0
      requires Slot(inodes[i], blocks, NDIRECT + 1 + e) == 0
      modifies this`bitmap, this`used, this`blocks, this`owner, this`logged
      ensures Blocks({})
      ensures Grows(inodes, old(blocks), old(owner), inodes, blocks, i)
      ensures addr == Slot(inodes[i], blocks, NDIRECT + 1 + e)
      ensures addr == 0 ==> Same(inodes, old(blocks), old(used), old(owner), old(logged))
      ensures addr == 0 ==> forall c :: 0 <= c < sb.size ==> used[c]
      ensures MayLog(sb, old(logged), logged, {addr, inodes[i].addrs[NDIRECT]})
    {
      hide Covered, Represents, Refs, Accounted;
      MetaUsed(used, sb.nmeta, owner);
      addr := Balloc();
      if addr != 0 {
        AllocEntry(inodes, old(blocks), owner, old(used), sb.nmeta, i, e, addr);
        var ind := inodes[i].addrs[NDIRECT];
        CoveredBlock(sb, start, bitmap, dinodes, blocks, logged, ind, PutWord(blocks[ind], e, addr));
        blocks := blocks[ind := PutWord(blocks[ind], e, addr)];
        owner := owner[addr := (i, NDIRECT + 1 + e)];
        logged := logged + {ind};
      }
    }

    /** bmap: the block of file block bn, allocating it and the indirect block as needed; 0 when the
        disk is full. A block that is there already is returned without any change. */
    method Bmap(i: nat, bn: nat) returns (addr: nat)
      requires Blocks({}) && i < |inodes| && bn < MAXFILE
      modifies this`bitmap, this`used, this`blocks, this`inodes, this`owner, this`logged
      ensures Blocks({})
      ensures Grows(old(inodes), old(blocks), old(owner), inodes, blocks, i)
      ensures addr == Addr(inodes[i], blocks, bn)
      ensures old(Addr(inodes[i], blocks, bn)) != 0 ==>
                Same(old(inodes), old(blocks), old(used), old(owner), old(logged))
      ensures addr == 0 ==> forall c :: 0 <= c < sb.size ==> used[c]
      ensures MayLog(sb, old(logged), logged, {addr, inodes[i].addrs[NDIRECT]})
      ensures bn < NDIRECT && old(Addr(inodes[i], blocks, bn)) == 0 && addr != 0 ==> addr in logged
      ensures bn < NDIRECT && addr == 0 ==> Same(old(inodes), old(blocks), old(used), old(owner), old(logged))
    {
      hide Covered, Refs, Accounted, Represents, Grows, Bitmaps;
      if bn < NDIRECT {
        addr := BmapAddr(i, bn);
        return;
      }
      addr := BmapIndirect(i, bn - NDIRECT);
    }

    /** The indirect half of bmap. */
    method BmapIndirect(i: nat, e: nat) returns (addr: nat)
      requires Blocks({}) && i < |inodes| && e < NINDIRECT
      modifies this`bitmap, this`used, this`blocks, this`inodes, this`owner, this`logged
      ensures Blocks({})
      ensures Grows(old(inodes), old(blocks), old(owner), inodes, blocks, i)
      ensures addr == Slot(inodes[i], blocks, NDIRECT + 1 + e)
      ensures old(Slot(inodes[i], blocks, NDIRECT + 1 + e)) != 0 ==>
                Same(old(inodes), old(blocks), old(used), old(owner), old(logged))
      ensures addr == 0 ==> forall c :: 0 <= c < sb.size ==> used[c]
      ensures MayLog(sb, old(logged), logged, {addr, inodes[i].addrs[NDIRECT]})
    {
      addr := BmapAddr(i, NDIRECT);
      if addr == 0 { return; }
      ghost var inodes1, blocks1, owner1 := inodes, blocks, owner;
      addr := BmapEntry(i, e);
      GrowsTrans(old(inodes), old(blocks), old(owner), inodes1, blocks1, owner1, inodes, blocks, i);
    }

    /** iupdate: the in-memory inode reaches its inode block. */
    method Iupdate(i: nat)
      requires i < |inodes| == |dinodes| && Covered(sb, start, bitmap, dinodes, blocks, logged)
      modifies this`dinodes, this`logged
      ensures dinodes == old(dinodes)[i := inodes[i]] && logged == old(logged) + {Iblock(sb, i)}
      ensures Covered(sb, start, bitmap, dinodes, blocks, logged)
    {
      CoveredInode(sb, start, bitmap, dinodes, blocks, logged, i, inodes[i]);
      dinodes := dinodes[i := inodes[i]];
      logged := logged + {Iblock(sb, i)};
    }

    /** Everything a reader can see, and everything the operations maintain, is as in the values given. */
    /** The disk is full. */
    ghost predicate AllUsed()
      requires |used| == sb.size
      reads this
    {
      forall c :: 0 <= c < sb.size ==> used[c]
    }

    ghost predicate Same(i0: seq<Dinode>, b0: seq<Block>, u0: seq<bool>, o0: Owner, l0: set<nat>)
      reads this
    {
      inodes == i0 && blocks == b0 && used == u0 && owner == o0 && logged == l0
    }

    /** bmap and bread for m bytes of one existing file block. */
    method ReadOne(i: nat, off: nat, m: nat, ghost c: seq<byte>) returns (piece: seq<byte>)
      requires Blocks({}) && i < |inodes| && InodeOk(inodes[i], blocks) && 0 < m && off % BSIZE + m <= BSIZE
      requires c == Contents(inodes[i], blocks) && off + m <= |c|
      modifies this`bitmap, this`used, this`blocks, this`inodes, this`owner, this`logged
      ensures Blocks({}) && Same(old(inodes), old(blocks), old(used), old(owner), old(logged))
      ensures |piece| == m && piece == c[off..off + m]
    {
      assert off / BSIZE * BSIZE < inodes[i].size;
      var addr := Bmap(i, off / BSIZE);
      assert Slot(inodes[i], blocks, SlotOf(off / BSIZE)) == addr;
      ReadChunk(inodes[i], blocks, off, m);
      piece := blocks[addr][off % BSIZE..off % BSIZE + m];
    }

    /** readi into a destination that takes `room` bytes before a copy fails. It delivers the matching
        slice of the contents, and returns -1 when the destination is too small for it, and it never
        changes anything: below the size bmap always finds a block, so nothing is allocated. */
    method Readi(i: nat, off0: nat, n0: nat, room: nat) returns (r: int, data: seq<byte>)
      requires Valid() && i < |inodes| && off0 < UINT_LIMIT && n0 < UINT_LIMIT
      modifies this`bitmap, this`used, this`blocks, this`inodes, this`owner, this`logged
      ensures Valid() && Same(old(inodes), old(blocks), old(used), old(owner), old(logged))
      ensures var size := inodes[i].size;
              if off0 > size || off0 + n0 >= UINT_LIMIT then r == 0 && data == []
              else var n := if off0 + n0 > size then size - off0 else n0;
                if n <= room then r == n && data == Contents(inodes[i], blocks)[off0..off0 + n]
                else r == -1 && data == Contents(inodes[i], blocks)[off0..off0 + room]
    {
      var off, n := off0, n0;
      if off > inodes[i].size || (off + n) % UINT_LIMIT < off { return 0, []; }
      if off + n > inodes[i].size { n := inodes[i].size - off; }
      r, data := ReadLoop(i, off, n, room, Contents(inodes[i], blocks));
    }

    /** The loop of readi; the range is inside the file. */
    method ReadLoop(i: nat, off0: nat, n: nat, room: nat, ghost c: seq<byte>) returns (r: int, data: seq<byte>)
      requires Blocks({}) && i < |inodes| && InodeOk(inodes[i], blocks)
      requires c == Contents(inodes[i], blocks) && off0 + n <= |c|
      modifies this`bitmap, this`used, this`blocks, this`inodes, this`owner, this`logged
      ensures Blocks({}) && Same(old(inodes), old(blocks), old(used), old(owner), old(logged))
      ensures if n <= room then r == n && data == c[off0..off0 + n] else r == -1 && data == c[off0..off0 + room]
    {
      hide Covered, Refs, Accounted, Represents, InodeOk, Contents;
      var off := off0;
      data := [];
      var tot := 0;
      while tot < n
        invariant Blocks({}) && Same(old(inodes), old(blocks), old(used), old(owner), old(logged))
        invariant 0 <= tot <= n && off == off0 + tot && (n <= room || tot <= room)
        invariant data == c[off0..off]
      {
        var m := Chunk(n - tot, off);
        var piece := ReadOne(i, off, m, c);
        if tot + m > room { return -1, data + piece[..room - tot]; }
        data := data + piece;
        tot, off := tot + m, off + m;
      }
      r := tot;
    }

    /** bmap inside writei: what has been written so far stays written. */
    method WriteMap(i: nat, bn: nat, ghost job: Job) returns (addr: nat)
      requires Blocks({}) && Progress(sb, job, inodes, blocks, logged, i)
      requires job.lo <= bn < job.hi
      modifies this`bitmap, this`used, this`blocks, this`inodes, this`owner, this`logged
      ensures Blocks({}) && Progress(sb, job, inodes, blocks, logged, i)
      ensures addr == Addr(inodes[i], blocks, bn)
      ensures addr == 0 ==> forall c :: 0 <= c < sb.size ==> used[c]
    {
      addr := Bmap(i, bn);
      ProgressGrows(sb, job, old(inodes), old(blocks), old(owner), old(logged), inodes, blocks, logged, i, bn);
    }

    /** The copy and log_write of one chunk. */
    method WriteChunk(i: nat, addr: nat, off: nat, data: seq<byte>, ghost job: Job) returns (ghost job': Job)
      requires Blocks({}) && Progress(sb, job, inodes, blocks, logged, i)
      requires off == job.off + job.t && off % BSIZE + |data| <= BSIZE && job.lo <= off / BSIZE < job.hi
      requires job.t + |data| <= |job.src| && data == job.src[job.t..job.t + |data|]
      requires off + |data| <= MAXFILE * BSIZE
      requires addr != 0 && addr == Addr(inodes[i], blocks, off / BSIZE)
      modifies this`blocks, this`logged
      ensures job' == job.(t := job.t + |data|)
      ensures Blocks({}) && Progress(sb, job', inodes, blocks, logged, i)
    {
      ProgressPatch(sb, job, inodes, blocks, owner, logged, i, off, data);
      job' := job.(t := job.t + |data|);
      CoveredBlock(sb, start, bitmap, dinodes, blocks, logged, addr, Patch(blocks[addr], off % BSIZE, data));
      blocks := blocks[addr := Patch(blocks[addr], off % BSIZE, data)];
      logged := logged + {addr};
    }

    /** One pass of the loop in writei: `more` is false when it breaks off. */
    method WriteStep(i: nat, src: seq<byte>, off: nat, left: nat, tot: nat, ghost job: Job)
      returns (m: nat, more: bool, ghost job': Job)
      requires Blocks({}) && Progress(sb, job, inodes, blocks, logged, i)
      requires job.src == src && job.t == tot && off == job.off + tot && 0 < left && |src| <= tot + left
      requires off + left <= MAXFILE * BSIZE && off + left <= job.hi * BSIZE && job.lo <= off / BSIZE
      modifies this`bitmap, this`used, this`blocks, this`inodes, this`owner, this`logged
      ensures Blocks({}) && job' == job.(t := job'.t) && Progress(sb, job', inodes, blocks, logged, i)
      ensures 0 < m <= left
      ensures more ==> job'.t == tot + m
      ensures !more ==> tot <= job'.t && (job'.t == |src| < tot + Chunk(left, off) || (job'.t == tot && AllUsed()))
    {
      hide Covered, Refs, Accounted, Represents, MayLog, Touched, FileByte, Addr;
      m, more, job' := Chunk(left, off), false, job;
      var addr := WriteMap(i, off / BSIZE, job);
      if addr == 0 { return; }
      if tot + m > |src| {
        job' := WriteChunk(i, addr, off, src[tot..], job);
        return;
      }
      job' := WriteChunk(i, addr, off, src[tot..tot + m], job);
      more := true;
    }

    /** The loop of writei, for a source of which |src| of the n bytes are read before a copy fails. It
        stops early only when the disk is full or the copy fails; a failed copy has moved what it could. */
    method WriteLoop(i: nat, src: seq<byte>, off0: nat, n: nat, ghost job0: Job)
      returns (tot: nat, ghost job: Job)
      requires Blocks({}) && i < |inodes| && |src| <= n && off0 + n <= MAXFILE * BSIZE
      requires job0.src == src && job0.off == off0 && job0.t == 0
      requires job0.lo == off0 / BSIZE && job0.hi <= MAXFILE && off0 + n <= job0.hi * BSIZE
      requires Progress(sb, job0, inodes, blocks, logged, i)
      modifies this`bitmap, this`used, this`blocks, this`inodes, this`owner, this`logged
      ensures Blocks({}) && job == job0.(t := job.t) && Progress(sb, job, inodes, blocks, logged, i)
      ensures tot <= job.t && tot <= n && (tot == n ==> job.t == n)
      ensures tot < n ==> job.t == |src| < tot + Chunk(n - tot, off0 + tot) || (job.t == tot && AllUsed())
    {
      var off := off0;
      job, tot := job0, 0;
      while tot < n
        invariant 0 <= tot <= n && off == off0 + tot
        invariant Blocks({}) && i < |inodes|
        invariant job == job0.(t := tot) && tot <= |src|
        invariant Progress(sb, job, inodes, blocks, logged, i)
      {
        var m, more;
        m, more, job := WriteStep(i, src, off, n - tot, tot, job);
        if !more { break; }
        tot, off := tot + m, off + m;
      }
    }

    /** writei: with off inside the file and room below the maximum file size, the file gets the first
        r bytes of the source at off, no other file changes, and the consistency of the disk is kept even
        when it runs full. Short counts happen only then, or when the source cannot be read: then all
        that could be read (w == |src|) stands in the blocks, below the size or not. */
    method Writei(i: nat, src: seq<byte>, off: nat, n: nat) returns (r: int, ghost w: nat)
      requires Valid() && i < |inodes| && inodes[i].kind != 0
      requires off < UINT_LIMIT && n < UINT_LIMIT && |src| <= n
      modifies this`bitmap, this`used, this`blocks, this`inodes, this`dinodes, this`owner, this`logged
      ensures Valid()
      ensures r == -1 <==> off > old(inodes)[i].size || off + n > MAXFILE * BSIZE
      ensures r == -1 ==> inodes == old(inodes) && blocks == old(blocks) && logged == old(logged)
      ensures r >= -1 && r <= n
      ensures r >= 0 ==> WriteiDone(old(inodes), old(blocks), inodes, blocks, i, src, off, r, w)
      ensures r == n ==> w == n
      ensures 0 <= r < n ==> w == |src| < r + Chunk(n - r, off + r) || (w == r && AllUsed())
      ensures r >= 0 ==> MayLog(sb, old(logged) + {Iblock(sb, i)}, logged,
                                Touched(inodes[i], blocks, off / BSIZE, LastBlock(off, n)))
    {
      hide Covered, Refs, Accounted, Represents, WriteiDone, MayLog, Touched;
      w := 0;
      if off > inodes[i].size || (off + n) % UINT_LIMIT < off { return -1, 0; }
      if off + n > MAXFILE * BSIZE { return -1, 0; }
      ghost var job := Job(inodes, blocks, logged, src, off, 0, off / BSIZE, LastBlock(off, n));
      var tot;
      tot, job := WriteLoop(i, src, off, n, job);
      w, r := job.t, tot;
      WriteFinish(i, off, tot, job);
    }

    /** The end of writei: the new size, and the inode written back. */
    method WriteFinish(i: nat, off: nat, tot: nat, ghost job: Job)
      requires Blocks({}) && Progress(sb, job, inodes, blocks, logged, i)
      requires tot <= job.t && off == job.off && dinodes == job.inodes0
      requires forall j :: 0 <= j < |job.inodes0| ==> InodeOk(job.inodes0[j], job.blocks0)
      requires off <= job.inodes0[i].size && job.inodes0[i].kind != 0
      modifies this`inodes, this`dinodes, this`logged
      ensures Valid()
      ensures WriteiDone(job.inodes0, job.blocks0, inodes, blocks, i, job.src, off, tot, job.t)
      ensures MayLog(sb, job.logged0 + {Iblock(sb, i)}, logged, Touched(inodes[i], blocks, job.lo, job.hi))
    {
      WriteiFiles(job.inodes0, job.blocks0, inodes, blocks, i, job.src, off, tot, job.t);
      if off + tot > inodes[i].size { inodes := inodes[i := inodes[i].(size := off + tot)]; }
      SizeKeepsRefs(old(inodes), inodes, blocks, owner);
      TouchedSame(old(inodes)[i], inodes[i], blocks, blocks, job.lo, job.hi);
      Iupdate(i);
    }

    /** The first loop of itrunc, one direct slot. */
    method FreeDirect(i: nat, s: nat)
      requires Blocks({}) && i < |inodes| && s < NDIRECT
      modifies this`bitmap, this`used, this`inodes, this`owner, this`logged
      ensures Blocks({}) && inodes == old(inodes)[i := SetAddr(old(inodes)[i], s, 0)]
      ensures owner == old(owner) - {old(inodes)[i].addrs[s]}
      ensures MayLog(sb, old(logged), logged, {})
    {
      hide Covered, Represents;
      var b := inodes[i].addrs[s];
      if b != 0 {
        FreedDirect(inodes, blocks, owner, used, sb.nmeta, i, s);
        Bfree(b);
        inodes := inodes[i := SetAddr(inodes[i], s, 0)];
        owner := owner - {b};
      } else {
        assert 0 !in owner && owner - {0} == owner;
        assert SetAddr(inodes[i], s, 0) == inodes[i];
      }
    }

    /** The loop of itrunc over the entries of the indirect block. */
    method FreeEntries(i: nat, ind: nat, ghost left: Owner)
      requires Blocks({}) && i < |inodes| && ind == inodes[i].addrs[NDIRECT] != 0
      requires left == owner - Indirect(owner, i)
      modifies this`bitmap, this`used, this`logged
      ensures Shape() && Accounted(used, sb.nmeta, left, {ind})
      ensures MayLog(sb, old(logged), logged, {})
    {
      hide Accounted, Listed, Represents, Covered;
      assert Slot(inodes[i], blocks, NDIRECT) == ind;
      AllListed(inodes, blocks, owner, used, sb.nmeta, i);
      var j := 0;
      while j < NINDIRECT
        invariant 0 <= j <= NINDIRECT && Shape()
        invariant Accounted(used, sb.nmeta, left, Listed(owner, i, j))
        invariant MayLog(sb, old(logged), logged, {})
        modifies this`bitmap, this`used, this`logged
      {
        FreeEntry(i, ind, j, left);
        j := j + 1;
      }
      ListedLast(inodes, blocks, owner, i);
    }

    method FreeEntry(i: nat, ind: nat, j: nat, ghost left: Owner)
      requires Shape() && Refs(inodes, blocks, owner) && i < |inodes| && 0 < ind == inodes[i].addrs[NDIRECT] < |blocks| && j < NINDIRECT
      requires left == owner - Indirect(owner, i) && Accounted(used, sb.nmeta, left, Listed(owner, i, j))
      modifies this`bitmap, this`used, this`logged
      ensures Shape() && Accounted(used, sb.nmeta, left, Listed(owner, i, j + 1))
      ensures MayLog(sb, old(logged), logged, {})
    {
      ListedNext(inodes, blocks, owner, i, j);
      hide Refs, Listed, Represents, Slot, Covered;
      var b := Word(blocks[ind], j);
      if b != 0 { Bfree(b); }
    }

    /** The second half of itrunc: the blocks listed in the indirect block, then that block. */
    method FreeIndirect(i: nat)
      requires Blocks({}) && i < |inodes| && inodes[i].addrs[NDIRECT] != 0
      modifies this`bitmap, this`used, this`inodes, this`owner, this`logged
      ensures Blocks({}) && inodes == old(inodes)[i := SetAddr(old(inodes)[i], NDIRECT, 0)]
      ensures owner == old(owner) - Indirect(old(owner), i)
      ensures MayLog(sb, old(logged), logged, {})
    {
      var ind := inodes[i].addrs[NDIRECT];
      ghost var left := owner - Indirect(owner, i);
      DetachIndirect(inodes, blocks, owner, i);
      FreeEntries(i, ind, left);
      Bfree(ind);
      inodes := inodes[i := SetAddr(inodes[i], NDIRECT, 0)];
      owner := left;
    }

    /** The loop of itrunc over the direct blocks. */
    method FreeAllDirect(i: nat)
      requires Blocks({}) && i < |inodes|
      modifies this`bitmap, this`used, this`inodes, this`owner, this`logged
      ensures Blocks({}) && Shrunk(old(inodes), old(owner), inodes, owner, i)
      ensures forall t :: 0 <= t < NDIRECT ==> inodes[i].addrs[t] == 0
      ensures MayLog(sb, old(logged), logged, {})
    {
      hide Refs, Accounted, Represents;
      var s := 0;
      while s < NDIRECT
        invariant 0 <= s <= NDIRECT && Blocks({}) && Shrunk(old(inodes), old(owner), inodes, owner, i)
        invariant forall t :: 0 <= t < s ==> inodes[i].addrs[t] == 0
        invariant MayLog(sb, old(logged), logged, {})
        modifies this`bitmap, this`used, this`inodes, this`owner, this`logged
      {
        ShrunkNext(old(inodes), old(owner), inodes, blocks, owner, i, s);
        FreeDirect(i, s);
        s := s + 1;
      }
    }

    /** itrunc: every block the file had is free again, nothing else changes, and "freeing free block"
        is unreachable. */
    method Itrunc(i: nat)
      requires Blocks({}) && i < |inodes| && |dinodes| == |inodes|
      modifies this`bitmap, this`used, this`inodes, this`dinodes, this`owner, this`logged
      ensures Blocks({})
      ensures inodes == old(inodes)[i := old(inodes)[i].(size := 0, addrs := NO_ADDRS)]
      ensures dinodes == old(dinodes)[i := inodes[i]]
      ensures MayLog(sb, old(logged) + {Iblock(sb, i)}, logged, {})
      ensures owner == old(owner) - OwnedBy(old(owner), i)
    {
      FreeAllDirect(i);
      if inodes[i].addrs[NDIRECT] != 0 { FreeIndirect(i); }
      NothingOwned(inodes, blocks, owner, i);
      ShrunkToNothing(old(inodes), old(owner), inodes, owner, i);
      ghost var inodes1 := inodes;
      inodes := inodes[i := inodes[i].(size := 0)];
      SizeKeepsRefs(inodes1, inodes, blocks, owner);
      Iupdate(i);
    }

    /** ialloc: the lowest free inode number above 0, marked allocated with everything else zero, or 0
        when there is none. */
    method Ialloc(kind: nat) returns (inum: nat)
      requires Valid() && kind != 0
      modifies this`inodes, this`dinodes, this`logged
      ensures Valid()
      ensures inum == 0 <==> forall k :: 1 <= k < sb.ninodes ==> old(dinodes)[k].kind != 0
      ensures inum == 0 ==> inodes == old(inodes)
      ensures inum != 0 ==> inum < sb.ninodes && old(dinodes)[inum].kind == 0
      ensures inum != 0 ==> forall k :: 1 <= k < inum ==> old(dinodes)[k].kind != 0
      ensures inum != 0 ==> inodes == old(inodes)[inum := FREE_DINODE.(kind := kind)]
    {
      inum := 1;
      while inum < sb.ninodes
        invariant 1 <= inum && forall k :: 1 <= k < inum && k < sb.ninodes ==> dinodes[k].kind != 0
      {
        if dinodes[inum].kind == 0 {
          assert InodeOk(inodes[inum], blocks);
          FreshInodeOk(blocks, kind);
          CoveredInode(sb, start, bitmap, dinodes, blocks, logged, inum, FREE_DINODE.(kind := kind));
          dinodes := dinodes[inum := FREE_DINODE.(kind := kind)];
          logged := logged + {Iblock(sb, inum)};
          inodes := inodes[inum := dinodes[inum]];
          SizeKeepsRefs(old(inodes), inodes, blocks, owner);
          return;
        }
        inum := inum + 1;
      }
      inum := 0;
    }

    /** The last iput of an unlinked inode: itrunc, then ifree. The inode is free, its blocks are free,
        and every other file is as it was. */
    method IputLast(i: nat)
      requires Valid() && i < |inodes|
      modifies this`bitmap, this`used, this`inodes, this`dinodes, this`owner, this`logged
      ensures Valid()
      ensures inodes == old(inodes)[i := old(inodes)[i].(kind := 0, size := 0, addrs := NO_ADDRS)]
      ensures owner == old(owner) - OwnedBy(old(owner), i)
      ensures MayLog(sb, old(logged) + {Iblock(sb, i)}, logged, {})
    {
      ghost var inodes0 := inodes;
      Itrunc(i);
      ghost var inodes1 := inodes;
      CoveredInode(sb, start, bitmap, dinodes, blocks, logged, i, dinodes[i].(kind := 0));
      dinodes := dinodes[i := dinodes[i].(kind := 0)];
      logged := logged + {Iblock(sb, i)};
      inodes := inodes[i := dinodes[i]];
      SizeKeepsRefs(inodes1, inodes, blocks, owner);
      FreshInodeOk(blocks, 0);
      FreedInodeOk(inodes[i], blocks);
      assert forall j :: 0 <= j < |inodes| && j != i ==> inodes[j] == inodes0[j];
    }

    /** ireclaim after recovery: no allocated inode without links is left, and every inode that has
        links, or was free, is untouched. */
    method Ireclaim()
      requires Valid()
      modifies this`bitmap, this`used, this`inodes, this`dinodes, this`owner, this`logged
      ensures Valid()
      ensures forall k :: 1 <= k < sb.ninodes ==> inodes[k].kind != 0 ==> inodes[k].nlink != 0
      ensures forall k :: 1 <= k < sb.ninodes && (old(inodes)[k].nlink != 0 || old(inodes)[k].kind == 0) ==>
                inodes[k] == old(inodes)[k]
      ensures forall k :: 1 <= k < sb.ninodes && old(inodes)[k].nlink == 0 ==> inodes[k].kind == 0
    {
      var inum := 1;
      while inum < sb.ninodes
        invariant 1 <= inum && Valid()
        invariant forall k :: 0 <= k < sb.ninodes && (k == 0 || inum <= k) ==> inodes[k] == old(inodes)[k]
        invariant forall k :: 1 <= k < inum && k < sb.ninodes ==>
                    if old(inodes)[k].kind != 0 && old(inodes)[k].nlink == 0 then inodes[k].kind == 0
                    else inodes[k] == old(inodes)[k]
      {
        if dinodes[inum].kind != 0 && dinodes[inum].nlink == 0 { IputLast(inum); }
        inum := inum + 1;
      }
    }

    /** Block consistency in the terms of the source: a bit is set exactly for a metadata block or a
        block that some inode refers to, no block is referred to twice, and only allocated inodes
        refer to blocks. */
    lemma BitmapExact()
      requires Valid()
      ensures forall b :: 0 <= b < sb.size ==>
                (Bit(bitmap, b) <==> b < sb.nmeta || exists i: nat, s: nat :: RefersTo(dinodes, blocks, i, s, b))
      ensures forall i: nat, s: nat, j: nat, t: nat, b: nat :: RefersTo(dinodes, blocks, i, s, b) && RefersTo(dinodes, blocks, j, t, b) ==>
                i == j && s == t
      ensures forall i: nat, s: nat, b: nat :: RefersTo(dinodes, blocks, i, s, b) ==>
                dinodes[i].kind != 0 && sb.nmeta <= b < sb.size
    {
      forall b | 0 <= b < sb.size
        ensures Bit(bitmap, b) <==> b < sb.nmeta || exists i: nat, s: nat :: RefersTo(dinodes, blocks, i, s, b)
      {
        if b in owner { assert RefersTo(dinodes, blocks, owner[b].0, owner[b].1, b); }
      }
      forall i: nat, s: nat, b: nat | RefersTo(dinodes, blocks, i, s, b) ensures dinodes[i].kind != 0 {
        assert InodeOk(inodes[i], blocks);
      }
    }

    /** filewrite on an inode: one transaction per chunk of at most three blocks' worth of bytes. On a
        disk with a single bitmap block no transaction logs more than 7 blocks, and the chunks
        together write what one write would. */
    method Filewrite(i: nat, src: seq<byte>, off0: nat, n: nat)
      returns (ret: int, off: nat, ghost w: nat, ghost sizes: seq<nat>)
      requires Valid() && i < |inodes| && inodes[i].kind != 0 && |src| <= n < UINT_LIMIT
      requires off0 < UINT_LIMIT
      modifies this`bitmap, this`used, this`blocks, this`inodes, this`dinodes, this`owner, this`logged, this`start
      ensures Valid() && (sb.size <= BPB ==> forall k :: 0 <= k < |sizes| ==> sizes[k] <= 7)
      ensures ret == n || ret == -1
      ensures ret == n ==> n == 0 || (off0 <= old(inodes)[i].size && off0 + n <= MAXFILE * BSIZE && |src| == n)
      ensures ret == -1 ==> off0 > old(inodes)[i].size || off0 + n > MAXFILE * BSIZE || |src| < n || AllUsed()
      ensures off >= off0 && (ret == n ==> off == off0 + n && w == n)
      ensures FilewriteDone(old(inodes), old(blocks), inodes, blocks, i, src, off0, off - off0, w)
    {
      hide Refs, Accounted, Represents, InodeOk, WriteiDone, OpDone;
      ghost var inodes0, blocks0 := inodes, blocks;
      var done := 0;
      off, w, sizes := off0, 0, [];
      if off0 <= inodes[i].size { NothingWritten(inodes, blocks, i, src, off0); }
      while done < n
        invariant 0 <= done <= n && off == off0 + done < UINT_LIMIT && done <= |src| && w == done
        invariant Valid() && i < |inodes| && inodes[i].kind != 0
        invariant done > 0 ==> off0 <= inodes0[i].size && off <= MAXFILE * BSIZE
        invariant sb.size <= BPB ==> forall k :: 0 <= k < |sizes| ==> sizes[k] <= 7
        invariant FilewriteDone(inodes0, blocks0, inodes, blocks, i, src, off0, done, done)
      {
        var n1 := if n - done > CHUNK then CHUNK else n - done;
        var hi := if done + n1 < |src| then done + n1 else |src|;
        var piece := src[done..hi];
        ghost var inodes1, blocks1, off1, w1 := inodes, blocks, off, 0;
        var r;
        r, w1 := FilewriteOp(i, piece, off, n1);
        w := if r >= 0 then done + w1 else done;
        if r > 0 { off := off + r; }
        FilewriteStep(inodes0, blocks0, inodes1, blocks1, inodes, blocks, i, src, off0, done, piece, off1, r, w1,
                      off - off0, w);
        sizes := sizes + [|logged|];
        if r != n1 { break; }
        done := done + r;
      }
      ret := if done == n then n else -1;
    }

    /** One transaction of filewrite, for n bytes of which src can be read. */
    method FilewriteOp(i: nat, src: seq<byte>, off: nat, n: nat) returns (r: int, ghost w: nat)
      requires Valid() && i < |inodes| && inodes[i].kind != 0
      requires off < UINT_LIMIT && 0 < n <= CHUNK && |src| <= n
      modifies this`bitmap, this`used, this`blocks, this`inodes, this`dinodes, this`owner, this`logged, this`start
      ensures start == Snapshot(old(bitmap), old(dinodes), old(blocks))
      ensures Valid() && (sb.size <= BPB ==> |logged| <= 7)
      ensures -1 <= r <= n && OpDone(old(inodes), old(blocks), inodes, blocks, i, src, off, r, w)
      ensures r == n ==> w == n
      ensures r == -1 <==> off > old(inodes)[i].size || off + n > MAXFILE * BSIZE
      ensures 0 <= r < n ==> |src| < n || AllUsed()
      ensures r >= 0 ==> r <= w <= |src|
    {
      Begin();
      r, w := Writei(i, src, off, n);
      if r >= 0 && sb.size <= BPB { ChunkLogs(sb, inodes[i], blocks, logged, i, off, n); }
    }
  }
}
