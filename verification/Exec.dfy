/** kexec() of kernel/exec.c: builds the new image on the side and commits to it at the end. */
module Exec {
  import opened PageTable
  import opened Images
  import opened Vm
  import opened UserMemory
  import opened ProcMemory

  const U64: nat := 0x1_0000_0000_0000_0000
  const U32: nat := 0x1_0000_0000
  const MAXARG: nat := 32
  type u64 = x: nat | x < U64

  /** The fields of struct proghdr that kexec() uses, and whether readi() delivered it at all. */
  datatype Segment = Segment(read: bool, load: bool, vaddr: u64, memsz: u64, filesz: u64, off: u64, x: bool, w: bool)

  /** The new image so far: built under root on pages that were free in mem0, with size sz. */
  ghost predicate Draft(mem0: seq<Page>, own0: seq<Own>, mem: seq<Page>, own: seq<Own>, root: nat, sz: nat, tf: nat) {
    && Private(mem0, own0, mem, own, root) && Image(mem, own, root, sz) && TopsAt(mem, root, tf)
    && 0 < root < |own0| && own0[root].Free?
  }

  /** uvmalloc() extends a full draft. */
  lemma DraftGrew(mem0: seq<Page>, own0: seq<Own>, mem1: seq<Page>, own1: seq<Own>, mem2: seq<Page>, own2: seq<Own>,
                  root: nat, sz: nat, newsz: nat, perm: Perm, tf: nat)
    requires Draft(mem0, own0, mem1, own1, root, sz, tf) && Full(mem1, root, Pages(sz))
    requires sz <= newsz <= USER_LIMIT && perm.u
    requires Grew(mem1, own1, mem2, own2, root, Pages(sz), Pages(newsz), perm)
    ensures Draft(mem0, own0, mem2, own2, root, newsz, tf) && Full(mem2, root, Pages(newsz))
  {
    PrivateBuilt(mem0, own0, mem1, own1, mem2, own2, root);
    BuiltRoot(mem1, own1, mem2, own2, root, root);
    forall v: nat | v < TRAPFRAME
      ensures Lookup(mem2, root, v).v ==> v < Pages(newsz)
      ensures v < Pages(newsz) ==> Lookup(mem2, root, v).v && Lookup(mem2, root, v).perm.u
    {
    }
  }

  /** A failed uvmalloc() leaves the draft as it was. */
  lemma DraftSame(mem0: seq<Page>, own0: seq<Own>, mem1: seq<Page>, own1: seq<Own>, mem2: seq<Page>, own2: seq<Own>,
                  root: nat, sz: nat, tf: nat)
    requires Draft(mem0, own0, mem1, own1, root, sz, tf)
    requires Built(mem1, own1, mem2, own2, root) && MapsKept(mem1, own1, mem2, root, 0, 0)
    ensures Draft(mem0, own0, mem2, own2, root, sz, tf)
  {
    PrivateBuilt(mem0, own0, mem1, own1, mem2, own2, root);
    BuiltRoot(mem1, own1, mem2, own2, root, root);
    forall v: nat | v < MAXVPN ensures Lookup(mem2, root, v) == Lookup(mem1, root, v) { }
  }

  /** Writing bytes into the draft leaves its shape. */
  lemma DraftWritten(mem0: seq<Page>, own0: seq<Own>, mem1: seq<Page>, own1: seq<Own>, mem2: seq<Page>, own2: seq<Own>,
                     root: nat, sz: nat, va: nat, src: seq<byte>, n: nat, tf: nat)
    requires Draft(mem0, own0, mem1, own1, root, sz, tf) && Private(mem1, own1, mem2, own2, root)
    requires n <= |src| && Wrote(mem1, mem2, root, sz, va, src, n) && TreeOk(mem2, own2) && IsRoot(own2, root)
    ensures Draft(mem0, own0, mem2, own2, root, sz, tf)
  {
    PrivateTrans(mem0, own0, mem1, own1, mem2, own2, root);
    forall v: nat | v < TRAPFRAME && Lookup(mem2, root, v).v ensures v < Pages(sz) {
      LookupOwned(mem2, own2, root, v);
      assert CellWritten(CellOf(mem1, root, sz, v), CellOf(mem2, root, sz, v), v, va, src, n);
    }
  }

  /** The bytes of the file from off on. */
  function Rest(file: seq<byte>, off: nat): seq<byte> { if off <= |file| then file[off..] else [] }

  /** loadseg() gets the offset and the size of a segment as 32-bit numbers. */
  function Offset(ph: Segment): nat { ph.off % U32 }

  function Length(ph: Segment): nat { ph.filesz % U32 }

  /** Segment ph puts a byte of the file at address a. */
  predicate Covers(ph: Segment, a: nat) { ph.load && ph.vaddr <= a < ph.vaddr + Length(ph) }

  /** The byte at address a of the program in the first i segments: from the last of them that covers a,
      and zero where none does. */
  function ProgramByte(file: seq<byte>, phs: seq<Segment>, i: nat, a: nat): byte
    requires i <= |phs|
  {
    if i == 0 then 0
    else if !Covers(phs[i - 1], a) then ProgramByte(file, phs, i - 1, a)
    else var src := Rest(file, Offset(phs[i - 1])); if a - phs[i - 1].vaddr < |src| then src[a - phs[i - 1].vaddr] else 0
  }

  /** What the headers themselves name: the byte of the last segment that covers a, by 64-bit offset and size. */
  function HeaderByte(file: seq<byte>, phs: seq<Segment>, i: nat, a: nat): byte
    requires i <= |phs|
  {
    if i == 0 then 0
    else var ph := phs[i - 1];
      if !(ph.load && ph.vaddr <= a < ph.vaddr + ph.filesz) then HeaderByte(file, phs, i - 1, a)
      else if ph.off + (a - ph.vaddr) < |file| then file[ph.off + (a - ph.vaddr)]
      else 0
  }

  /** The file has what every header names. */
  ghost predicate HeadersHold(file: seq<byte>, phs: seq<Segment>) {
    forall k: nat :: k < |phs| && phs[k].load ==> phs[k].filesz <= |Rest(file, phs[k].off)|
  }

  /** The numbers of this header survive the conversion to 32 bits, or nothing is read with them. */
  predicate Narrow(ph: Segment) { ph.load ==> ph.filesz < U32 && (ph.filesz == 0 || ph.off < U32) }

  /** A file of less than 2^32 bytes that satisfied loadseg() has what its headers name exactly if no header is cut. */
  lemma HeadersIff(file: seq<byte>, phs: seq<Segment>)
    requires |file| < U32 && AllLoadable(file, phs)
    ensures HeadersHold(file, phs) <==> forall k: nat :: k < |phs| ==> Narrow(phs[k])
  {
    if forall k: nat :: k < |phs| ==> Narrow(phs[k]) {
      forall k: nat | k < |phs| && phs[k].load ensures phs[k].filesz <= |Rest(file, phs[k].off)| {
        assert Narrow(phs[k]) && Loadable(file, phs, k);
      }
    }
  }

  /** And then what is loaded is what they name. */
  lemma {:induction false} SameProgram(file: seq<byte>, phs: seq<Segment>, i: nat, a: nat)
    requires i <= |phs| && forall k: nat :: k < |phs| ==> Narrow(phs[k])
    ensures ProgramByte(file, phs, i, a) == HeaderByte(file, phs, i, a)
  {
    if i != 0 {
      assert Narrow(phs[i - 1]);
      SameProgram(file, phs, i - 1, a);
    }
  }

  /** A header that names a byte 2^32 bytes into the file passes, and the first byte of the file is loaded for it. */
  lemma CutHeader(file: seq<byte>)
    requires 0 < |file| < U32
    ensures var phs := [Segment(true, true, 0, 1, 1, U32, false, false)];
            && AllLoadable(file, phs) && !HeadersHold(file, phs)
            && ProgramByte(file, phs, 1, 0) == file[0]
  {
    var ph := Segment(true, true, 0, 1, 1, U32, false, false);
    assert Offset(ph) == 0 && Length(ph) == 1 && Rest(file, 0) == file;
    assert [ph][0].load && !([ph][0].filesz <= |Rest(file, [ph][0].off)|);
  }

  /** kexec() has no objection to this header, and the file is long enough for what loadseg() reads. */
  predicate SegmentOk(file: seq<byte>, ph: Segment) {
    ph.read && (ph.load ==> ph.filesz <= ph.memsz && ph.vaddr + ph.memsz < U64 && ph.vaddr % PGSIZE == 0
                            && Length(ph) <= |Rest(file, Offset(ph))|)
  }

  /** The end of the program in the first i segments. */
  function EndOf(phs: seq<Segment>, i: nat): nat
    requires i <= |phs|
  {
    if i == 0 then 0
    else if phs[i - 1].load && phs[i - 1].vaddr + phs[i - 1].memsz > EndOf(phs, i - 1) then phs[i - 1].vaddr + phs[i - 1].memsz
    else EndOf(phs, i - 1)
  }

  /** Nor has it one to header number k as the next: uvmalloc() of nothing to nothing returns 0, which is read as a failure. */
  predicate Loadable(file: seq<byte>, phs: seq<Segment>, k: nat)
    requires k < |phs|
  {
    SegmentOk(file, phs[k]) && (phs[k].load ==> EndOf(phs, k + 1) > 0)
  }

  ghost predicate AllLoadable(file: seq<byte>, phs: seq<Segment>) {
    forall k: nat :: k < |phs| ==> Loadable(file, phs, k)
  }

  lemma {:induction false} EndGrows(phs: seq<Segment>, i: nat, j: nat)
    requires i <= j <= |phs|
    ensures EndOf(phs, i) <= EndOf(phs, j) && Pages(EndOf(phs, i)) <= Pages(EndOf(phs, j))
    decreases j
  {
    if i < j { EndGrows(phs, i, j - 1); }
  }

  /** The first n pages of the image hold the program and can be read. */
  ghost predicate Shows(mem: seq<Page>, root: nat, sz: nat, file: seq<byte>, phs: seq<Segment>, i: nat, n: nat)
    requires i <= |phs|
  {
    forall v: nat, k: nat :: v < n && k < PGSIZE ==> ShowsByte(mem, root, sz, file, phs, i, v, k)
  }

  ghost predicate ShowsByte(mem: seq<Page>, root: nat, sz: nat, file: seq<byte>, phs: seq<Segment>, i: nat, v: nat, k: nat)
    requires i <= |phs| && k < PGSIZE
  {
    PageReadable(mem, root, sz, v) && CellOf(mem, root, sz, v).bytes[k] == ProgramByte(file, phs, i, v * PGSIZE + k)
  }

  /** The first n pages can be accessed as the headers say: a page by the flags of the segment that made the image reach it. */
  ghost predicate Allows(mem: seq<Page>, root: nat, sz: nat, phs: seq<Segment>, i: nat, n: nat)
    requires i <= |phs|
  {
    forall k: nat, v: nat :: k < i && Pages(EndOf(phs, k)) <= v < Pages(EndOf(phs, k + 1)) && v < n ==>
      AllowsPage(CellOf(mem, root, sz, v), phs[k])
  }

  predicate AllowsPage(c: Cell, ph: Segment) { c.Cell? && c.perm.r && c.perm.u && c.perm.w == ph.w && c.perm.x == ph.x }

  /** The first i segments end at or below sz. */
  ghost predicate EndsBelow(phs: seq<Segment>, i: nat, sz: nat)
    requires i <= |phs|
  {
    forall k: nat :: k < i && phs[k].load ==> phs[k].filesz <= phs[k].memsz && phs[k].vaddr + phs[k].memsz <= sz
  }

  lemma {:induction false} ZeroBeyond(file: seq<byte>, phs: seq<Segment>, i: nat, sz: nat, a: nat)
    requires i <= |phs| && EndsBelow(phs, i, sz) && sz <= a
    ensures ProgramByte(file, phs, i, a) == 0
  {
    if i != 0 { ZeroBeyond(file, phs, i - 1, sz, a); }
  }

  /** New pages extend what the image shows by zeroes. */
  lemma ShowsGrew(mem1: seq<Page>, own1: seq<Own>, mem2: seq<Page>, own2: seq<Own>, root: nat, sz: nat, newsz: nat,
                  perm: Perm, file: seq<byte>, phs: seq<Segment>, i: nat)
    requires TreeOk(mem1, own1) && IsRoot(own1, root) && sz <= newsz <= USER_LIMIT && perm.u
    requires Full(mem1, root, Pages(sz)) && Grew(mem1, own1, mem2, own2, root, Pages(sz), Pages(newsz), perm)
    requires i <= |phs| && EndsBelow(phs, i, sz) && Shows(mem1, root, sz, file, phs, i, Pages(sz))
    ensures Shows(mem2, root, newsz, file, phs, i, Pages(newsz))
  {
    forall v: nat, k: nat | v < Pages(newsz) && k < PGSIZE ensures ShowsByte(mem2, root, newsz, file, phs, i, v, k) {
      if v < Pages(sz) {
        OldPage(mem1, own1, mem2, own2, root, sz, newsz, perm, v);
        assert ShowsByte(mem1, root, sz, file, phs, i, v, k);
      } else {
        NewPage(mem1, own1, mem2, own2, root, Pages(sz), Pages(newsz), newsz, perm, v);
        ZeroBeyond(file, phs, i, sz, v * PGSIZE + k);
      }
    }
  }

  lemma OldPage(mem1: seq<Page>, own1: seq<Own>, mem2: seq<Page>, own2: seq<Own>, root: nat, sz: nat, newsz: nat, perm: Perm, v: nat)
    requires TreeOk(mem1, own1) && IsRoot(own1, root) && sz <= newsz <= USER_LIMIT && Full(mem1, root, Pages(sz))
    requires Grew(mem1, own1, mem2, own2, root, Pages(sz), Pages(newsz), perm) && v < Pages(sz)
    ensures CellOf(mem2, root, newsz, v) == CellOf(mem1, root, sz, v)
  {
    UserKept(mem1, own1, mem2, own2, root, root, v);
  }

  lemma NewPage(mem1: seq<Page>, own1: seq<Own>, mem2: seq<Page>, own2: seq<Own>, root: nat, lo: nat, hi: nat, sz: nat, perm: Perm, v: nat)
    requires Grew(mem1, own1, mem2, own2, root, lo, hi, perm) && lo <= v < hi
    ensures CellOf(mem2, root, sz, v) == Cell(perm, Zeroes())
  {
  }

  /** New pages get the flags of their segment. */
  lemma AllowsGrew(mem1: seq<Page>, own1: seq<Own>, mem2: seq<Page>, own2: seq<Own>, root: nat, sz: nat, newsz: nat,
                   phs: seq<Segment>, i: nat)
    requires TreeOk(mem1, own1) && IsRoot(own1, root) && sz <= newsz <= USER_LIMIT && Full(mem1, root, Pages(sz))
    requires i < |phs| && sz == EndOf(phs, i) && newsz == EndOf(phs, i + 1)
    requires Grew(mem1, own1, mem2, own2, root, Pages(sz), Pages(newsz), SegPerm(phs[i]))
    requires Allows(mem1, root, sz, phs, i, Pages(sz))
    ensures Allows(mem2, root, newsz, phs, i + 1, Pages(newsz))
  {
    hide TreeOk, Full, Grew, IsRoot, CellOf, Pages, EndOf;
    forall k: nat, v: nat | k < i + 1 && Pages(EndOf(phs, k)) <= v < Pages(EndOf(phs, k + 1))
      ensures AllowsPage(CellOf(mem2, root, newsz, v), phs[k])
    {
      if k < i {
        EndGrows(phs, k + 1, i);
        assert AllowsPage(CellOf(mem1, root, sz, v), phs[k]);
        OldPage(mem1, own1, mem2, own2, root, sz, newsz, SegPerm(phs[i]), v);
      } else {
        NewPage(mem1, own1, mem2, own2, root, Pages(sz), Pages(newsz), newsz, SegPerm(phs[i]), v);
      }
    }
  }

  lemma AllowsLoaded(mem1: seq<Page>, mem2: seq<Page>, own: seq<Own>, root: nat, sz: nat, va: nat, src: seq<byte>, d: nat,
                     phs: seq<Segment>, i: nat)
    requires i <= |phs| && sz <= USER_LIMIT && Loaded(mem1, mem2, own, root, sz, va, src, d) && Allows(mem1, root, sz, phs, i, Pages(sz))
    ensures Allows(mem2, root, sz, phs, i, Pages(sz))
  {
    forall k: nat, v: nat | k < i && Pages(EndOf(phs, k)) <= v < Pages(EndOf(phs, k + 1)) && v < Pages(sz)
      ensures AllowsPage(CellOf(mem2, root, sz, v), phs[k])
    {
      assert CellWritten(CellOf(mem1, root, sz, v), CellOf(mem2, root, sz, v), v, va, src, d);
    }
  }

  lemma AllowsKept(mem0: seq<Page>, sz0: nat, mem1: seq<Page>, sz1: nat, root: nat, n: nat, phs: seq<Segment>, i: nat)
    requires BelowKept(mem0, sz0, mem1, sz1, root, n) && i <= |phs| && Allows(mem0, root, sz0, phs, i, n)
    ensures Allows(mem1, root, sz1, phs, i, n)
  {
  }

  /** Loading the next segment adds its bytes. */
  lemma ShowsLoaded(mem1: seq<Page>, mem2: seq<Page>, own: seq<Own>, root: nat, sz: nat, file: seq<byte>,
                    phs: seq<Segment>, i: nat)
    requires i < |phs| && phs[i].load && Length(phs[i]) <= |Rest(file, Offset(phs[i]))|
    requires Loaded(mem1, mem2, own, root, sz, phs[i].vaddr, Rest(file, Offset(phs[i])), Length(phs[i]))
    requires sz <= USER_LIMIT && Shows(mem1, root, sz, file, phs, i, Pages(sz))
    ensures Shows(mem2, root, sz, file, phs, i + 1, Pages(sz))
  {
    var src, n := Rest(file, Offset(phs[i])), i + 1;
    forall v: nat, k: nat | v < Pages(sz) && k < PGSIZE ensures ShowsByte(mem2, root, sz, file, phs, n, v, k) {
      assert ShowsByte(mem1, root, sz, file, phs, i, v, k);
      assert CellWritten(CellOf(mem1, root, sz, v), CellOf(mem2, root, sz, v), v, phs[i].vaddr, src, Length(phs[i]));
    }
  }

  /** The first n pages are the same. */
  ghost predicate BelowKept(mem0: seq<Page>, sz0: nat, mem1: seq<Page>, sz1: nat, root: nat, n: nat) {
    forall v: nat :: v < n ==> CellOf(mem1, root, sz1, v) == CellOf(mem0, root, sz0, v)
  }

  lemma ShowsKept(mem0: seq<Page>, sz0: nat, mem1: seq<Page>, sz1: nat, root: nat, n: nat, file: seq<byte>,
                  phs: seq<Segment>, i: nat)
    requires BelowKept(mem0, sz0, mem1, sz1, root, n) && i <= |phs| && Shows(mem0, root, sz0, file, phs, i, n)
    ensures Shows(mem1, root, sz1, file, phs, i, n)
  {
    forall v: nat, k: nat | v < n && k < PGSIZE ensures ShowsByte(mem1, root, sz1, file, phs, i, v, k) {
      assert ShowsByte(mem0, root, sz0, file, phs, i, v, k);
    }
  }

  /** A write at or above va leaves the pages below it. */
  lemma WroteAbove(mem0: seq<Page>, mem1: seq<Page>, root: nat, sz: nat, va: nat, src: seq<byte>, n: nat)
    requires Wrote(mem0, mem1, root, sz, va, src, |src|) && n * PGSIZE <= va && n <= TRAPFRAME
    ensures BelowKept(mem0, sz, mem1, sz, root, n)
  {
    forall v: nat | v < n ensures CellOf(mem1, root, sz, v) == CellOf(mem0, root, sz, v) {
      var c0, c1 := CellOf(mem0, root, sz, v), CellOf(mem1, root, sz, v);
      assert CellWritten(c0, c1, v, va, src, |src|);
      if c0.Cell? { assert c1.bytes == c0.bytes; }
    }
  }

  /** The first d bytes of src are in the draft at va; only bytes of user pages of root changed. */
  ghost predicate Loaded(mem0: seq<Page>, mem: seq<Page>, own: seq<Own>, root: nat, sz: nat, va: nat,
                         src: seq<byte>, d: nat)
  {
    d <= |src| && SameMaps(mem0, own, mem) && Private(mem0, own, mem, own, root) && Wrote(mem0, mem, root, sz, va, src, d)
  }

  lemma LoadedNext(mem0: seq<Page>, mem: seq<Page>, own: seq<Own>, root: nat, sz: nat, va: nat, src: seq<byte>, d: nat,
                   n: nat, v: nat, q: nat)
    requires TreeOk(mem, own) && IsRoot(own, root) && Loaded(mem0, mem, own, root, sz, va, src, d)
    requires va + d == v * PGSIZE && 0 < n <= PGSIZE && d + n <= |src| && Present(mem, root, sz, v, q)
    ensures own[q].User?
    ensures Loaded(mem0, mem[q := Bytes(Put(mem[q].bytes, 0, src[d..d + n]))], own, root, sz, va, src, d + n)
  {
    WroteNext(mem0, mem, own, root, sz, va, src, d, v, 0, n, q);
    var b := Put(mem[q].bytes, 0, src[d..d + n]);
    UserWrite(mem, own, q, b);
    forall x: nat | 0 < x < |own| ensures PagePrivate(mem0[x], own[x], mem[q := Bytes(b)][x], own[x], root) {
      assert PagePrivate(mem0[x], own[x], mem[x], own[x], root);
    }
  }

  /** Copies n bytes of the file into the draft at page boundary va. Every page must be there, or it
      would panic with "address should exist". */
  method Loadseg(m: Memory, root: nat, sz: nat, va: nat, file: seq<byte>, off: nat, n: nat) returns (r: int, ghost d: nat)
    requires m.Valid() && IsRoot(m.own, root) && TopsGuarded(m.mem, root) && va % PGSIZE == 0
    requires Full(m.mem, root, Pages(sz)) && va + n <= sz <= USER_LIMIT
    modifies m
    ensures m.Valid() && m.own == old(m.own) && Loaded(old(m.mem), m.mem, m.own, root, sz, va, Rest(file, off), d)
    ensures m.free == old(m.free)
    ensures (r == 0 || r == -1) && (r == 0 <==> n <= |Rest(file, off)|) && (r == 0 ==> d == n)
  {
    ghost var mem0, own0 := m.mem, m.own;
    var src := Rest(file, off);
    LoadedNothing(mem0, own0, root, sz, va, src);
    var ok;
    ok, d := LoadLoop(m, root, sz, va / PGSIZE, src, n, mem0, own0);
    r := if ok then 0 else -1;
  }

  /** The loop of loadseg(), from page number v on. */
  method LoadLoop(m: Memory, root: nat, sz: nat, v: nat, src: seq<byte>, n: nat, ghost mem0: seq<Page>, ghost own0: seq<Own>)
    returns (ok: bool, ghost d: nat)
    requires m.Valid() && m.own == own0 && IsRoot(own0, root) && TopsGuarded(mem0, root)
    requires Full(mem0, root, Pages(sz)) && v * PGSIZE + n <= sz <= USER_LIMIT
    requires Loaded(mem0, m.mem, own0, root, sz, v * PGSIZE, src, 0)
    modifies m
    ensures m.Valid() && m.own == own0 && m.free == old(m.free) && Loaded(mem0, m.mem, own0, root, sz, v * PGSIZE, src, d)
    ensures (ok <==> n <= |src|) && (ok ==> d == n)
  {
    hide TreeOk, FreeListOk, Loaded, Full, TopsGuarded, IsRoot;
    var i := 0;
    d := 0;
    while i * PGSIZE < n
      invariant d == (if i * PGSIZE <= n then i * PGSIZE else n) && d <= |src|
      invariant m.Valid() && m.own == own0 && m.free == old(m.free) && Loaded(mem0, m.mem, own0, root, sz, v * PGSIZE, src, d)
      decreases n - i * PGSIZE
    {
      var k := if n - i * PGSIZE < PGSIZE then n - i * PGSIZE else PGSIZE;
      ok := LoadPage(m, root, sz, v * PGSIZE, src, i * PGSIZE, k, v + i, mem0);
      if !ok { return; }
      d := d + k;
      i := i + 1;
    }
    ok := true;
  }

  lemma LoadedNothing(mem: seq<Page>, own: seq<Own>, root: nat, sz: nat, va: nat, src: seq<byte>)
    requires |mem| == |own|
    ensures Loaded(mem, mem, own, root, sz, va, src, 0)
  {
    forall v: nat | v < TRAPFRAME ensures CellWritten(CellOf(mem, root, sz, v), CellOf(mem, root, sz, v), v, va, src, 0) {
    }
  }

  /** One turn of the loop of loadseg(): k bytes of src go to the page at page number v. */
  method LoadPage(m: Memory, root: nat, sz: nat, va: nat, src: seq<byte>, i: nat, k: nat, v: nat,
                  ghost mem0: seq<Page>) returns (ok: bool)
    requires m.Valid() && IsRoot(m.own, root) && TopsGuarded(mem0, root) && va + i == v * PGSIZE && 0 < k <= PGSIZE
    requires Full(mem0, root, Pages(sz)) && v < Pages(sz) && sz <= USER_LIMIT
    requires Loaded(mem0, m.mem, m.own, root, sz, va, src, i)
    modifies m
    ensures m.Valid() && m.own == old(m.own) && m.free == old(m.free) && (ok <==> i + k <= |src|)
    ensures Loaded(mem0, m.mem, m.own, root, sz, va, src, if ok then i + k else i)
  {
    FullHere(mem0, m.mem, m.own, root, sz, v);
    var q := Walkaddr(m, root, v);
    if i + k > |src| { return false; }
    LoadedNext(mem0, m.mem, m.own, root, sz, va, src, i, k, v, q);
    m.Store(q, Put(m.mem[q].bytes, 0, src[i..i + k]));
    ok := true;
  }

  /** A page below the size of a full draft is there for walkaddr(). */
  lemma FullHere(mem0: seq<Page>, mem: seq<Page>, own: seq<Own>, root: nat, sz: nat, v: nat)
    requires TreeOk(mem, own) && IsRoot(own, root) && SameMaps(mem0, own, mem) && TopsGuarded(mem0, root)
    requires Full(mem0, root, Pages(sz)) && v < Pages(sz) && sz <= USER_LIMIT
    ensures TopsGuarded(mem, root) && Lookup(mem, root, v).v && Lookup(mem, root, v).perm.u
    ensures Present(mem, root, sz, v, Lookup(mem, root, v).page)
  {
    assert Lookup(mem, root, v) == Lookup(mem0, root, v);
    assert Lookup(mem, root, TRAMPOLINE) == Lookup(mem0, root, TRAMPOLINE);
    assert Lookup(mem, root, TRAPFRAME) == Lookup(mem0, root, TRAPFRAME);
    LookupOwned(mem, own, root, v);
  }

  /** flags2perm(), with the bits uvmalloc() always adds. */
  function SegPerm(ph: Segment): Perm { Perm(true, ph.w, ph.x, true) }

  /** uvmalloc() for program header number i; 0 when memory runs out. */
  method MakeRoom(m: Memory, root: nat, sz: nat, ghost file: seq<byte>, phs: seq<Segment>, i: nat,
                  ghost mem0: seq<Page>, ghost own0: seq<Own>, ghost tf: nat)
    returns (sz1: nat)
    requires m.Valid() && Draft(mem0, own0, m.mem, m.own, root, sz, tf) && Full(m.mem, root, Pages(sz)) && |m.mem| <= TRAPFRAME
    requires i < |phs| && phs[i].load && sz == EndOf(phs, i) && EndsBelow(phs, i, sz) && Shows(m.mem, root, sz, file, phs, i, Pages(sz))
    requires Allows(m.mem, root, sz, phs, i, Pages(sz))
    modifies m
    ensures m.Valid()
    ensures sz1 == 0 ==> Draft(mem0, own0, m.mem, m.own, root, sz, tf)
    ensures sz1 == 0 ==> EndOf(phs, i + 1) == 0 || |old(m.free)| < 3 * (Pages(EndOf(phs, i + 1)) - Pages(sz))
    ensures sz1 != 0 ==> sz1 == EndOf(phs, i + 1) >= sz && Draft(mem0, own0, m.mem, m.own, root, sz1, tf)
                         && Full(m.mem, root, Pages(sz1)) && Shows(m.mem, root, sz1, file, phs, i, Pages(sz1))
                         && |m.free| + 3 * (Pages(sz1) - Pages(sz)) >= |old(m.free)|
                         && Allows(m.mem, root, sz1, phs, i + 1, Pages(sz1))
  {
    hide TreeOk, FreeListOk, Shows, Full, Draft, Pages, Allows;
    var ph := phs[i];
    ghost var mem1, own1 := m.mem, m.own;
    DraftRoot(mem0, own0, m.mem, m.own, root, sz, tf);
    sz1 := m.Uvmalloc(root, sz, ph.vaddr + ph.memsz, SegPerm(ph));
    DraftUvmalloc(mem0, own0, mem1, own1, m.mem, m.own, root, sz, ph.vaddr + ph.memsz, sz1, SegPerm(ph), tf);
    if sz1 != 0 && ph.vaddr + ph.memsz >= sz {
      ShowsGrew(mem1, own1, m.mem, m.own, root, sz, sz1, SegPerm(ph), file, phs, i);
      AllowsGrew(mem1, own1, m.mem, m.own, root, sz, sz1, phs, i);
    } else if sz1 != 0 {
      AllowsSkip(m.mem, root, sz, phs, i);
    }
  }

  /** Program header number i: makes room up to its end and loads its bytes. */
  method LoadSegment(m: Memory, root: nat, sz: nat, file: seq<byte>, phs: seq<Segment>, i: nat,
                     ghost mem0: seq<Page>, ghost own0: seq<Own>, ghost tf: nat)
    returns (ok: bool, newsz: nat)
    requires m.Valid() && Draft(mem0, own0, m.mem, m.own, root, sz, tf) && Full(m.mem, root, Pages(sz)) && |m.mem| <= TRAPFRAME
    requires i < |phs| && sz == EndOf(phs, i) && EndsBelow(phs, i, sz) && Shows(m.mem, root, sz, file, phs, i, Pages(sz))
    requires Allows(m.mem, root, sz, phs, i, Pages(sz))
    modifies m
    ensures m.Valid() && Draft(mem0, own0, m.mem, m.own, root, newsz, tf)
    ensures ok ==> newsz == EndOf(phs, i + 1) && Loadable(file, phs, i) && |m.free| + 3 * (Pages(newsz) - Pages(sz)) >= |old(m.free)|
    ensures !ok ==> !Loadable(file, phs, i) || |old(m.free)| < 3 * (Pages(EndOf(phs, i + 1)) - Pages(sz))
    ensures ok ==> Full(m.mem, root, Pages(newsz)) && newsz >= sz
    ensures ok ==> EndsBelow(phs, i + 1, newsz) && Shows(m.mem, root, newsz, file, phs, i + 1, Pages(newsz))
    ensures ok ==> Allows(m.mem, root, newsz, phs, i + 1, Pages(newsz))
  {
    hide TreeOk, FreeListOk, Shows, Full, Draft, Pages, Allows, Loaded, TopsGuarded, AllMapped, IsRoot, Rest;
    var ph := phs[i];
    newsz := sz;
    if !ph.read { return false, sz; }
    if !ph.load {
      SkipShows(m.mem, root, sz, file, phs, i);
      AllowsSkip(m.mem, root, sz, phs, i);
      return true, sz;
    }
    if ph.memsz < ph.filesz || (ph.vaddr + ph.memsz) % U64 < ph.vaddr || ph.vaddr % PGSIZE != 0 { return false, sz; }
    var sz1 := MakeRoom(m, root, sz, file, phs, i, mem0, own0, tf);
    if sz1 == 0 { return false, sz; }
    newsz := sz1;
    ghost var mem2 := m.mem;
    DraftRoot(mem0, own0, m.mem, m.own, root, newsz, tf);
    var r, d := Loadseg(m, root, newsz, ph.vaddr, file, Offset(ph), Length(ph));
    DraftLoaded(mem0, own0, mem2, m.mem, m.own, root, newsz, ph.vaddr, Rest(file, Offset(ph)), d, tf);
    ok := r == 0;
    if ok {
      ShowsLoaded(mem2, m.mem, m.own, root, newsz, file, phs, i);
      AllowsLoaded(mem2, m.mem, m.own, root, newsz, ph.vaddr, Rest(file, Offset(ph)), d, phs, i + 1);
    }
  }

  lemma DraftRoot(mem0: seq<Page>, own0: seq<Own>, mem: seq<Page>, own: seq<Own>, root: nat, sz: nat, tf: nat)
    requires Draft(mem0, own0, mem, own, root, sz, tf) && Full(mem, root, Pages(sz))
    ensures IsRoot(own, root) && sz <= USER_LIMIT && TopsGuarded(mem, root) && AllMapped(mem, root, Pages(sz))
    ensures forall v: nat :: v < TRAPFRAME && Lookup(mem, root, v).v ==> v < Pages(sz)
  {
  }

  /** A full draft is smaller than physical memory. */
  lemma DraftPages(mem0: seq<Page>, own0: seq<Own>, mem: seq<Page>, own: seq<Own>, root: nat, sz: nat, tf: nat)
    requires TreeOk(mem, own) && Draft(mem0, own0, mem, own, root, sz, tf) && Full(mem, root, Pages(sz)) && |mem| > 0
    ensures Pages(sz) < |mem|
  {
    DraftRoot(mem0, own0, mem, own, root, sz, tf);
    var s := MappedPages(mem, own, root, Pages(sz));
    FitsMemory(s, |own|);
  }

  lemma FitsMemory(s: set<nat>, n: nat)
    requires n > 0 && forall q :: q in s ==> 0 < q < n
    ensures |s| < n
    decreases n
  {
    if n == 1 {
      assert s == {};
    } else {
      FitsMemory(s - {n - 1}, n - 1);
    }
  }

  lemma DraftLimit(mem0: seq<Page>, own0: seq<Own>, mem: seq<Page>, own: seq<Own>, root: nat, sz: nat, tf: nat)
    requires Draft(mem0, own0, mem, own, root, sz, tf)
    ensures IsRoot(own, root) && sz <= USER_LIMIT && TopsGuarded(mem, root)
  {
  }

  lemma SkipShows(mem: seq<Page>, root: nat, sz: nat, file: seq<byte>, phs: seq<Segment>, i: nat)
    requires i < |phs| && !phs[i].load && Shows(mem, root, sz, file, phs, i, Pages(sz))
    ensures Shows(mem, root, sz, file, phs, i + 1, Pages(sz))
  {
    var n := i + 1;
    forall v: nat, k: nat | v < Pages(sz) && k < PGSIZE ensures ShowsByte(mem, root, sz, file, phs, n, v, k) {
      assert ShowsByte(mem, root, sz, file, phs, i, v, k);
    }
  }

  lemma AllowsSkip(mem: seq<Page>, root: nat, sz: nat, phs: seq<Segment>, i: nat)
    requires i < |phs| && EndOf(phs, i + 1) == EndOf(phs, i) && Allows(mem, root, sz, phs, i, Pages(sz))
    ensures Allows(mem, root, sz, phs, i + 1, Pages(sz))
  {
  }

  /** The two outcomes of uvmalloc() for a draft. */
  lemma DraftUvmalloc(mem0: seq<Page>, own0: seq<Own>, mem1: seq<Page>, own1: seq<Own>, mem2: seq<Page>, own2: seq<Own>,
                      root: nat, sz: nat, newsz: nat, r: nat, perm: Perm, tf: nat)
    requires Draft(mem0, own0, mem1, own1, root, sz, tf) && Full(mem1, root, Pages(sz)) && perm.u
    requires newsz < sz ==> r == sz && mem2 == mem1 && own2 == own1
    requires newsz >= sz ==> r == newsz || r == 0
    requires newsz >= sz && r == newsz ==>
      newsz <= USER_LIMIT && Grew(mem1, own1, mem2, own2, root, Pages(sz), Pages(newsz), perm)
    requires newsz >= sz && r != newsz ==> Built(mem1, own1, mem2, own2, root) && MapsKept(mem1, own1, mem2, root, 0, 0)
    ensures r == 0 ==> Draft(mem0, own0, mem2, own2, root, sz, tf)
    ensures r != 0 ==> Draft(mem0, own0, mem2, own2, root, r, tf) && Full(mem2, root, Pages(r)) && r >= sz && r >= newsz
  {
    if newsz >= sz && r == newsz {
      DraftGrew(mem0, own0, mem1, own1, mem2, own2, root, sz, newsz, perm, tf);
    } else if newsz >= sz {
      DraftSame(mem0, own0, mem1, own1, mem2, own2, root, sz, tf);
    }
  }

  lemma DraftLoaded(mem0: seq<Page>, own0: seq<Own>, mem1: seq<Page>, mem2: seq<Page>, own: seq<Own>,
                    root: nat, sz: nat, va: nat, src: seq<byte>, d: nat, tf: nat)
    requires Draft(mem0, own0, mem1, own, root, sz, tf) && Full(mem1, root, Pages(sz))
    requires Loaded(mem1, mem2, own, root, sz, va, src, d)
    ensures Draft(mem0, own0, mem2, own, root, sz, tf) && Full(mem2, root, Pages(sz))
  {
    PrivateTrans(mem0, own0, mem1, own, mem2, own, root);
    forall v: nat | v < MAXVPN ensures Lookup(mem2, root, v) == Lookup(mem1, root, v) { }
  }

  /** The loop over the program headers. */
  method LoadSegments(m: Memory, root: nat, file: seq<byte>, phs: seq<Segment>, ghost mem0: seq<Page>, ghost own0: seq<Own>,
                      ghost tf: nat)
    returns (ok: bool, sz: nat)
    requires m.Valid() && Draft(mem0, own0, m.mem, m.own, root, 0, tf) && |m.mem| <= TRAPFRAME
    modifies m
    ensures m.Valid() && Draft(mem0, own0, m.mem, m.own, root, sz, tf)
    ensures ok ==> Full(m.mem, root, Pages(sz)) && EndsBelow(phs, |phs|, sz) && sz == EndOf(phs, |phs|)
    ensures ok ==> AllLoadable(file, phs) && |m.free| + 3 * Pages(sz) >= |old(m.free)|
    ensures !ok ==> !AllLoadable(file, phs) || |old(m.free)| < 3 * Pages(EndOf(phs, |phs|))
    ensures ok ==> Shows(m.mem, root, sz, file, phs, |phs|, Pages(sz)) && Allows(m.mem, root, sz, phs, |phs|, Pages(sz))
  {
    hide TreeOk, FreeListOk, Image, TopsAt, PagePrivate, Loadable, ProgramByte, PageReadable, Lookup, AllowsPage;
    sz := 0;
    var i := 0;
    while i < |phs|
      invariant 0 <= i <= |phs| && m.Valid() && Draft(mem0, own0, m.mem, m.own, root, sz, tf) && Full(m.mem, root, Pages(sz))
      invariant EndsBelow(phs, i, sz) && Shows(m.mem, root, sz, file, phs, i, Pages(sz)) && Allows(m.mem, root, sz, phs, i, Pages(sz))
      invariant sz == EndOf(phs, i) && |m.free| + 3 * Pages(sz) >= |old(m.free)|
      invariant forall k: nat :: k < i ==> Loadable(file, phs, k)
    {
      EndGrows(phs, i + 1, |phs|);
      ok, sz := LoadSegment(m, root, sz, file, phs, i, mem0, own0, tf);
      if !ok { return; }
      i := i + 1;
    }
    ok := true;
  }

  const STACK: nat := 2 * PGSIZE           // (USERSTACK + 1) * PGSIZE

  /** Little-endian bytes of a 64-bit word, and of the argv[] array. */
  function WordBytes(x: nat, n: nat): seq<byte>
    decreases n
  {
    if n == 0 then [] else [x % 256] + WordBytes(x / 256, n - 1)
  }

  function Words(ws: seq<nat>): (b: seq<byte>) { if ws == [] then [] else WordBytes(ws[0], 8) + Words(ws[1..]) }

  lemma {:induction false} WordBytesSize(x: nat, n: nat)
    ensures |WordBytes(x, n)| == n
    decreases n
  {
    if n != 0 { WordBytesSize(x / 256, n - 1); }
  }

  lemma WordsSize(ws: seq<nat>)
    ensures |Words(ws)| == 8 * |ws|
  {
    if ws != [] {
      WordBytesSize(ws[0], 8);
      WordsSize(ws[1..]);
    }
  }

  /** The guard page below the stack is out of the user's reach. */
  ghost predicate Guarded(mem: seq<Page>, root: nat, sz: nat) {
    sz >= STACK && !PageReadable(mem, root, sz, Pages(sz) - 2)
  }

  /** The stack page is mapped for the user to write. */
  ghost predicate StackOpen(mem: seq<Page>, root: nat, sz: nat) {
    sz % PGSIZE == 0 && 0 < sz <= USER_LIMIT && Here(mem, root, sz / PGSIZE - 1) && Lookup(mem, root, sz / PGSIZE - 1).perm.w
  }

  lemma StackAll(mem: seq<Page>, root: nat, sz: nat, va: nat, n: nat)
    requires StackOpen(mem, root, sz) && sz - PGSIZE <= va && va + n <= sz
    ensures AllOpen(mem, root, va, n)
  {
    forall a: nat | va <= a < va + n ensures OpenAt(mem, root, a) { assert a / PGSIZE == sz / PGSIZE - 1; }
  }

  lemma StackStays(mem0: seq<Page>, mem1: seq<Page>, root: nat, sz: nat)
    requires StackOpen(mem0, root, sz) && forall x: nat :: x < TRAPFRAME ==> Lookup(mem1, root, x) == Lookup(mem0, root, x)
    ensures StackOpen(mem1, root, sz)
  {
  }

  /** Two pages on top: the guard page and the stack. */
  method AddStack(m: Memory, root: nat, sz: nat, ghost mem0: seq<Page>, ghost own0: seq<Own>, ghost tf: nat) returns (newsz: nat)
    requires m.Valid() && Draft(mem0, own0, m.mem, m.own, root, sz, tf) && Full(m.mem, root, Pages(sz)) && |m.mem| <= TRAPFRAME
    modifies m
    ensures m.Valid()
    ensures newsz == 0 ==> Draft(mem0, own0, m.mem, m.own, root, Pages(sz) * PGSIZE, tf) && |old(m.free)| < 6
    ensures newsz != 0 ==> newsz == Pages(sz) * PGSIZE + STACK && Pages(newsz) == Pages(sz) + 2
                           && Draft(mem0, own0, m.mem, m.own, root, newsz, tf)
                           && Guarded(m.mem, root, newsz) && BelowKept(old(m.mem), sz, m.mem, newsz, root, Pages(sz))
                           && StackOpen(m.mem, root, newsz)
  {
    hide TreeOk, FreeListOk, Full, Guarded, BelowKept, StackOpen, Zeroed, Pages, Private, TopsAt;
    PagesPlus(Pages(sz));
    PagesLimit(mem0, own0, m.mem, m.own, root, sz, tf);
    var sz1 := Pages(sz) * PGSIZE;
    ghost var mem1, own1 := m.mem, m.own;
    DraftRoot(mem0, own0, mem1, own1, root, sz, tf);
    newsz := m.Uvmalloc(root, sz1, sz1 + STACK, Perm(true, true, false, true));
    DraftUvmalloc(mem0, own0, mem1, own1, m.mem, m.own, root, sz1, sz1 + STACK, newsz, LAZY_PERM, tf);
    if newsz == 0 { return; }
    var g := Pages(newsz) - 2;
    ghost var mem2, own2 := m.mem, m.own;
    DraftRoot(mem0, own0, mem2, own2, root, newsz, tf);
    ZeroedAt(mem2, root, g, g + 2, LAZY_PERM, g);
    m.Uvmclear(root, g);
    DraftCleared(mem0, own0, mem2, own2, m.mem, m.own, root, newsz, g, tf);
    StackAbove(mem1, own1, mem2, own2, m.mem, m.own, root, sz, newsz);
    StackTop(mem2, m.mem, root, g, newsz);
  }

  lemma PagesLimit(mem0: seq<Page>, own0: seq<Own>, mem: seq<Page>, own: seq<Own>, root: nat, sz: nat, tf: nat)
    requires Draft(mem0, own0, mem, own, root, sz, tf)
    ensures Draft(mem0, own0, mem, own, root, Pages(sz) * PGSIZE, tf)
  {
    assert Pages(Pages(sz) * PGSIZE) == Pages(sz);
  }

  lemma PagesPlus(n: nat)
    ensures Pages(n * PGSIZE) == n && Pages(n * PGSIZE + STACK) == n + 2
  {
  }

  lemma ZeroedAt(mem: seq<Page>, root: nat, lo: nat, hi: nat, perm: Perm, v: nat)
    requires Zeroed(mem, root, lo, hi, perm) && lo <= v < hi
    ensures Lookup(mem, root, v).v && Lookup(mem, root, v).perm == perm
  {
  }

  lemma StackTop(mem1: seq<Page>, mem2: seq<Page>, root: nat, n: nat, sz: nat)
    requires sz == n * PGSIZE + STACK <= USER_LIMIT && Zeroed(mem1, root, n, n + 2, LAZY_PERM)
    requires Lookup(mem2, root, n + 1) == Lookup(mem1, root, n + 1)
    ensures StackOpen(mem2, root, sz)
  {
    assert sz / PGSIZE - 1 == n + 1;
  }

  /** The pages below the guard page stay. */
  lemma StackAbove(mem0: seq<Page>, own0: seq<Own>, mem1: seq<Page>, own1: seq<Own>, mem2: seq<Page>, own2: seq<Own>,
                   root: nat, sz: nat, newsz: nat)
    requires TreeOk(mem0, own0) && TreeOk(mem1, own1) && IsRoot(own0, root) && IsRoot(own1, root)
    requires Full(mem0, root, Pages(sz)) && newsz == Pages(sz) * PGSIZE + STACK <= USER_LIMIT
    requires Grew(mem0, own0, mem1, own1, root, Pages(sz), Pages(newsz), LAZY_PERM) && Built(mem1, own1, mem2, own2, root)
    requires forall x: nat :: x < Pages(sz) ==> Lookup(mem2, root, x) == Lookup(mem1, root, x)
    ensures BelowKept(mem0, sz, mem2, newsz, root, Pages(sz))
  {
    forall v: nat | v < Pages(sz) ensures CellOf(mem2, root, newsz, v) == CellOf(mem0, root, sz, v) {
      UserKept(mem0, own0, mem1, own1, root, root, v);
      UserKept(mem1, own1, mem2, own2, root, root, v);
    }
  }

  lemma DraftCleared(mem0: seq<Page>, own0: seq<Own>, mem1: seq<Page>, own1: seq<Own>, mem2: seq<Page>, own2: seq<Own>,
                     root: nat, sz: nat, g: nat, tf: nat)
    requires Draft(mem0, own0, mem1, own1, root, sz, tf) && Built(mem1, own1, mem2, own2, root) && g < Pages(sz)
    requires Lookup(mem1, root, g).v
    requires forall x: nat :: x < MAXVPN ==>
      Lookup(mem2, root, x) == if x == g then var e := Lookup(mem1, root, x); e.(perm := e.perm.(u := false))
                               else Lookup(mem1, root, x)
    ensures Draft(mem0, own0, mem2, own2, root, sz, tf) && (g == Pages(sz) - 2 && sz >= STACK ==> Guarded(mem2, root, sz))
  {
    PrivateBuilt(mem0, own0, mem1, own1, mem2, own2, root);
    BuiltRoot(mem1, own1, mem2, own2, root, root);
  }

  /** sp after pushing n bytes, 16-byte aligned. */
  function Push(sp: nat, n: nat): nat
    requires n <= sp
  {
    sp - n - (sp - n) % 16
  }

  /** Copies one object below sp; fails if it does not fit above stackbase. */
  method PushBytes(m: Memory, root: nat, sz: nat, sp: nat, bytes: seq<byte>, ghost mem0: seq<Page>, ghost own0: seq<Own>, ghost tf: nat)
    returns (ok: bool, nsp: nat)
    requires m.Valid() && Draft(mem0, own0, m.mem, m.own, root, sz, tf) && Guarded(m.mem, root, sz)
    requires sz - PGSIZE <= sp <= sz && |bytes| <= PGSIZE && StackOpen(m.mem, root, sz)
    modifies m
    ensures m.Valid() && Draft(mem0, own0, m.mem, m.own, root, sz, tf) && Guarded(m.mem, root, sz)
    ensures nsp == Push(sp, |bytes|) && nsp % 16 == 0 && (ok <==> sz - PGSIZE <= nsp) && StackOpen(m.mem, root, sz) && m.free == old(m.free)
    ensures ok ==> sz - PGSIZE <= nsp && ReadsBack(m.mem, root, sz, nsp, bytes)
                   && Wrote(old(m.mem), m.mem, root, sz, nsp, bytes, |bytes|)
  {
    hide TreeOk, FreeListOk, StackOpen, AllOpen, Image, TopsAt, PagePrivate, ReadsBack;
    nsp := Push(sp, |bytes|);
    if nsp < sz - PGSIZE { return false, nsp; }
    ghost var mem1, own1 := m.mem, m.own;
    StackAll(mem1, root, sz, nsp, |bytes|);
    DraftLimit(mem0, own0, mem1, own1, root, sz, tf);
    var r, d := Copyout(m, root, sz, nsp, bytes);
    DraftWritten(mem0, own0, mem1, own1, m.mem, m.own, root, sz, nsp, bytes, d, tf);
    SameAccess(mem1, m.mem, root, sz, nsp, bytes, d, Pages(sz) - 2);
    StackStays(mem1, m.mem, root, sz);
    ok := r == 0;
    WroteReads(mem1, m.mem, root, sz, nsp, bytes);
  }

  /** The bytes at va of the image are these. */
  ghost predicate ReadsBack(mem: seq<Page>, root: nat, sz: nat, va: nat, bytes: seq<byte>) {
    forall a: nat :: va <= a < va + |bytes| ==> Writable(mem, root, sz, a) && ByteAt(mem, root, sz, a) == bytes[a - va]
  }

  lemma WroteReads(mem0: seq<Page>, mem1: seq<Page>, root: nat, sz: nat, va: nat, src: seq<byte>)
    requires Wrote(mem0, mem1, root, sz, va, src, |src|)
    requires forall a: nat :: va <= a < va + |src| ==> Writable(mem0, root, sz, a)
    ensures ReadsBack(mem1, root, sz, va, src)
  {
    forall a: nat | va <= a < va + |src|
      ensures Writable(mem1, root, sz, a) && ByteAt(mem1, root, sz, a) == src[a - va]
    {
      var v, k := a / PGSIZE, a % PGSIZE;
      assert Writable(mem0, root, sz, a) && a == v * PGSIZE + k;
      assert CellWritten(CellOf(mem0, root, sz, v), CellOf(mem1, root, sz, v), v, va, src, |src|);
    }
  }

  /** A write below sp leaves what lies at or above it. */
  lemma KeptAbove(mem0: seq<Page>, mem1: seq<Page>, root: nat, sz: nat, va: nat, src: seq<byte>, va1: nat, bytes: seq<byte>)
    requires Wrote(mem0, mem1, root, sz, va, src, |src|) && va + |src| <= va1 && ReadsBack(mem0, root, sz, va1, bytes)
    ensures ReadsBack(mem1, root, sz, va1, bytes)
  {
    forall a: nat | va1 <= a < va1 + |bytes|
      ensures Writable(mem1, root, sz, a) && ByteAt(mem1, root, sz, a) == bytes[a - va1]
    {
      var v, k := a / PGSIZE, a % PGSIZE;
      assert Writable(mem0, root, sz, a) && a == v * PGSIZE + k;
      assert CellWritten(CellOf(mem0, root, sz, v), CellOf(mem1, root, sz, v), v, va, src, |src|);
    }
  }

  /** The strings of args lie at the addresses in ustack, at or above sp, each with its null byte. */
  ghost predicate ArgsAt(mem: seq<Page>, root: nat, sz: nat, ustack: seq<nat>, args: seq<seq<byte>>, sp: nat) {
    |ustack| <= |args| && forall k: nat :: k < |ustack| ==> ArgAt(mem, root, sz, ustack[k], args[k], sp)
  }

  ghost predicate ArgAt(mem: seq<Page>, root: nat, sz: nat, a: nat, arg: seq<byte>, sp: nat) {
    sp <= a && a % 16 == 0 && ReadsBack(mem, root, sz, a, arg + [0])
  }

  lemma ArgsKept(mem0: seq<Page>, mem1: seq<Page>, root: nat, sz: nat, ustack: seq<nat>, args: seq<seq<byte>>, sp: nat,
                 va: nat, src: seq<byte>)
    requires ArgsAt(mem0, root, sz, ustack, args, sp) && Wrote(mem0, mem1, root, sz, va, src, |src|) && va + |src| <= sp
    ensures ArgsAt(mem1, root, sz, ustack, args, va)
  {
    forall k: nat | k < |ustack| ensures ArgAt(mem1, root, sz, ustack[k], args[k], va) {
      assert ArgAt(mem0, root, sz, ustack[k], args[k], sp);
      KeptAbove(mem0, mem1, root, sz, va, src, ustack[k], args[k] + [0]);
    }
  }

  /** What a load of n bytes at address a gives, low byte first. */
  function Fetch(mem: seq<Page>, root: nat, sz: nat, a: nat, n: nat): nat
    decreases n
  {
    if n == 0 then 0 else ByteAt(mem, root, sz, a) + 256 * Fetch(mem, root, sz, a + 1, n - 1)
  }

  /** argv[] at sp, as the program reads it: the addresses, then a null pointer. */
  ghost predicate Argv(mem: seq<Page>, root: nat, sz: nat, ustack: seq<nat>, sp: nat) {
    forall k: nat :: k <= |ustack| ==> Fetch(mem, root, sz, sp + 8 * k, 8) == (ustack + [0])[k]
  }

  function Pow256(n: nat): nat { if n == 0 then 1 else 256 * Pow256(n - 1) }

  lemma {:induction false} FetchWord(mem: seq<Page>, root: nat, sz: nat, a: nat, x: nat, n: nat)
    requires x < Pow256(n) && |WordBytes(x, n)| == n
    requires forall b: nat :: a <= b < a + n ==> ByteAt(mem, root, sz, b) == WordBytes(x, n)[b - a]
    ensures Fetch(mem, root, sz, a, n) == x
    decreases n
  {
    if n != 0 {
      hide ByteAt;
      WordBytesSize(x / 256, n - 1);
      assert ByteAt(mem, root, sz, a) == WordBytes(x, n)[0];
      FetchWord(mem, root, sz, a + 1, x / 256, n - 1);
    }
  }

  lemma {:induction false} WordsAt(ws: seq<nat>, k: nat, j: nat)
    requires k < |ws| && j < 8
    ensures |Words(ws)| == 8 * |ws| && |WordBytes(ws[k], 8)| == 8 && Words(ws)[8 * k + j] == WordBytes(ws[k], 8)[j]
    decreases k
  {
    hide WordBytes;
    WordsSize(ws);
    WordBytesSize(ws[0], 8);
    if k != 0 { WordsAt(ws[1..], k - 1, j); }
  }

  lemma ArgvThere(mem: seq<Page>, root: nat, sz: nat, ustack: seq<nat>, args: seq<seq<byte>>, sp: nat)
    requires |ustack| == |args| && ArgsAt(mem, root, sz, ustack, args, sp) && ReadsBack(mem, root, sz, sp, Words(ustack + [0]))
    ensures Argv(mem, root, sz, ustack, sp)
  {
    hide WordBytes, Words, Fetch, ByteAt, PageWritable;
    var ws := ustack + [0];
    forall k: nat | k < |ws| ensures Fetch(mem, root, sz, sp + 8 * k, 8) == ws[k] {
      if k < |args| { ArgBelow(mem, root, sz, ustack[k], args[k], sp); }
      WordBytesSize(ws[k], 8);
      forall b: nat | sp + 8 * k <= b < sp + 8 * k + 8 ensures ByteAt(mem, root, sz, b) == WordBytes(ws[k], 8)[b - (sp + 8 * k)] {
        WordsAt(ws, k, b - (sp + 8 * k));
      }
      EightBytes();
      FetchWord(mem, root, sz, sp + 8 * k, ws[k], 8);
    }
  }

  lemma EightBytes()
    ensures Pow256(8) == U64
  {
    assert Pow256(4) == 0x1_0000_0000;
    assert Pow256(6) == 0x1_0000_0000_0000;
  }

  lemma ArgBelow(mem: seq<Page>, root: nat, sz: nat, a: nat, arg: seq<byte>, sp: nat)
    requires ArgAt(mem, root, sz, a, arg, sp)
    ensures a < U64
  {
    assert Writable(mem, root, sz, a);
  }

  function Up16(n: nat): nat { (n + 15) / 16 * 16 }

  /** The bytes of the stack page that the first i strings take. */
  function Taken(args: seq<seq<byte>>, i: nat): nat
    requires i <= |args|
  {
    if i == 0 then 0 else Up16(Taken(args, i - 1) + |args[i - 1]| + 1)
  }

  /** The strings and the array of their addresses fit the stack page. */
  predicate ArgsFit(args: seq<seq<byte>>) { Up16(Taken(args, |args|) + 8 * (|args| + 1)) <= PGSIZE }

  lemma {:induction false} TakenGrows(args: seq<seq<byte>>, i: nat, j: nat)
    requires i <= j <= |args|
    ensures Taken(args, i) <= Taken(args, j)
    decreases j
  {
    if i < j { TakenGrows(args, i, j - 1); }
  }

  lemma PushTaken(sz: nat, t: nat, n: nat)
    requires sz % PGSIZE == 0 && t % 16 == 0 && t + n <= sz
    ensures Push(sz - t, n) == sz - Up16(t + n) && Up16(t + n) % 16 == 0 && Up16(t + n) >= t + n
  {
    assert sz % 16 == 0;
  }

  /** Pushes the argument strings, then the array of pointers to them. */
  method PushArgs(m: Memory, root: nat, sz: nat, args: seq<seq<byte>>, ghost mem0: seq<Page>, ghost own0: seq<Own>, ghost tf: nat)
    returns (ok: bool, sp: nat, ghost ustack: seq<nat>)
    requires m.Valid() && Draft(mem0, own0, m.mem, m.own, root, sz, tf) && Guarded(m.mem, root, sz) && StackOpen(m.mem, root, sz)
    requires |args| < MAXARG && forall k: nat :: k < |args| ==> |args[k]| < PGSIZE
    modifies m
    ensures m.Valid() && Draft(mem0, own0, m.mem, m.own, root, sz, tf) && Guarded(m.mem, root, sz)
    ensures ok <==> ArgsFit(args)
    ensures ok ==> |ustack| == |args| && ArgsAt(m.mem, root, sz, ustack, args, sp)
                   && ReadsBack(m.mem, root, sz, sp, Words(ustack + [0])) && Argv(m.mem, root, sz, ustack, sp) && sp % 16 == 0
    ensures ok ==> BelowKept(old(m.mem), sz, m.mem, sz, root, Pages(sz) - 2)
  {
    hide TreeOk, FreeListOk, ReadsBack, Wrote, Draft, Argv, WordBytes, Words, StackOpen, Up16, Push, Guarded, Pages, BelowKept;
    StackSize(m.mem, root, sz);
    BelowSame(m.mem, sz, root, Pages(sz) - 2);
    sp := sz;
    var argc := 0;
    var us: seq<nat> := [];
    ustack := [];
    while argc < |args|
      invariant argc <= |args| && m.Valid() && Draft(mem0, own0, m.mem, m.own, root, sz, tf) && Guarded(m.mem, root, sz)
      invariant sz - PGSIZE <= sp <= sz && |us| == argc && ArgsAt(m.mem, root, sz, us, args, sp)
      invariant BelowKept(old(m.mem), sz, m.mem, sz, root, Pages(sz) - 2)
      invariant StackOpen(m.mem, root, sz) && Taken(args, argc) <= PGSIZE && sp == sz - Taken(args, argc) && Taken(args, argc) % 16 == 0
    {
      ghost var mem1 := m.mem;
      var nsp;
      PushTaken(sz, Taken(args, argc), |args[argc]| + 1);
      ok, nsp := PushBytes(m, root, sz, sp, args[argc] + [0], mem0, own0, tf);
      if !ok {
        TooLong(args, argc + 1);
        return;
      }
      ArgsKept(mem1, m.mem, root, sz, us, args, sp, nsp, args[argc] + [0]);
      WroteAbove(mem1, m.mem, root, sz, nsp, args[argc] + [0], Pages(sz) - 2);
      BelowTrans(old(m.mem), mem1, m.mem, sz, root, Pages(sz) - 2);
      sp := nsp;
      us := us + [sp];
      argc := argc + 1;
    }
    WordsSize(us + [0]);
    ghost var mem1, sp1 := m.mem, sp;
    PushTaken(sz, Taken(args, argc), 8 * (argc + 1));
    ok, sp := PushBytes(m, root, sz, sp, Words(us + [0]), mem0, own0, tf);
    if ok {
      ArgsKept(mem1, m.mem, root, sz, us, args, sp1, sp, Words(us + [0]));
      WroteAbove(mem1, m.mem, root, sz, sp, Words(us + [0]), Pages(sz) - 2);
      BelowTrans(old(m.mem), mem1, m.mem, sz, root, Pages(sz) - 2);
      ArgvThere(m.mem, root, sz, us, args, sp);
    }
    ustack := us;
  }

  lemma BelowSame(mem: seq<Page>, sz: nat, root: nat, n: nat)
    ensures BelowKept(mem, sz, mem, sz, root, n)
  {
  }

  lemma BelowTrans(mem0: seq<Page>, mem1: seq<Page>, mem2: seq<Page>, sz: nat, root: nat, n: nat)
    requires BelowKept(mem0, sz, mem1, sz, root, n) && BelowKept(mem1, sz, mem2, sz, root, n)
    ensures BelowKept(mem0, sz, mem2, sz, root, n)
  {
  }

  lemma StackSize(mem: seq<Page>, root: nat, sz: nat)
    requires StackOpen(mem, root, sz) && Guarded(mem, root, sz)
    ensures sz % PGSIZE == 0 && sz >= STACK && 2 <= Pages(sz) <= TRAPFRAME && (Pages(sz) - 2) * PGSIZE <= sz - PGSIZE
  {
  }

  lemma TooLong(args: seq<seq<byte>>, i: nat)
    requires i <= |args| && Taken(args, i) > PGSIZE
    ensures !ArgsFit(args)
  {
    TakenGrows(args, i, |args|);
  }

  predicate PageReplaced(m0: Page, w0: Own, m1: Page, w1: Own, oldr: nat, newr: nat) {
    if w0.Free? || OfRoot(w0, oldr) then w1.Free? || OfRoot(w1, newr) else w1 == w0 && m1 == m0
  }

  /** The pages of the old image and the free pages have become free pages and pages of the new image. */
  ghost predicate Replaced(mem0: seq<Page>, own0: seq<Own>, mem1: seq<Page>, own1: seq<Own>, oldr: nat, newr: nat) {
    && |mem0| == |own0| == |mem1| == |own1|
    && forall q: nat :: 0 < q < |own0| ==> PageReplaced(mem0[q], own0[q], mem1[q], own1[q], oldr, newr)
  }

  /** The image is ready to run: below the guard page the program of the file with the access its headers ask for, and the
      arguments on the stack. */
  ghost predicate Ready(mem: seq<Page>, root: nat, sz: nat, file: seq<byte>, phs: seq<Segment>, args: seq<seq<byte>>,
                        ustack: seq<nat>, sp: nat)
  {
    && Guarded(mem, root, sz) && Pages(sz) >= 2 && Shows(mem, root, sz, file, phs, |phs|, Pages(sz) - 2)
    && Allows(mem, root, sz, phs, |phs|, Pages(sz) - 2)
    && |ustack| == |args| && ArgsAt(mem, root, sz, ustack, args, sp) && ReadsBack(mem, root, sz, sp, Words(ustack + [0]))
    && Argv(mem, root, sz, ustack, sp) && sp % 16 == 0
  }

  /** The size of the image, whose program takes less than n pages. */
  ghost predicate SizeOf(phs: seq<Segment>, sz: nat, n: nat) {
    var end := EndOf(phs, |phs|);
    sz == Pages(end) * PGSIZE + STACK && EndsBelow(phs, |phs|, end) && Pages(end) < n
  }

  lemma SizeIs(phs: seq<Segment>, sz: nat, n: nat)
    requires sz == Pages(EndOf(phs, |phs|)) * PGSIZE + STACK && EndsBelow(phs, |phs|, EndOf(phs, |phs|)) && Pages(EndOf(phs, |phs|)) < n
    ensures SizeOf(phs, sz, n)
  {
  }

  /** Pages that are enough for the program, the stack and their tables. */
  function Needed(phs: seq<Segment>): nat { 3 * Pages(EndOf(phs, |phs|)) + 6 }

  lemma NeededIs(phs: seq<Segment>)
    ensures Needed(phs) == 3 * Pages(EndOf(phs, |phs|)) + 6
  {
  }

  /** Fills the empty image under root: the segments, the stack and the arguments. */
  method FillImage(m: Memory, root: nat, file: seq<byte>, phs: seq<Segment>, args: seq<seq<byte>>,
                   ghost mem0: seq<Page>, ghost own0: seq<Own>, ghost tf: nat)
    returns (ok: bool, sz: nat, sp: nat, ghost ustack: seq<nat>)
    requires m.Valid() && Draft(mem0, own0, m.mem, m.own, root, 0, tf) && |m.mem| <= TRAPFRAME
    requires |args| < MAXARG && forall k: nat :: k < |args| ==> |args[k]| < PGSIZE
    modifies m
    ensures m.Valid() && Draft(mem0, own0, m.mem, m.own, root, sz, tf)
    ensures ok ==> AllLoadable(file, phs) && ArgsFit(args) && SizeOf(phs, sz, |m.mem|)
    ensures !ok ==> !AllLoadable(file, phs) || !ArgsFit(args) || |old(m.free)| < Needed(phs)
    ensures ok ==> Ready(m.mem, root, sz, file, phs, args, ustack, sp)
  {
    hide TreeOk, FreeListOk, Shows, Allows, Full, BelowKept, ArgsAt, ReadsBack, EndsBelow, Image, TopsAt, PagePrivate, Pages, Argv;
    hide StackOpen, AllLoadable, ArgsFit, EndOf, SizeOf, Needed, Guarded;
    NeededIs(phs);
    sp, ustack := 0, [];
    ok, sz := LoadSegments(m, root, file, phs, mem0, own0, tf);
    if !ok { return; }
    ghost var mem1, sz0 := m.mem, sz;
    ghost var n := Pages(sz);
    DraftPages(mem0, own0, m.mem, m.own, root, sz, tf);
    var sz1 := AddStack(m, root, sz, mem0, own0, tf);
    if sz1 == 0 { return false, Pages(sz) * PGSIZE, 0, []; }
    sz := sz1;
    SizeIs(phs, sz, |m.mem|);
    ghost var mem2 := m.mem;
    ShowsKept(mem1, sz0, mem2, sz, root, n, file, phs, |phs|);
    AllowsKept(mem1, sz0, mem2, sz, root, n, phs, |phs|);
    assert Pages(sz) - 2 == n;
    ok, sp, ustack := PushArgs(m, root, sz, args, mem0, own0, tf);
    if ok {
      ShowsKept(mem2, sz, m.mem, sz, root, n, file, phs, |phs|);
      AllowsKept(mem2, sz, m.mem, sz, root, n, phs, |phs|);
    }
  }

  /** Builds an image for p on the side: its root and size, or 0 and every page back. */
  method BuildImage(m: Memory, p: Proc, trampoline: nat, file: seq<byte>, phs: seq<Segment>, args: seq<seq<byte>>)
    returns (root: nat, sz: nat, sp: nat, ghost ustack: seq<nat>)
    requires ProcOk(m, p) && |m.mem| <= TRAPFRAME
    requires |args| < MAXARG && forall k: nat :: k < |args| ==> |args[k]| < PGSIZE
    modifies m
    ensures m.Valid()
    ensures root == 0 ==> Restored(old(m.mem), old(m.own), m.mem, m.own)
    ensures root == 0 ==> !AllLoadable(file, phs) || !ArgsFit(args) || |old(m.free)| < Needed(phs) + 5
    ensures root != 0 ==> AllLoadable(file, phs) && ArgsFit(args) && SizeOf(phs, sz, |m.mem|)
    ensures root != 0 ==> Draft(old(m.mem), old(m.own), m.mem, m.own, root, sz, p.trapframe)
                          && Ready(m.mem, root, sz, file, phs, args, ustack, sp)
  {
    hide TreeOk, FreeListOk, Ready, Private, Built, TopsAt, Blank, Restored, Destroyed, AllLoadable, ArgsFit, SizeOf, Needed;
    ghost var mem0, own0, tf := m.mem, m.own, p.trapframe;
    ustack, sz, sp := [], 0, 0;
    root := m.ProcPagetable(trampoline, p.trapframe);
    if root == 0 { return; }
    BlankDraft(mem0, own0, m.mem, m.own, root, trampoline, p.trapframe);
    var ok;
    ok, sz, sp, ustack := FillImage(m, root, file, phs, args, mem0, own0, tf);
    if !ok {
      ghost var mem1, own1 := m.mem, m.own;
      m.ProcFreepagetable(root, sz);
      PrivateDestroyed(mem0, own0, mem1, own1, m.mem, m.own, root);
      root := 0;
    }
  }

  lemma BlankDraft(mem0: seq<Page>, own0: seq<Own>, mem1: seq<Page>, own1: seq<Own>, root: nat, trampoline: nat, tf: nat)
    requires Built(mem0, own0, mem1, own1, root) && IsRoot(own1, root) && own0[root].Free? && Blank(mem1, root, trampoline, tf)
    ensures Draft(mem0, own0, mem1, own1, root, 0, tf)
  {
    BuiltPrivate(mem0, own0, mem1, own1, root);
  }

  /** The commit of kexec(): the process gets the new image, and the old one is freed. */
  method SwitchImage(m: Memory, p: Proc, root: nat, sz: nat, ghost file: seq<byte>, ghost phs: seq<Segment>,
                     ghost args: seq<seq<byte>>, ghost ustack: seq<nat>, ghost sp: nat, ghost mem0: seq<Page>, ghost own0: seq<Own>)
    requires m.Valid() && Draft(mem0, own0, m.mem, m.own, root, sz, p.trapframe) && Ready(m.mem, root, sz, file, phs, args, ustack, sp)
    requires TreeOk(mem0, own0) && Image(mem0, own0, p.pagetable, p.sz) && 0 < p.trapframe < |own0| && own0[p.trapframe].Kernel?
    modifies m, p
    ensures ProcOk(m, p) && p.trapframe == old(p.trapframe) && p.pagetable == root && p.sz == sz && |m.mem| == |old(m.mem)|
    ensures Replaced(mem0, own0, m.mem, m.own, old(p.pagetable), root) && Ready(m.mem, root, sz, file, phs, args, ustack, sp)
  {
    hide TreeOk, FreeListOk, ArgsAt, ReadsBack, Guarded, Private, BelowKept, Shows, Allows, Pages, Replaced, Destroyed, TopsAt, Words, WordBytes, Argv;
    ghost var mem1, own1, tf := m.mem, m.own, p.trapframe;
    var oldpagetable, oldsz := p.pagetable, p.sz;
    OldImage(mem0, own0, mem1, own1, root, sz, oldpagetable, oldsz, p.trapframe);
    p.pagetable, p.sz := root, sz;
    m.ProcFreepagetable(oldpagetable, oldsz);
    Committed(mem0, own0, mem1, own1, m.mem, m.own, root, sz, oldpagetable, ustack, args, sp, tf);
    ShowsKept(mem1, sz, m.mem, sz, root, Pages(sz) - 2, file, phs, |phs|);
    AllowsKept(mem1, sz, m.mem, sz, root, Pages(sz) - 2, phs, |phs|);
    ArgvThere(m.mem, root, sz, ustack, args, sp);
  }

  /** The loaded program is the one the headers name, exactly if no header is cut to 32 bits. */
  ghost predicate AsHeadersSay(file: seq<byte>, phs: seq<Segment>) {
    && (HeadersHold(file, phs) <==> forall k: nat :: k < |phs| ==> Narrow(phs[k]))
    && (HeadersHold(file, phs) ==> forall a: nat :: ProgramByte(file, phs, |phs|, a) == HeaderByte(file, phs, |phs|, a))
  }

  /** kexec(). `header` is false if the file cannot be opened or is not an executable. On failure the
      process keeps its image and the free pages are the same; on success it has the new image, with
      the program of the file in it and the arguments on the stack, and the old one is gone. It fails only if the file, a
      segment or the arguments are no good, or memory is short. */
  method Kexec(m: Memory, p: Proc, trampoline: nat, header: bool, file: seq<byte>, phs: seq<Segment>,
               args: seq<seq<byte>>) returns (r: int, sp: nat, ghost ustack: seq<nat>)
    requires ProcOk(m, p) && |m.mem| <= TRAPFRAME
    requires |args| < MAXARG && forall k: nat :: k < |args| ==> |args[k]| < PGSIZE
    modifies m, p
    ensures ProcOk(m, p) && p.trapframe == old(p.trapframe) && (r == -1 || r == |args|)
    ensures r == -1 ==> p.pagetable == old(p.pagetable) && p.sz == old(p.sz)
                        && Restored(old(m.mem), old(m.own), m.mem, m.own)
                        && CellsKept(old(m.mem), m.mem, p.pagetable, p.sz)
    ensures r == -1 ==> !header || !AllLoadable(file, phs) || !ArgsFit(args) || |old(m.free)| < Needed(phs) + 5
    ensures r != -1 ==> header && AllLoadable(file, phs) && ArgsFit(args) && SizeOf(phs, p.sz, |m.mem|)
    ensures r != -1 && |file| < U32 ==> AsHeadersSay(file, phs)
    ensures r != -1 && |m.mem| <= U32 / PGSIZE ==> forall k: nat :: k < |phs| && phs[k].load ==> phs[k].filesz < U32
    ensures r != -1 ==> |old(m.own)| > p.pagetable && old(m.own)[p.pagetable].Free?
                        && Replaced(old(m.mem), old(m.own), m.mem, m.own, old(p.pagetable), p.pagetable)
                        && Ready(m.mem, p.pagetable, p.sz, file, phs, args, ustack, sp)
  {
    hide TreeOk, FreeListOk, AllLoadable, ArgsFit, SizeOf, Needed, AsHeadersSay, Ready, Replaced, Private;
    ghost var mem0, own0 := m.mem, m.own;
    if !header { return -1, 0, []; }
    var root, sz;
    root, sz, sp, ustack := BuildImage(m, p, trampoline, file, phs, args);
    if root == 0 {
      RestoredKeeps(mem0, own0, m.mem, m.own, p.pagetable, p.sz);
      return -1, 0, [];
    }
    SwitchImage(m, p, root, sz, file, phs, args, ustack, sp, mem0, own0);
    HeadersRead(file, phs);
    SmallFiles(phs, sz, |m.mem|);
    r := |args|;
  }

  lemma HeadersRead(file: seq<byte>, phs: seq<Segment>)
    requires AllLoadable(file, phs)
    ensures |file| < U32 ==> AsHeadersSay(file, phs)
  {
    if |file| < U32 {
      HeadersIff(file, phs);
      if HeadersHold(file, phs) {
        forall a: nat ensures ProgramByte(file, phs, |phs|, a) == HeaderByte(file, phs, |phs|, a) { SameProgram(file, phs, |phs|, a); }
      }
    }
  }

  /** With at most 4 GB of memory no segment of 4 GB is loaded. */
  lemma SmallFiles(phs: seq<Segment>, sz: nat, n: nat)
    requires SizeOf(phs, sz, n)
    ensures n <= U32 / PGSIZE ==> forall k: nat :: k < |phs| && phs[k].load ==> phs[k].filesz < U32
  {
    var end := EndOf(phs, |phs|);
    assert end <= Pages(end) * PGSIZE;
  }

  /** While the new image is built the old one stays. */
  lemma OldImage(mem0: seq<Page>, own0: seq<Own>, mem1: seq<Page>, own1: seq<Own>, root: nat, sz: nat, oldr: nat, oldsz: nat,
                 tf: nat)
    requires TreeOk(mem0, own0) && TreeOk(mem1, own1) && Draft(mem0, own0, mem1, own1, root, sz, tf)
    requires Image(mem0, own0, oldr, oldsz) && 0 < tf < |own0| && own0[tf].Kernel?
    ensures Image(mem1, own1, oldr, oldsz) && oldr != root && |own1| == |own0| && own1[tf].Kernel?
  {
    PrivateOnly(mem0, own0, mem1, own1, root);
    Isolation(mem0, own0, mem1, own1, root, oldr, oldsz);
    assert PagePrivate(mem0[tf], own0[tf], mem1[tf], own1[tf], root);
  }

  /** Destroying the old image does not touch the new one. */
  lemma Committed(mem0: seq<Page>, own0: seq<Own>, mem1: seq<Page>, own1: seq<Own>, mem2: seq<Page>, own2: seq<Own>,
                  root: nat, sz: nat, oldr: nat, ustack: seq<nat>, args: seq<seq<byte>>, sp: nat, tf: nat)
    requires TreeOk(mem0, own0) && TreeOk(mem1, own1) && TreeOk(mem2, own2) && Draft(mem0, own0, mem1, own1, root, sz, tf)
    requires Destroyed(mem1, own1, mem2, own2, oldr) && oldr != root && IsRoot(own0, oldr)
    requires Guarded(mem1, root, sz) && ArgsAt(mem1, root, sz, ustack, args, sp)
    requires ReadsBack(mem1, root, sz, sp, Words(ustack + [0]))
    ensures Replaced(mem0, own0, mem2, own2, oldr, root)
    ensures Image(mem2, own2, root, sz) && TopsAt(mem2, root, tf) && Guarded(mem2, root, sz)
    ensures ArgsAt(mem2, root, sz, ustack, args, sp) && ReadsBack(mem2, root, sz, sp, Words(ustack + [0]))
    ensures BelowKept(mem1, sz, mem2, sz, root, Pages(sz) - 2)
    ensures |mem2| == |own2| == |own1| == |mem1| && (0 < tf < |own1| && own1[tf].Kernel? ==> own2[tf].Kernel?)
  {
    if 0 < tf < |own1| { assert PageDestroyed(mem1[tf], own1[tf], mem2[tf], own2[tf], oldr); }
    DestroyedOnly(mem1, own1, mem2, own2, oldr);
    Isolation(mem1, own1, mem2, own2, oldr, root, sz);
    forall q: nat | 0 < q < |own0| ensures PageReplaced(mem0[q], own0[q], mem2[q], own2[q], oldr, root) {
      assert PagePrivate(mem0[q], own0[q], mem1[q], own1[q], root);
      assert PageDestroyed(mem1[q], own1[q], mem2[q], own2[q], oldr);
      if OfRoot(own0[q], root) { NoOrphans(mem0, own0, root, q); }
    }
    SameReads(mem1, mem2, root, sz, sp, Words(ustack + [0]));
    forall k: nat | k < |ustack| ensures ArgAt(mem2, root, sz, ustack[k], args[k], sp) {
      assert ArgAt(mem1, root, sz, ustack[k], args[k], sp);
      SameReads(mem1, mem2, root, sz, ustack[k], args[k] + [0]);
    }
    assert Pages(sz) - 2 < TRAPFRAME ==> CellOf(mem2, root, sz, Pages(sz) - 2) == CellOf(mem1, root, sz, Pages(sz) - 2);
  }

  lemma SameReads(mem0: seq<Page>, mem1: seq<Page>, root: nat, sz: nat, va: nat, bytes: seq<byte>)
    requires CellsKept(mem0, mem1, root, sz) && ReadsBack(mem0, root, sz, va, bytes)
    ensures ReadsBack(mem1, root, sz, va, bytes)
  {
    forall a: nat | va <= a < va + |bytes|
      ensures Writable(mem1, root, sz, a) && ByteAt(mem1, root, sz, a) == bytes[a - va]
    {
      assert Writable(mem0, root, sz, a);
      assert CellOf(mem1, root, sz, a / PGSIZE) == CellOf(mem0, root, sz, a / PGSIZE);
    }
  }
}
