/** struct dinode of kernel/fs.h as words and bytes of an inode block. */
module Dinodes {
  import opened FsSpec

  const WORDS: nat := 16                  // sizeof(struct dinode) / sizeof(uint)
  const SHORT: int := 0x1_0000

  /** Two 16-bit numbers in a word. */
  function Halves(lo: int, hi: int): nat { lo % SHORT + SHORT * (hi % SHORT) }

  /** A 16-bit number with its sign. */
  function Signed(x: nat): int { if x < 0x8000 then x else x - SHORT }

  /** Type and major, minor and nlink, size, addrs[]. */
  function DinodeWords(ip: Dinode): (w: seq<nat>)
    ensures |w| == WORDS
  {
    var head: seq<nat> := [Halves(ip.kind, ip.major), Halves(ip.minor, ip.nlink), ip.size];
    head + ip.addrs
  }

  function FromWords(w: seq<nat>): Dinode
    requires |w| == WORDS
  {
    Dinode(w[0] % SHORT, Signed(w[0] / SHORT % SHORT), Signed(w[1] % SHORT), Signed(w[1] / SHORT % SHORT), w[2], w[3..])
  }

  predicate IsShort(x: int) { -0x8000 <= x < 0x8000 }

  /** The fields fit their C types. */
  predicate Plain(ip: Dinode) {
    && ip.kind < SHORT && IsShort(ip.major) && IsShort(ip.minor) && IsShort(ip.nlink) && ip.size < UINT_LIMIT
    && forall t :: 0 <= t <= NDIRECT ==> ip.addrs[t] < UINT_LIMIT
  }

  lemma HalvesBack(lo: int, hi: int)
    requires 0 <= lo < SHORT && 0 <= hi < SHORT
    ensures Halves(lo, hi) % SHORT == lo && Halves(lo, hi) / SHORT % SHORT == hi && Halves(lo, hi) < UINT_LIMIT
  {
  }

  lemma SignedBack(x: int)
    requires IsShort(x)
    ensures Signed(x % SHORT) == x
  {
  }

  /** Reading an inode back. */
  lemma DinodeRoundTrip(ip: Dinode)
    requires Plain(ip)
    ensures FromWords(DinodeWords(ip)) == ip
  {
    HalvesBack(ip.kind, ip.major % SHORT);
    HalvesBack(ip.minor % SHORT, ip.nlink % SHORT);
    SignedBack(ip.major);
    SignedBack(ip.minor);
    SignedBack(ip.nlink);
    assert Halves(ip.kind, ip.major) == Halves(ip.kind, ip.major % SHORT);
    assert Halves(ip.minor, ip.nlink) == Halves(ip.minor % SHORT, ip.nlink % SHORT);
    assert DinodeWords(ip)[3..] == ip.addrs;
  }

  /** Whatever words stand there, they are read as an inode whose fields fit. */
  lemma FromWordsPlain(w: seq<nat>)
    requires |w| == WORDS && forall t :: 0 <= t < WORDS ==> w[t] < UINT_LIMIT
    ensures Plain(FromWords(w))
  {
  }

  lemma WordsFit(ip: Dinode)
    requires Plain(ip)
    ensures forall t :: 0 <= t < WORDS ==> DinodeWords(ip)[t] < UINT_LIMIT
  {
    HalvesBack(ip.kind, ip.major % SHORT);
    HalvesBack(ip.minor % SHORT, ip.nlink % SHORT);
  }

  /** Inode k of a block. */
  function SlotWords(b: Block, k: nat): (w: seq<nat>)
    requires k < IPB
    ensures |w| == WORDS
  {
    seq<nat>(WORDS, t requires 0 <= t < WORDS => Word(b, WORDS * k + t))
  }

  /** The words ws stored from entry `at` on. */
  function PutWords(b: Block, at: nat, ws: seq<nat>): Block
    requires at + |ws| <= NINDIRECT && forall t :: 0 <= t < |ws| ==> ws[t] < UINT_LIMIT
    decreases |ws|
  {
    if ws == [] then b else PutWords(PutWord(b, at, ws[0]), at + 1, ws[1..])
  }

  lemma {:induction false} PutWordsAt(b: Block, at: nat, ws: seq<nat>, f: nat)
    requires at + |ws| <= NINDIRECT && f < NINDIRECT && forall t :: 0 <= t < |ws| ==> ws[t] < UINT_LIMIT
    ensures Word(PutWords(b, at, ws), f) == if at <= f < at + |ws| then ws[f - at] else Word(b, f)
    decreases |ws|
  {
    if ws != [] {
      hide Word, PutWord;
      WordPut(b, at, ws[0], f);
      PutWordsAt(PutWord(b, at, ws[0]), at + 1, ws[1..], f);
    }
  }

  /** The block with inode k replaced. */
  function PutSlot(b: Block, k: nat, ip: Dinode): Block
    requires k < IPB && Plain(ip)
  {
    WordsFit(ip);
    PutWords(b, WORDS * k, DinodeWords(ip))
  }

  /** Writing one inode of a block leaves the others. */
  lemma PutSlotAt(b: Block, k: nat, ip: Dinode, j: nat)
    requires k < IPB && Plain(ip) && j < IPB
    ensures SlotWords(PutSlot(b, k, ip), j) == if j == k then DinodeWords(ip) else SlotWords(b, j)
  {
    hide Word, PutWords, DinodeWords, Plain;
    WordsFit(ip);
    var r := PutSlot(b, k, ip);
    forall t: nat | t < WORDS
      ensures Word(r, WORDS * j + t) == if j == k then DinodeWords(ip)[t] else Word(b, WORDS * j + t)
    {
      PutWordsAt(b, WORDS * k, DinodeWords(ip), WORDS * j + t);
    }
    var w, x := SlotWords(r, j), if j == k then DinodeWords(ip) else SlotWords(b, j);
    assert forall t: nat :: t < WORDS ==> w[t] == x[t];
  }
}
