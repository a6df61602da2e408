/** Directory records as the bytes of a directory's file: struct dirent of kernel/fs.h. */
module Dirents {
  import opened FsSpec
  import Dirs

  const DIRSIZ: nat := 14
  const RECORD: nat := 16                 // sizeof(struct dirent)

  /** A name that fits a record. */
  predicate NameOk(name: string) { |name| <= DIRSIZ && forall i :: 0 <= i < |name| ==> 0 < name[i] as int < 256 }

  function Encode(inum: nat, name: string): (b: seq<byte>)
    requires inum < 65536 && NameOk(name)
    ensures |b| == RECORD
  {
    [inum % 256, inum / 256] + seq(DIRSIZ, i requires 0 <= i < DIRSIZ => if i < |name| then name[i] as int else 0)
  }

  /** The characters from k up to a NUL or the end of the record. */
  function NameFrom(b: seq<byte>, k: nat): (name: string)
    requires k <= |b|
    decreases |b| - k
  {
    if k == |b| || b[k] == 0 then "" else [b[k] as char] + NameFrom(b, k + 1)
  }

  function Decode(b: seq<byte>): Dirs.Dirent
    requires |b| == RECORD
  {
    var lo: nat, hi: nat := b[0], b[1];
    Dirs.Dirent(lo + 256 * hi, NameFrom(b, 2))
  }

  lemma {:induction false} NameBack(b: seq<byte>, name: string, k: nat)
    requires |b| == RECORD && NameOk(name) && k <= |name|
    requires forall j :: 2 <= j < RECORD ==> b[j] == if j - 2 < |name| then name[j - 2] as int else 0
    ensures NameFrom(b, 2 + k) == name[k..]
    decreases |name| - k
  {
    if k < |name| {
      assert b[2 + k] == name[k] as int;
      NameBack(b, name, k + 1);
      assert name[k..] == [name[k]] + name[k + 1..];
    } else if k < DIRSIZ {
      assert b[2 + k] == 0;
    }
  }

  /** Reading a record back. */
  lemma DecodeEncode(inum: nat, name: string)
    requires inum < 65536 && NameOk(name)
    ensures Decode(Encode(inum, name)) == Dirs.Dirent(inum, name)
  {
    var b := Encode(inum, name);
    assert b[0] == inum % 256 && b[1] == inum / 256;
    NameBack(b, name, 0);
    assert name[0..] == name;
  }

  /** The records of a directory whose file has contents c. */
  function Records(c: seq<byte>): (r: seq<Dirs.Dirent>)
    ensures |r| == |c| / RECORD
  {
    seq(|c| / RECORD, k requires 0 <= k < |c| / RECORD => Decode(c[RECORD * k..RECORD * k + RECORD]))
  }

  lemma RecordsConcat(a: seq<byte>, b: seq<byte>)
    requires |a| % RECORD == 0
    ensures Records(a + b) == Records(a) + Records(b)
  {
    var n := |a| / RECORD;
    assert |a| == RECORD * n;
    forall k: nat | k < |a + b| / RECORD ensures Records(a + b)[k] == (Records(a) + Records(b))[k] {
      var c := (a + b)[RECORD * k..RECORD * k + RECORD];
      if k < n {
        assert c == a[RECORD * k..RECORD * k + RECORD];
      } else {
        assert c == b[RECORD * (k - n)..RECORD * (k - n) + RECORD];
      }
    }
  }

  lemma RecordsOne(inum: nat, name: string)
    requires inum < 65536 && NameOk(name)
    ensures Records(Encode(inum, name)) == [Dirs.Dirent(inum, name)]
  {
    var b := Encode(inum, name);
    assert b[0..RECORD] == b;
    DecodeEncode(inum, name);
  }

  /** Zeroes are unused records. */
  lemma RecordsZero(c: seq<byte>)
    requires forall p :: 0 <= p < |c| ==> c[p] == 0
    ensures forall k: nat :: k < |Records(c)| ==> Records(c)[k] == Dirs.UNUSED
  {
  }

  /** What dirlink() and unlink() write through writei(): a record in place of another, or after the last. */
  lemma RecordsSplice(c: seq<byte>, k: nat, inum: nat, name: string)
    requires |c| % RECORD == 0 && k <= |c| / RECORD && inum < 65536 && NameOk(name)
    ensures RECORD * k <= |c|
    ensures var r := Records(Splice(c, RECORD * k, Encode(inum, name)));
            r == if k < |c| / RECORD then Records(c)[k := Dirs.Dirent(inum, name)] else Records(c) + [Dirs.Dirent(inum, name)]
  {
    var n := |c| / RECORD;
    assert |c| == RECORD * n;
    var b, a := Encode(inum, name), c[..RECORD * k];
    RecordsOne(inum, name);
    if k < n {
      var z := c[RECORD * k + RECORD..];
      var m := c[RECORD * k..RECORD * k + RECORD];
      assert Splice(c, RECORD * k, b) == a + b + z && c == a + m + z;
      RecordsConcat(a + b, z);
      RecordsConcat(a, b);
      RecordsConcat(a + m, z);
      RecordsConcat(a, m);
      assert |Records(m)| == 1;
    } else {
      assert a == c && Splice(c, RECORD * k, b) == c + b;
      RecordsConcat(c, b);
    }
  }
}
