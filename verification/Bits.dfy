/** The free-block bitmap of kernel/fs.c: bit b lives in byte b / 8 under mask 1 << (b % 8). */
module Bits {
  function Mask(k: nat): bv8
    requires k < 8
  {
    1 << k
  }

  predicate Bit(bytes: seq<bv8>, b: nat)
    requires b < 8 * |bytes|
  {
    bytes[b / 8] & Mask(b % 8) != 0
  }

  function SetBit(bytes: seq<bv8>, b: nat): seq<bv8>
    requires b < 8 * |bytes|
  {
    bytes[b / 8 := bytes[b / 8] | Mask(b % 8)]
  }

  function ClearBit(bytes: seq<bv8>, b: nat): seq<bv8>
    requires b < 8 * |bytes|
  {
    bytes[b / 8 := bytes[b / 8] & !Mask(b % 8)]
  }

  /** Setting one bit leaves every other bit, in its own byte and elsewhere, alone. */
  lemma SetBitAt(bytes: seq<bv8>, b: nat, c: nat)
    requires b < 8 * |bytes| && c < 8 * |bytes|
    ensures Bit(SetBit(bytes, b), c) <==> c == b || Bit(bytes, c)
  {
    MaskUpdates(bytes[b / 8], b % 8, c % 8);
    if c / 8 == b / 8 { assert c % 8 == b % 8 <==> c == b; }
  }

  /** Clearing one bit leaves every other bit alone. */
  lemma ClearBitAt(bytes: seq<bv8>, b: nat, c: nat)
    requires b < 8 * |bytes| && c < 8 * |bytes|
    ensures Bit(ClearBit(bytes, b), c) <==> c != b && Bit(bytes, c)
  {
    MaskUpdates(bytes[b / 8], b % 8, c % 8);
    if c / 8 == b / 8 { assert c % 8 == b % 8 <==> c == b; }
  }

  lemma MaskUpdates(x: bv8, k: nat, j: nat)
    requires k < 8 && j < 8
    ensures (x | Mask(k)) & Mask(j) != 0 <==> k == j || x & Mask(j) != 0
    ensures (x & !Mask(k)) & Mask(j) != 0 <==> k != j && x & Mask(j) != 0
  {
    assert k == 0 || k == 1 || k == 2 || k == 3 || k == 4 || k == 5 || k == 6 || k == 7;
    assert j == 0 || j == 1 || j == 2 || j == 3 || j == 4 || j == 5 || j == 6 || j == 7;
  }

  /** The bitmap bytes represent the set of blocks in use. */
  ghost predicate Represents(bytes: seq<bv8>, used: seq<bool>) {
    |used| <= 8 * |bytes| && forall b :: 0 <= b < |used| ==> (Bit(bytes, b) <==> used[b])
  }

  lemma SetRepresents(bytes: seq<bv8>, used: seq<bool>, b: nat)
    requires Represents(bytes, used) && b < |used|
    ensures Represents(SetBit(bytes, b), used[b := true])
  {
    forall c | 0 <= c < |used| ensures Bit(SetBit(bytes, b), c) <==> used[b := true][c] {
      SetBitAt(bytes, b, c);
    }
  }

  lemma ClearRepresents(bytes: seq<bv8>, used: seq<bool>, b: nat)
    requires Represents(bytes, used) && b < |used|
    ensures Represents(ClearBit(bytes, b), used[b := false])
  {
    forall c | 0 <= c < |used| ensures Bit(ClearBit(bytes, b), c) <==> used[b := false][c] {
      ClearBitAt(bytes, b, c);
    }
  }
}
