/** The Kernighan and Ritchie allocator of user/umalloc.c. Addresses count headers: a block of n units
    holds one header and n - 1 units for the caller. The header `base` lies below the heap. */
module Kandr {
  const BASE: nat := 0

  /** The free list from base on, in order of address; `ptr` closes the circle. */
  ghost predicate ListOk(list: seq<nat>, ptr: map<nat, nat>, size: map<nat, nat>) {
    && |list| >= 1 && list[0] == BASE && BASE in size && size[BASE] == 0
    && (forall i: nat :: i < |list| ==> list[i] in ptr && list[i] in size)
    && (forall i: nat, j: nat :: i < j < |list| ==> list[i] + size[list[i]] < list[j])
    && (forall i: nat, j: nat :: j == i + 1 < |list| ==> ptr[list[i]] == list[j]) && ptr[list[|list| - 1]] == BASE
  }

  /** Every unit from sbrk belongs to exactly one block, which is free or live: own says to which. */
  ghost predicate Tiled(list: seq<nat>, size: map<nat, nat>, live: map<nat, nat>, own: seq<nat>, start: nat) {
    && 1 <= start <= |own|
    && (forall i: nat :: 0 < i < |list| ==> list[i] in size && FreeBlock(list[i], size[list[i]], live, own, start))
    && (forall a :: a in live ==> a in size && size[a] == live[a] && LiveBlock(a, live[a], own, start))
    && (forall u: nat :: start <= u < |own| ==> UnitOk(list, size, live, own, u))
  }

  /** The block that own names for unit u contains it. */
  ghost predicate UnitOk(list: seq<nat>, size: map<nat, nat>, live: map<nat, nat>, own: seq<nat>, u: nat)
    requires u < |own|
  {
    (own[u] in live || own[u] in list) && own[u] != BASE && own[u] in size && own[u] <= u < own[u] + size[own[u]]
  }

  ghost predicate Covers(a: nat, n: nat, own: seq<nat>) {
    a + n <= |own| && forall u: nat :: a <= u < a + n ==> own[u] == a
  }

  ghost predicate FreeBlock(a: nat, n: nat, live: map<nat, nat>, own: seq<nat>, start: nat) {
    a !in live && start <= a && n >= 1 && Covers(a, n, own)
  }

  ghost predicate LiveBlock(a: nat, n: nat, own: seq<nat>, start: nat) { start <= a && n >= 1 && Covers(a, n, own) }

  /** The last element of the list below a. */
  ghost function Pred(list: seq<nat>, a: nat): (k: nat)
    requires |list| >= 1 && list[0] < a
    ensures k < |list| && list[k] < a && (k + 1 < |list| ==> a <= list[k + 1])
  {
    if |list| == 1 || a <= list[1] then 0 else 1 + Pred(list[1..], a)
  }

  ghost function IndexOf(list: seq<nat>, a: nat): (k: nat)
    requires a in list
    ensures k < |list| && list[k] == a
  {
    if list[0] == a then 0 else 1 + IndexOf(list[1..], a)
  }

  /** How many steps around a circle of n lead from j to k. */
  function Steps(j: nat, k: nat, n: nat): nat
    requires j < n && k < n
  {
    if j <= k then k - j else n - j + k
  }

  /** own with the units of a block renamed. */
  function Renamed(own: seq<nat>, lo: nat, n: nat, a: nat): (r: seq<nat>)
    requires lo + n <= |own|
    ensures |r| == |own| && forall u: nat :: u < |own| ==> r[u] == if lo <= u < lo + n then a else own[u]
  {
    seq(|own|, u requires 0 <= u < |own| => if lo <= u < lo + n then a else own[u])
  }

  /** The element before bp stops the search of free(), and no other does. */
  lemma SearchStops(list: seq<nat>, ptr: map<nat, nat>, size: map<nat, nat>, bp: nat, j: nat)
    requires ListOk(list, ptr, size) && j < |list| && bp !in list && bp > BASE
    ensures var p, q := list[j], ptr[list[j]];
            (bp > p && bp < q) || (p >= q && (bp > p || bp < q)) <==> j == Pred(list, bp)
  {
    var k := Pred(list, bp);
    if j < k { assert list[j] + size[list[j]] < list[k]; }
    if j + 1 < k { assert list[j + 1] + size[list[j + 1]] < list[k]; }
    if k + 1 < j { assert list[k + 1] + size[list[k + 1]] < list[j]; }
    if j + 1 < |list| { assert list[j] + size[list[j]] < list[j + 1]; }
    if 0 < j { assert list[0] + size[list[0]] < list[j]; }
  }

  /** One step of the search: where it goes, and that it gets closer. */
  lemma SearchStep(list: seq<nat>, ptr: map<nat, nat>, size: map<nat, nat>, bp: nat, j: nat)
    requires ListOk(list, ptr, size) && j < |list| && list[0] < bp && bp !in list
    ensures list[j] in ptr && ptr[list[j]] == list[if j + 1 < |list| then j + 1 else 0]
    ensures var p, q := list[j], ptr[list[j]];
            (bp > p && bp < q) || (p >= q && (bp > p || bp < q)) <==> j == Pred(list, bp)
    ensures var k := Pred(list, bp);
            j != k ==> Steps(if j + 1 < |list| then j + 1 else 0, k, |list|) < Steps(j, k, |list|)
  {
    SearchStops(list, ptr, size, bp, j);
    if j + 1 < |list| { assert ptr[list[j]] == list[j + 1]; }
  }

  /** The list with bp put in after its predecessor k, in place of the next element if they touch. */
  ghost function Spliced(list: seq<nat>, k: nat, bp: nat, touches: bool): seq<nat>
    requires k < |list| && (touches ==> k + 1 < |list|)
  {
    list[..k + 1] + [bp] + list[if touches then k + 2 else k + 1..]
  }

  /** A live block and its neighbours on the free list do not overlap. */
  lemma Neighbours(list: seq<nat>, ptr: map<nat, nat>, size: map<nat, nat>, live: map<nat, nat>, own: seq<nat>, start: nat,
                   bp: nat, k: nat)
    requires ListOk(list, ptr, size) && Tiled(list, size, live, own, start) && bp in live
    requires bp > BASE && k == Pred(list, bp)
    ensures bp !in list && list[k] + size[list[k]] <= bp && (k + 1 < |list| ==> bp + live[bp] <= list[k + 1])
  {
    assert LiveBlock(bp, live[bp], own, start) && own[bp] == bp;
    forall i: nat | i < |list| ensures list[i] != bp { }
    if k > 0 { assert FreeBlock(list[k], size[list[k]], live, own, start); }
    if k + 1 < |list| {
      assert FreeBlock(list[k + 1], size[list[k + 1]], live, own, start) && own[list[k + 1]] == list[k + 1];
    }
  }

  /** The list is in order except that element k may touch the next one and is not linked to it yet. */
  ghost predicate NearlyOk(list: seq<nat>, ptr: map<nat, nat>, size: map<nat, nat>, k: nat) {
    && |list| >= 2 && list[0] == BASE && BASE in size && size[BASE] == 0 && k + 1 < |list|
    && (forall i: nat :: i < |list| ==> list[i] in ptr && list[i] in size)
    && (forall i: nat, j: nat :: i < j < |list| && !(i == k && j == k + 1) ==> list[i] + size[list[i]] < list[j])
    && list[k] + size[list[k]] <= list[k + 1]
    && (forall i: nat, j: nat :: j == i + 1 < |list| && i != k ==> ptr[list[i]] == list[j]) && ptr[list[|list| - 1]] == BASE
  }

  /** The first half of free(): bp takes over the block above it if they touch. */
  lemma UpperHalf(list: seq<nat>, ptr: map<nat, nat>, size: map<nat, nat>, live: map<nat, nat>, own: seq<nat>, start: nat,
                  bp: nat, k: nat, touches: bool)
    requires ListOk(list, ptr, size) && Tiled(list, size, live, own, start) && bp in live && bp > BASE
    requires k == Pred(list, bp) && (touches <==> k + 1 < |list| && bp + live[bp] == list[k + 1])
    ensures var list1 := Spliced(list, k, bp, touches);
            var size1 := if touches then size[bp := size[bp] + size[list[k + 1]]] else size;
            var own1 := if touches then Renamed(own, list[k + 1], size[list[k + 1]], bp) else own;
            var ptr1 := ptr[bp := if touches then ptr[list[k + 1]] else ptr[list[k]]];
            NearlyOk(list1, ptr1, size1, k) && Tiled(list1, size1, live - {bp}, own1, start)
  {
    hide *;
    UpperNext(list, ptr, size, live, own, start, bp, k);
    Neighbours(list, ptr, size, live, own, start, bp, k);
    UpperList(list, ptr, size, bp, k, touches, live[bp]);
    UpperTiles(list, ptr, size, live, own, start, bp, k, touches);
  }

  lemma SplicedAt(list: seq<nat>, k: nat, bp: nat, touches: bool, i: nat)
    requires k < |list| && (touches ==> k + 1 < |list|) && i < |Spliced(list, k, bp, touches)|
    ensures |Spliced(list, k, bp, touches)| == |list| + (if touches then 0 else 1)
    ensures Spliced(list, k, bp, touches)[i]
            == if i <= k then list[i] else if i == k + 1 then bp else list[if touches then i else i - 1]
  {
  }

  lemma SplicedHere(list: seq<nat>, k: nat, bp: nat, touches: bool)
    requires k < |list| && (touches ==> k + 1 < |list|)
    ensures |Spliced(list, k, bp, touches)| == |list| + (if touches then 0 else 1) > k + 1
    ensures Spliced(list, k, bp, touches)[k] == list[k] && Spliced(list, k, bp, touches)[k + 1] == bp
  {
  }

  lemma UpperList(list: seq<nat>, ptr: map<nat, nat>, size: map<nat, nat>, bp: nat, k: nat, touches: bool, n: nat)
    requires ListOk(list, ptr, size) && bp !in list && bp > BASE && k < |list|
    requires list[k] + size[list[k]] <= bp && bp in size && size[bp] == n >= 1
    requires k + 1 < |list| ==> bp + n <= list[k + 1]
    requires touches <==> k + 1 < |list| && bp + n == list[k + 1]
    ensures var size1 := if touches then size[bp := n + size[list[k + 1]]] else size;
            NearlyOk(Spliced(list, k, bp, touches), ptr[bp := if touches then ptr[list[k + 1]] else ptr[list[k]]], size1, k)
  {
    var list1 := Spliced(list, k, bp, touches);
    var size1 := if touches then size[bp := n + size[list[k + 1]]] else size;
    var ptr1 := ptr[bp := if touches then ptr[list[k + 1]] else ptr[list[k]]];
    SplicedAt(list, k, bp, touches, 0);
    SplicedAt(list, k, bp, touches, k);
    SplicedAt(list, k, bp, touches, k + 1);
    assert list1[0] == BASE && BASE in size1 && size1[BASE] == 0 && |list1| >= 2;
    assert list1[k] in size1 && list1[k] + size1[list1[k]] <= list1[k + 1];
    hide *;
    forall i: nat, j: nat | i < j < |list1| && !(i == k && j == k + 1) ensures list1[i] in size1 && list1[i] + size1[list1[i]] < list1[j] {
      UpperGap(list, ptr, size, bp, k, touches, n, i, j);
    }
    forall i: nat | i < |list1| ensures list1[i] in ptr1 && list1[i] in size1
      ensures i != k ==> ptr1[list1[i]] == if i + 1 < |list1| then list1[i + 1] else BASE
    {
      UpperLink(list, ptr, size, bp, k, touches, n, i);
    }
    UpperLink(list, ptr, size, bp, k, touches, n, |list1| - 1);
    FoldNearly(list1, ptr1, size1, k);
  }

  lemma FoldNearly(list: seq<nat>, ptr: map<nat, nat>, size: map<nat, nat>, k: nat)
    requires |list| >= 2 && list[0] == BASE && BASE in size && size[BASE] == 0 && k + 1 < |list|
    requires forall i: nat :: i < |list| ==> list[i] in ptr && list[i] in size
    requires forall i: nat, j: nat :: i < j < |list| && !(i == k && j == k + 1) ==> list[i] + size[list[i]] < list[j]
    requires list[k] + size[list[k]] <= list[k + 1]
    requires forall i: nat, j: nat :: j == i + 1 < |list| && i != k ==> ptr[list[i]] == list[j]
    requires ptr[list[|list| - 1]] == BASE
    ensures NearlyOk(list, ptr, size, k)
  {
  }

  lemma UpperGap(list: seq<nat>, ptr: map<nat, nat>, size: map<nat, nat>, bp: nat, k: nat, touches: bool, n: nat, i: nat, j: nat)
    requires ListOk(list, ptr, size) && bp !in list && bp > BASE && k < |list|
    requires list[k] + size[list[k]] <= bp && bp in size && size[bp] == n >= 1
    requires k + 1 < |list| ==> bp + n <= list[k + 1]
    requires touches <==> k + 1 < |list| && bp + n == list[k + 1]
    requires i < j < |Spliced(list, k, bp, touches)| && !(i == k && j == k + 1)
    ensures var size1 := if touches then size[bp := n + size[list[k + 1]]] else size;
            var list1 := Spliced(list, k, bp, touches);
            list1[i] in size1 && list1[i] + size1[list1[i]] < list1[j]
  {
    SplicedAt(list, k, bp, touches, i);
    SplicedAt(list, k, bp, touches, j);
    var d := if touches then 0 else 1;
    if i < k && j == k + 1 { assert list[i] + size[list[i]] < list[k]; }
    if i == k + 1 {
      if touches { assert list[k + 1] + size[list[k + 1]] < list[j]; }
      else if j > k + 2 { assert list[k + 1] + size[list[k + 1]] < list[j - 1]; }
    }
    if i != k + 1 && j > k + 1 { assert list[if i <= k then i else i - d] + size[list[if i <= k then i else i - d]] < list[j - d]; }
  }

  lemma UpperLink(list: seq<nat>, ptr: map<nat, nat>, size: map<nat, nat>, bp: nat, k: nat, touches: bool, n: nat, i: nat)
    requires ListOk(list, ptr, size) && bp !in list && k < |list| && bp in size
    requires touches ==> k + 1 < |list|
    requires i < |Spliced(list, k, bp, touches)|
    ensures var size1 := if touches then size[bp := n + size[list[k + 1]]] else size;
            var ptr1 := ptr[bp := if touches then ptr[list[k + 1]] else ptr[list[k]]];
            var list1 := Spliced(list, k, bp, touches);
            list1[i] in size1 && list1[i] in ptr1 && (i != k ==> ptr1[list1[i]] == if i + 1 < |list1| then list1[i + 1] else BASE)
  {
    var list1 := Spliced(list, k, bp, touches);
    SplicedAt(list, k, bp, touches, i);
    SplicedAt(list, k, bp, touches, 0);
    if i + 1 < |list1| { SplicedAt(list, k, bp, touches, i + 1); }
    var q := if i <= k then i else if touches then i else i - 1;
    if i != k + 1 && q < |list| && q != k { assert list[q] != list[k]; }
  }

  lemma UpperFree(list: seq<nat>, ptr: map<nat, nat>, size: map<nat, nat>, live: map<nat, nat>, own: seq<nat>, start: nat,
                  bp: nat, k: nat, touches: bool, i: nat)
    requires ListOk(list, ptr, size) && Tiled(list, size, live, own, start) && bp in live && bp > BASE && bp !in list
    requires k < |list| && (touches ==> k + 1 < |list| && bp + live[bp] == list[k + 1])
    requires 0 < i < |Spliced(list, k, bp, touches)|
    ensures var size1 := if touches then size[bp := size[bp] + size[list[k + 1]]] else size;
            var own1 := if touches then Renamed(own, list[k + 1], size[list[k + 1]], bp) else own;
            var a := Spliced(list, k, bp, touches)[i];
            a in size1 && FreeBlock(a, size1[a], live - {bp}, own1, start)
  {
    SplicedAt(list, k, bp, touches, i);
    assert LiveBlock(bp, live[bp], own, start);
    if touches { assert FreeBlock(list[k + 1], size[list[k + 1]], live, own, start); }
    if i != k + 1 {
      var q := if i <= k then i else if touches then i else i - 1;
      assert FreeBlock(list[q], size[list[q]], live, own, start);
      if touches && q < k + 1 { assert list[q] + size[list[q]] < list[k + 1]; }
      if touches && q > k + 1 { assert list[k + 1] + size[list[k + 1]] < list[q]; }
    }
  }

  lemma UpperUnit(list: seq<nat>, ptr: map<nat, nat>, size: map<nat, nat>, live: map<nat, nat>, own: seq<nat>, start: nat,
                  bp: nat, k: nat, touches: bool, u: nat)
    requires ListOk(list, ptr, size) && Tiled(list, size, live, own, start) && bp in live && bp > BASE && bp !in list
    requires k < |list| && (touches ==> k + 1 < |list| && bp + live[bp] == list[k + 1])
    requires start <= u < |own|
    ensures var size1 := if touches then size[bp := size[bp] + size[list[k + 1]]] else size;
            var own1 := if touches then Renamed(own, list[k + 1], size[list[k + 1]], bp) else own;
            UnitOk(Spliced(list, k, bp, touches), size1, live - {bp}, own1, u)
  {
    assert UnitOk(list, size, live, own, u) && LiveBlock(bp, live[bp], own, start);
    if touches { assert FreeBlock(list[k + 1], size[list[k + 1]], live, own, start); }
    SplicedAt(list, k, bp, touches, k + 1);
    if own[u] in list {
      var q := IndexOf(list, own[u]);
      if q <= k { SplicedAt(list, k, bp, touches, q); }
      else if !touches { SplicedAt(list, k, bp, touches, q + 1); }
      else if q > k + 1 { SplicedAt(list, k, bp, touches, q); }
    }
  }

  /** Renaming one block leaves the units of another. */
  lemma KeptCover(a: nat, n: nat, own: seq<nat>, b: nat, m: nat, to: nat)
    requires Covers(a, n, own) && Covers(b, m, own) && a != b
    ensures Covers(a, n, Renamed(own, b, m, to))
  {
    forall u: nat | a <= u < a + n ensures Renamed(own, b, m, to)[u] == a { assert own[u] == a; }
  }

  lemma UpperTiles(list: seq<nat>, ptr: map<nat, nat>, size: map<nat, nat>, live: map<nat, nat>, own: seq<nat>, start: nat,
                   bp: nat, k: nat, touches: bool)
    requires ListOk(list, ptr, size) && Tiled(list, size, live, own, start) && bp in live && bp > BASE && bp !in list
    requires k < |list| && (touches ==> k + 1 < |list| && bp + live[bp] == list[k + 1])
    ensures var size1 := if touches then size[bp := size[bp] + size[list[k + 1]]] else size;
            var own1 := if touches then Renamed(own, list[k + 1], size[list[k + 1]], bp) else own;
            Tiled(Spliced(list, k, bp, touches), size1, live - {bp}, own1, start)
  {
    var list1 := Spliced(list, k, bp, touches);
    var next := if touches then list[k + 1] else bp;
    var size1 := if touches then size[bp := size[bp] + size[next]] else size;
    var own1 := if touches then Renamed(own, next, size[next], bp) else own;
    var live1 := live - {bp};
    forall i: nat | 0 < i < |list1| ensures list1[i] in size1 && FreeBlock(list1[i], size1[list1[i]], live1, own1, start) {
      UpperFree(list, ptr, size, live, own, start, bp, k, touches, i);
    }
    forall a | a in live1 ensures a in size1 && size1[a] == live1[a] && LiveBlock(a, live1[a], own1, start) {
      assert LiveBlock(a, live[a], own, start);
      if touches { KeptCover(a, live[a], own, next, size[next], bp); }
    }
    forall u: nat | start <= u < |own1| ensures UnitOk(list1, size1, live1, own1, u) {
      UpperUnit(list, ptr, size, live, own, start, bp, k, touches, u);
    }
  }

  ghost function Without(list: seq<nat>, k: nat): (r: seq<nat>)
    requires k < |list|
    ensures |r| == |list| - 1 && forall i: nat :: i < |r| ==> r[i] == list[if i < k then i else i + 1]
  {
    list[..k] + list[k + 1..]
  }

  /** UpperHalf in the terms of the code, when bp touches the block above it. */
  lemma UpperTouches(list: seq<nat>, ptr: map<nat, nat>, size: map<nat, nat>, live: map<nat, nat>, own: seq<nat>, start: nat,
                     bp: nat, k: nat, next: nat)
    requires ListOk(list, ptr, size) && Tiled(list, size, live, own, start) && bp in live && bp > BASE
    requires k + 1 < |list| && k == Pred(list, bp) && next == list[k + 1] == bp + live[bp]
    ensures bp in size && next in ptr && next in size && next + size[next] <= |own|
    ensures Joined(Spliced(list, k, bp, true), ptr[bp := ptr[next]], size[bp := size[bp] + size[next]], live - {bp},
                   Renamed(own, next, size[next], bp), start, list[k], bp, k)
  {
    hide *;
    UpperNext(list, ptr, size, live, own, start, bp, k);
    UpperHalf(list, ptr, size, live, own, start, bp, k, true);
    SplicedHere(list, k, bp, true);
    Join(Spliced(list, k, bp, true), ptr[bp := ptr[next]], size[bp := size[bp] + size[next]], live - {bp},
         Renamed(own, next, size[next], bp), start, list[k], bp, k);
  }

  lemma UpperApart(list: seq<nat>, ptr: map<nat, nat>, size: map<nat, nat>, live: map<nat, nat>, own: seq<nat>, start: nat,
                   bp: nat, k: nat, next: nat)
    requires ListOk(list, ptr, size) && Tiled(list, size, live, own, start) && bp in live && bp > BASE
    requires k < |list| && k == Pred(list, bp) && next != bp + live[bp] && list[k] in ptr && next == ptr[list[k]]
    ensures Joined(Spliced(list, k, bp, false), ptr[bp := next], size, live - {bp}, own, start, list[k], bp, k)
  {
    hide *;
    UpperNext(list, ptr, size, live, own, start, bp, k);
    UpperHalf(list, ptr, size, live, own, start, bp, k, false);
    SplicedHere(list, k, bp, false);
    Join(Spliced(list, k, bp, false), ptr[bp := next], size, live - {bp}, own, start, list[k], bp, k);
  }

  lemma UpperNext(list: seq<nat>, ptr: map<nat, nat>, size: map<nat, nat>, live: map<nat, nat>, own: seq<nat>, start: nat,
                  bp: nat, k: nat)
    requires ListOk(list, ptr, size) && Tiled(list, size, live, own, start) && bp in live && bp > BASE && k < |list|
    ensures var p := list[k];
            && p in ptr && ptr[p] in ptr && ptr[p] in size && bp in size && size[bp] == live[bp] >= 1
            && ptr[p] == (if k + 1 < |list| then list[k + 1] else BASE)
            && (k + 1 < |list| ==> ptr[p] + size[ptr[p]] <= |own|)
  {
    assert LiveBlock(bp, live[bp], own, start);
    if k + 1 < |list| {
      assert ptr[list[k]] == list[k + 1];
      assert FreeBlock(list[k + 1], size[list[k + 1]], live, own, start);
    }
  }

  /** The state between the two halves of free(), before p is linked to bp. */
  ghost predicate Joined(list: seq<nat>, ptr: map<nat, nat>, size: map<nat, nat>, live: map<nat, nat>, own: seq<nat>,
                         start: nat, p: nat, bp: nat, k: nat)
  {
    && k + 1 < |list| && list[k] == p && list[k + 1] == bp
    && NearlyOk(list, ptr, size, k) && Tiled(list, size, live, own, start)
  }

  lemma Join(list: seq<nat>, ptr: map<nat, nat>, size: map<nat, nat>, live: map<nat, nat>, own: seq<nat>,
             start: nat, p: nat, bp: nat, k: nat)
    requires k + 1 < |list| && list[k] == p && list[k + 1] == bp
    requires NearlyOk(list, ptr, size, k) && Tiled(list, size, live, own, start)
    ensures Joined(list, ptr, size, live, own, start, p, bp, k)
  {
  }

  /** The second half of free(): if element k touches the next one it takes it over. */
  lemma LowerHalf(list: seq<nat>, ptr: map<nat, nat>, size: map<nat, nat>, live: map<nat, nat>, own: seq<nat>, start: nat, k: nat)
    requires NearlyOk(list, ptr, size, k) && Tiled(list, size, live, own, start)
    requires list[k] + size[list[k]] == list[k + 1]
    ensures var p, bp := list[k], list[k + 1];
            && bp + size[bp] <= |own|
            && ListOk(Without(list, k + 1), ptr[p := ptr[bp]], size[p := size[p] + size[bp]])
            && Tiled(Without(list, k + 1), size[p := size[p] + size[bp]], live, Renamed(own, bp, size[bp], p), start)
  {
    assert FreeBlock(list[k + 1], size[list[k + 1]], live, own, start);
    LowerList(list, ptr, size, k);
    LowerTiles(list, ptr, size, live, own, start, k);
  }

  lemma LowerWhere(list: seq<nat>, ptr: map<nat, nat>, size: map<nat, nat>, k: nat)
    requires NearlyOk(list, ptr, size, k) && list[k] + size[list[k]] == list[k + 1] && list[k + 1] > BASE
    ensures k > 0 && k + 1 < |list| && list[0] == BASE && list[k] > BASE && BASE in size && size[BASE] == 0
    ensures list[k] in size && list[k + 1] in size && list[k] in ptr && list[k + 1] in ptr
  {
    if k > 0 { assert list[0] + size[list[0]] < list[k]; }
  }

  lemma LowerList(list: seq<nat>, ptr: map<nat, nat>, size: map<nat, nat>, k: nat)
    requires NearlyOk(list, ptr, size, k) && list[k] + size[list[k]] == list[k + 1] && list[k + 1] > BASE
    ensures ListOk(Without(list, k + 1), ptr[list[k] := ptr[list[k + 1]]], size[list[k] := size[list[k]] + size[list[k + 1]]])
  {
    hide *;
    LowerWhere(list, ptr, size, k);
    var p, bp := list[k], list[k + 1];
    var list1, size1, ptr1 := Without(list, k + 1), size[p := size[p] + size[bp]], ptr[p := ptr[bp]];
    forall i: nat, j: nat | i < j < |list1| ensures list1[i] in size1 && list1[i] + size1[list1[i]] < list1[j] {
      LowerGap(list, ptr, size, k, i, j);
    }
    forall i: nat | i < |list1| ensures list1[i] in ptr1 && list1[i] in size1
      ensures ptr1[list1[i]] == if i + 1 < |list1| then list1[i + 1] else BASE
    {
      LowerLink(list, ptr, size, k, i);
    }
    LowerLink(list, ptr, size, k, |list| - 2);
    FoldList(list1, ptr1, size1);
  }

  lemma LowerLink(list: seq<nat>, ptr: map<nat, nat>, size: map<nat, nat>, k: nat, i: nat)
    requires NearlyOk(list, ptr, size, k) && i < |list| - 1
    ensures var list1, ptr1 := Without(list, k + 1), ptr[list[k] := ptr[list[k + 1]]];
            list1[i] in ptr1 && list1[i] in size && ptr1[list1[i]] == (if i + 1 < |list1| then list1[i + 1] else BASE)
  {
    var q := if i <= k then i else i + 1;
    if q < k { assert list[q] + size[list[q]] < list[k]; }
    if q > k + 1 { assert list[k] + size[list[k]] < list[q]; }
    if k + 2 < |list| { assert ptr[list[k + 1]] == list[k + 2]; }
    if q + 1 < |list| && q != k { assert ptr[list[q]] == list[q + 1]; }
  }

  lemma LowerFree(list: seq<nat>, ptr: map<nat, nat>, size: map<nat, nat>, live: map<nat, nat>, own: seq<nat>, start: nat, k: nat,
                  i: nat)
    requires NearlyOk(list, ptr, size, k) && Tiled(list, size, live, own, start) && k > 0 && 0 < i < |list| - 1
    requires list[k] + size[list[k]] == list[k + 1] && list[k + 1] + size[list[k + 1]] <= |own|
    ensures var p, bp := list[k], list[k + 1];
            var a, size1 := Without(list, k + 1)[i], size[p := size[p] + size[bp]];
            a in size1 && FreeBlock(a, size1[a], live, Renamed(own, bp, size[bp], p), start)
  {
    var p, bp := list[k], list[k + 1];
    var q := if i <= k then i else i + 1;
    assert FreeBlock(list[q], size[list[q]], live, own, start) && FreeBlock(bp, size[bp], live, own, start);
    if q < k { assert list[q] + size[list[q]] < list[k]; }
    if q > k + 1 { assert list[k] + size[list[k]] < list[q] && list[k + 1] + size[list[k + 1]] < list[q]; }
    KeptCover(list[q], size[list[q]], own, bp, size[bp], p);
  }

  lemma LowerPair(list: seq<nat>, ptr: map<nat, nat>, size: map<nat, nat>, live: map<nat, nat>, own: seq<nat>, start: nat, k: nat)
    requires NearlyOk(list, ptr, size, k) && Tiled(list, size, live, own, start) && list[k] + size[list[k]] == list[k + 1]
    ensures k > 0 && k + 1 < |list| && 1 <= start <= |own| && list[k] in size && list[k + 1] in size
    ensures FreeBlock(list[k], size[list[k]], live, own, start) && FreeBlock(list[k + 1], size[list[k + 1]], live, own, start)
  {
    assert FreeBlock(list[k + 1], size[list[k + 1]], live, own, start);
  }

  lemma LowerLive(list: seq<nat>, ptr: map<nat, nat>, size: map<nat, nat>, live: map<nat, nat>, own: seq<nat>, start: nat, k: nat,
                  a: nat)
    requires NearlyOk(list, ptr, size, k) && Tiled(list, size, live, own, start) && a in live
    requires list[k] + size[list[k]] == list[k + 1] && list[k + 1] + size[list[k + 1]] <= |own|
    ensures var p, bp := list[k], list[k + 1];
            var size1 := size[p := size[p] + size[bp]];
            a in size1 && size1[a] == live[a] && LiveBlock(a, live[a], Renamed(own, bp, size[bp], p), start)
  {
    LowerPair(list, ptr, size, live, own, start, k);
    LiveAt(list, size, live, own, start, a);
    KeptCover(a, live[a], own, list[k + 1], size[list[k + 1]], list[k]);
  }

  lemma LowerTiles(list: seq<nat>, ptr: map<nat, nat>, size: map<nat, nat>, live: map<nat, nat>, own: seq<nat>, start: nat, k: nat)
    requires NearlyOk(list, ptr, size, k) && Tiled(list, size, live, own, start)
    requires list[k] + size[list[k]] == list[k + 1] && list[k + 1] + size[list[k + 1]] <= |own|
    ensures var p, bp := list[k], list[k + 1];
            Tiled(Without(list, k + 1), size[p := size[p] + size[bp]], live, Renamed(own, bp, size[bp], p), start)
  {
    hide *;
    LowerPair(list, ptr, size, live, own, start, k);
    var p, bp := list[k], list[k + 1];
    var list1, size1, own1 := Without(list, k + 1), size[p := size[p] + size[bp]], Renamed(own, bp, size[bp], p);
    forall i: nat | 0 < i < |list1| ensures list1[i] in size1 && FreeBlock(list1[i], size1[list1[i]], live, own1, start) {
      LowerFree(list, ptr, size, live, own, start, k, i);
    }
    forall a | a in live ensures a in size1 && size1[a] == live[a] && LiveBlock(a, live[a], own1, start) {
      LowerLive(list, ptr, size, live, own, start, k, a);
    }
    forall u: nat | start <= u < |own1| ensures UnitOk(list1, size1, live, own1, u) {
      LowerUnit(list, ptr, size, live, own, start, k, u);
    }
    FoldTiled(list1, size1, live, own1, start);
  }

  lemma LowerUnit(list: seq<nat>, ptr: map<nat, nat>, size: map<nat, nat>, live: map<nat, nat>, own: seq<nat>, start: nat, k: nat,
                  u: nat)
    requires NearlyOk(list, ptr, size, k) && Tiled(list, size, live, own, start) && start <= u < |own| && k > 0
    requires list[k] + size[list[k]] == list[k + 1] && list[k + 1] + size[list[k + 1]] <= |own|
    ensures var p, bp := list[k], list[k + 1];
            UnitOk(Without(list, k + 1), size[p := size[p] + size[bp]], live, Renamed(own, bp, size[bp], p), u)
  {
    var list1 := Without(list, k + 1);
    assert UnitOk(list, size, live, own, u) && FreeBlock(list[k], size[list[k]], live, own, start);
    assert list1[k] == list[k];
    if own[u] in list {
      var q := IndexOf(list, own[u]);
      if q <= k { assert list1[q] == list[q]; } else if q > k + 1 { assert list1[q - 1] == list[q]; }
    }
  }

  lemma LowerGap(list: seq<nat>, ptr: map<nat, nat>, size: map<nat, nat>, k: nat, i: nat, j: nat)
    requires NearlyOk(list, ptr, size, k) && list[k] + size[list[k]] == list[k + 1] && i < j < |list| - 1
    ensures var list1, size1 := Without(list, k + 1), size[list[k] := size[list[k]] + size[list[k + 1]]];
            list1[i] in size1 && list1[i] + size1[list1[i]] < list1[j]
  {
    var q, r := if i <= k then i else i + 1, if j <= k then j else j + 1;
    assert list[q] + size[list[q]] < list[r];
    if q == k { assert list[k + 1] + size[list[k + 1]] < list[r]; }
    if q < k { assert list[q] + size[list[q]] < list[k]; }
    if q > k + 1 { assert list[k + 1] + size[list[k + 1]] < list[q]; }
  }

  lemma Apart(list: seq<nat>, ptr: map<nat, nat>, size: map<nat, nat>, k: nat)
    requires NearlyOk(list, ptr, size, k) && list[k] + size[list[k]] != list[k + 1]
    ensures ListOk(list, ptr[list[k] := list[k + 1]], size)
  {
    forall i: nat | i < |list| && i != k ensures list[i] != list[k] {
      if i < k { assert list[i] + size[list[i]] < list[k]; } else { assert list[k] + size[list[k]] <= list[i]; }
    }
  }

  lemma LowerBase(list: seq<nat>, ptr: map<nat, nat>, size: map<nat, nat>, live: map<nat, nat>, own: seq<nat>, start: nat,
                  p: nat, bp: nat, k: nat)
    requires Joined(list, ptr, size, live, own, start, p, bp, k)
    ensures k + 1 < |list| && list[k] == p && list[k + 1] == bp && p in list && bp in list && p in size && bp in size && p != bp
    ensures p in Without(list, k + 1) && NearlyOk(list, ptr, size, k) && Tiled(list, size, live, own, start)
  {
    assert FreeBlock(bp, size[bp], live, own, start);
    assert Without(list, k + 1)[k] == p;
  }

  /** The second half of free() in the terms of the code. */
  lemma LowerFacts(list: seq<nat>, ptr: map<nat, nat>, size: map<nat, nat>, live: map<nat, nat>, own: seq<nat>, start: nat,
                   p: nat, bp: nat, k: nat)
    requires Joined(list, ptr, size, live, own, start, p, bp, k) && p in ptr && bp in ptr
    ensures k + 1 < |list| && p in list && bp in list && p in size && bp in size && p != bp
    ensures p + size[p] == bp ==>
      && bp + size[bp] <= |own| && p in Without(list, k + 1)
      && ListOk(Without(list, k + 1), ptr[p := ptr[bp]], size[p := size[p] + size[bp]])
      && Tiled(Without(list, k + 1), size[p := size[p] + size[bp]], live, Renamed(own, bp, size[bp], p), start)
    ensures p + size[p] != bp ==> ListOk(list, ptr[p := bp], size) && Tiled(list, size, live, own, start)
  {
    hide *;
    LowerBase(list, ptr, size, live, own, start, p, bp, k);
    if p + size[p] == bp {
      LowerHalf(list, ptr, size, live, own, start, k);
    } else {
      Apart(list, ptr, size, k);
    }
  }

  /** A live block is not on the free list, and above base. */
  lemma NotListed(list: seq<nat>, ptr: map<nat, nat>, size: map<nat, nat>, live: map<nat, nat>, own: seq<nat>, start: nat, bp: nat)
    requires ListOk(list, ptr, size) && Tiled(list, size, live, own, start) && bp in live
    ensures |list| >= 1 && list[0] == BASE < bp && bp !in list
  {
    assert LiveBlock(bp, live[bp], own, start);
    forall i: nat | i < |list| ensures list[i] != bp { }
  }

  const HEADER: nat := 16                  // sizeof(Header)
  const NALLOC: nat := 4096

  /** The argument of sbrk() as a C int. */
  function ToInt(x: nat): int { if x % 0x1_0000_0000 < 0x8000_0000 then x % 0x1_0000_0000 else x % 0x1_0000_0000 - 0x1_0000_0000 }

  /** Units for nbytes: enough for the bytes and one header. */
  function Units(nbytes: nat): (n: nat)
    ensures n >= 1 && (n - 1) * HEADER >= nbytes && (n - 1) * HEADER < nbytes + HEADER
  {
    (nbytes + HEADER - 1) / HEADER + 1
  }

  /** New memory from sbrk() is a block of its own. */
  lemma Extended(list: seq<nat>, ptr: map<nat, nat>, size: map<nat, nat>, live: map<nat, nat>, own: seq<nat>, start: nat, nu: nat)
    requires ListOk(list, ptr, size) && Tiled(list, size, live, own, start) && nu >= 1
    ensures var hp := |own|;
            && hp !in live && hp !in list && list[0] == BASE < hp
            && Tiled(list, size[hp := nu], live[hp := nu], own + seq(nu, i => hp), start)
            && ListOk(list, ptr, size[hp := nu])
  {
    var hp := |own|;
    var own1 := own + seq(nu, i => hp);
    var size1, live1 := size[hp := nu], live[hp := nu];
    forall i: nat | i < |list| ensures list[i] != hp {
      if i > 0 { assert FreeBlock(list[i], size[list[i]], live, own, start); }
    }
    forall i: nat | 0 < i < |list| ensures list[i] in size1 && FreeBlock(list[i], size1[list[i]], live1, own1, start) {
      assert FreeBlock(list[i], size[list[i]], live, own, start);
    }
    forall a | a in live1 ensures a in size1 && size1[a] == live1[a] && LiveBlock(a, live1[a], own1, start) {
      if a != hp { assert LiveBlock(a, live[a], own, start); }
    }
    assert hp in live ==> LiveBlock(hp, live[hp], own, start);
    forall u: nat | start <= u < |own1| ensures UnitOk(list, size1, live1, own1, u) {
      if u < |own| {
        assert UnitOk(list, size, live, own, u) && own1[u] == own[u];
        assert own[u] <= u;
      } else {
        assert own1[u] == hp;
      }
    }
  }

  lemma FoldList(list: seq<nat>, ptr: map<nat, nat>, size: map<nat, nat>)
    requires |list| >= 1 && list[0] == BASE && BASE in size && size[BASE] == 0
    requires forall i: nat :: i < |list| ==> list[i] in ptr && list[i] in size
    requires forall i: nat, j: nat :: i < j < |list| ==> list[i] + size[list[i]] < list[j]
    requires forall i: nat, j: nat :: j == i + 1 < |list| ==> ptr[list[i]] == list[j]
    requires ptr[list[|list| - 1]] == BASE
    ensures ListOk(list, ptr, size)
  {
  }

  lemma FoldTiled(list: seq<nat>, size: map<nat, nat>, live: map<nat, nat>, own: seq<nat>, start: nat)
    requires 1 <= start <= |own|
    requires forall i: nat :: 0 < i < |list| ==> list[i] in size && FreeBlock(list[i], size[list[i]], live, own, start)
    requires forall a :: a in live ==> a in size && size[a] == live[a] && LiveBlock(a, live[a], own, start)
    requires forall u: nat :: start <= u < |own| ==> UnitOk(list, size, live, own, u)
    ensures Tiled(list, size, live, own, start)
  {
  }

  /** Two places of the list, in order. */
  lemma Ordered(list: seq<nat>, ptr: map<nat, nat>, size: map<nat, nat>, i: nat, j: nat)
    requires ListOk(list, ptr, size) && i < |list| && j < |list|
    ensures list[i] in size && list[j] in size && list[i] in ptr && list[0] == BASE && BASE in size && size[BASE] == 0
    ensures i < j ==> list[i] + size[list[i]] < list[j]
    ensures i != j ==> list[i] != list[j]
    ensures ptr[list[i]] == if i + 1 < |list| then list[i + 1] else BASE
  {
    if j < i { assert list[j] + size[list[j]] < list[i]; }
    if i + 1 < |list| { assert ptr[list[i]] == list[i + 1]; }
  }

  lemma FreeAt(list: seq<nat>, size: map<nat, nat>, live: map<nat, nat>, own: seq<nat>, start: nat, i: nat)
    requires Tiled(list, size, live, own, start) && 0 < i < |list|
    ensures list[i] in size && FreeBlock(list[i], size[list[i]], live, own, start) && 1 <= start <= |own|
  {
  }

  lemma LiveAt(list: seq<nat>, size: map<nat, nat>, live: map<nat, nat>, own: seq<nat>, start: nat, a: nat)
    requires Tiled(list, size, live, own, start) && a in live
    ensures a in size && size[a] == live[a] && LiveBlock(a, live[a], own, start)
  {
  }

  lemma UnitAt(list: seq<nat>, size: map<nat, nat>, live: map<nat, nat>, own: seq<nat>, start: nat, u: nat)
    requires Tiled(list, size, live, own, start) && start <= u < |own|
    ensures UnitOk(list, size, live, own, u)
  {
  }

  lemma TakenList(list: seq<nat>, ptr: map<nat, nat>, size: map<nat, nat>, i: nat)
    requires ListOk(list, ptr, size) && 0 < i < |list|
    ensures list[i - 1] in ptr && list[i] in ptr && ListOk(Without(list, i), ptr[list[i - 1] := ptr[list[i]]], size)
  {
    hide *;
    Ordered(list, ptr, size, i - 1, 0);
    Ordered(list, ptr, size, i, 0);
    var list1, ptr1 := Without(list, i), ptr[list[i - 1] := ptr[list[i]]];
    forall a: nat | a < |list1| ensures list1[a] in ptr1 && list1[a] in size
      ensures ptr1[list1[a]] == if a + 1 < |list1| then list1[a + 1] else BASE
    {
      Ordered(list, ptr, size, if a < i then a else a + 1, i - 1);
    }
    forall a: nat, b: nat | a < b < |list1| ensures list1[a] + size[list1[a]] < list1[b] {
      Ordered(list, ptr, size, if a < i then a else a + 1, if b < i then b else b + 1);
    }
    var last: nat := |list1| - 1;
    Ordered(list, ptr, size, if last < i then last else last + 1, i - 1);
    Ordered(list, ptr, size, i, i - 1);
    assert ptr1[list1[last]] == BASE;
    FoldList(list1, ptr1, size);
  }

  /** malloc() takes a free block as it is. */
  lemma TakenWhole(list: seq<nat>, ptr: map<nat, nat>, size: map<nat, nat>, live: map<nat, nat>, own: seq<nat>, start: nat, i: nat)
    requires ListOk(list, ptr, size) && Tiled(list, size, live, own, start) && 0 < i < |list|
    ensures list[i] in size && list[i] !in live
    ensures Tiled(Without(list, i), size, live[list[i] := size[list[i]]], own, start)
  {
    hide *;
    var p, list1 := list[i], Without(list, i);
    TakenBlock(list, size, live, own, start, i);
    var live1 := live[p := size[p]];
    forall j: nat | 0 < j < |list1| ensures list1[j] in size && FreeBlock(list1[j], size[list1[j]], live1, own, start) {
      TakenFree(list, ptr, size, live, own, start, i, if j < i then j else j + 1);
    }
    forall a | a in live1 ensures a in size && size[a] == live1[a] && LiveBlock(a, live1[a], own, start) {
      if a != p { LiveAt(list, size, live, own, start, a); }
    }
    forall u: nat | start <= u < |own| ensures UnitOk(list1, size, live1, own, u) {
      TakenUnit(list, size, live, own, start, i, u);
    }
    FoldTiled(list1, size, live1, own, start);
  }

  lemma TakenBlock(list: seq<nat>, size: map<nat, nat>, live: map<nat, nat>, own: seq<nat>, start: nat, i: nat)
    requires Tiled(list, size, live, own, start) && 0 < i < |list|
    ensures list[i] in size && list[i] !in live && LiveBlock(list[i], size[list[i]], own, start) && 1 <= start <= |own|
  {
    FreeAt(list, size, live, own, start, i);
  }

  lemma TakenFree(list: seq<nat>, ptr: map<nat, nat>, size: map<nat, nat>, live: map<nat, nat>, own: seq<nat>, start: nat, i: nat,
                  q: nat)
    requires ListOk(list, ptr, size) && Tiled(list, size, live, own, start) && 0 < i < |list| && 0 < q < |list| && q != i
    ensures list[i] in size && list[q] in size
    ensures FreeBlock(list[q], size[list[q]], live[list[i] := size[list[i]]], own, start)
  {
    Ordered(list, ptr, size, q, i);
    FreeAt(list, size, live, own, start, q);
  }

  lemma TakenUnit(list: seq<nat>, size: map<nat, nat>, live: map<nat, nat>, own: seq<nat>, start: nat, i: nat, u: nat)
    requires Tiled(list, size, live, own, start) && 0 < i < |list| && start <= u < |own| && list[i] in size
    ensures UnitOk(Without(list, i), size, live[list[i] := size[list[i]]], own, u)
  {
    UnitAt(list, size, live, own, start, u);
    if own[u] in list && own[u] != list[i] {
      var q := IndexOf(list, own[u]);
      assert Without(list, i)[if q < i then q else q - 1] == list[q];
    }
  }

  /** malloc() cuts n units off the end of a free block. */
  lemma TakenTail(list: seq<nat>, ptr: map<nat, nat>, size: map<nat, nat>, live: map<nat, nat>, own: seq<nat>, start: nat, i: nat,
                  n: nat)
    requires ListOk(list, ptr, size) && Tiled(list, size, live, own, start) && 0 < i < |list|
    requires list[i] in size && 1 <= n < size[list[i]]
    ensures var p := list[i];
            var q := p + size[p] - n;
            && q !in live && q + n <= |own|
            && ListOk(list, ptr, size[p := size[p] - n][q := n])
            && Tiled(list, size[p := size[p] - n][q := n], live[q := n], Renamed(own, q, n, q), start)
  {
    hide *;
    var p := list[i];
    var q := p + size[p] - n;
    TailFresh(list, size, live, own, start, i, n, q);
    var size1, live1, own1 := size[p := size[p] - n][q := n], live[q := n], Renamed(own, q, n, q);
    forall j: nat | j < |list| ensures list[j] in ptr && list[j] in size1
      ensures ptr[list[j]] == if j + 1 < |list| then list[j + 1] else BASE
    {
      TailOther(list, ptr, size, live, own, start, i, n, q, j, j);
    }
    forall a: nat, b: nat | a < b < |list| ensures list[a] + size1[list[a]] < list[b] {
      TailOther(list, ptr, size, live, own, start, i, n, q, a, b);
    }
    TailOther(list, ptr, size, live, own, start, i, n, q, 0, 0);
    TailOther(list, ptr, size, live, own, start, i, n, q, |list| - 1, |list| - 1);
    FoldList(list, ptr, size1);
    forall j: nat | 0 < j < |list| ensures list[j] in size1 && FreeBlock(list[j], size1[list[j]], live1, own1, start) {
      TailFree(list, ptr, size, live, own, start, i, n, q, j);
    }
    forall a | a in live1 ensures a in size1 && size1[a] == live1[a] && LiveBlock(a, live1[a], own1, start) {
      TailLive(list, size, live, own, start, i, n, q, a);
    }
    forall u: nat | start <= u < |own1| ensures UnitOk(list, size1, live1, own1, u) {
      TailUnit(list, size, live, own, start, i, n, q, u);
    }
    FoldTiled(list, size1, live1, own1, start);
  }

  lemma TailFresh(list: seq<nat>, size: map<nat, nat>, live: map<nat, nat>, own: seq<nat>, start: nat, i: nat, n: nat, q: nat)
    requires Tiled(list, size, live, own, start) && 0 < i < |list| && list[i] in size && 1 <= n < size[list[i]]
    requires q == list[i] + size[list[i]] - n
    ensures q !in live && q + n <= |own| && own[q] == list[i] && 1 <= start <= list[i] && list[i] !in live && start <= |own|
  {
    FreeAt(list, size, live, own, start, i);
    if q in live { LiveAt(list, size, live, own, start, q); }
  }

  lemma TailOther(list: seq<nat>, ptr: map<nat, nat>, size: map<nat, nat>, live: map<nat, nat>, own: seq<nat>, start: nat, i: nat,
                  n: nat, q: nat, a: nat, b: nat)
    requires ListOk(list, ptr, size) && Tiled(list, size, live, own, start) && 0 < i < |list| && a <= b < |list|
    requires list[i] in size && 1 <= n < size[list[i]] && q == list[i] + size[list[i]] - n
    ensures var size1 := size[list[i] := size[list[i]] - n][q := n];
            && list[a] in ptr && list[a] in size1 && list[a] != q && (a < b ==> list[a] + size1[list[a]] < list[b])
            && ptr[list[a]] == (if a + 1 < |list| then list[a + 1] else BASE)
            && list[0] == BASE && BASE in size1 && (a == 0 ==> size1[BASE] == 0)
            && (a != i ==> size1[list[a]] == size[list[a]])
  {
    Ordered(list, ptr, size, a, b);
    Ordered(list, ptr, size, a, i);
    Ordered(list, ptr, size, 0, i);
    FreeAt(list, size, live, own, start, i);
    if a > 0 { FreeAt(list, size, live, own, start, a); }
  }

  lemma TailFree(list: seq<nat>, ptr: map<nat, nat>, size: map<nat, nat>, live: map<nat, nat>, own: seq<nat>, start: nat, i: nat,
                 n: nat, q: nat, j: nat)
    requires ListOk(list, ptr, size) && Tiled(list, size, live, own, start) && 0 < i < |list| && 0 < j < |list|
    requires list[i] in size && 1 <= n < size[list[i]] && q == list[i] + size[list[i]] - n && q + n <= |own|
    ensures var size1 := size[list[i] := size[list[i]] - n][q := n];
            list[j] in size1 && FreeBlock(list[j], size1[list[j]], live[q := n], Renamed(own, q, n, q), start)
  {
    TailOther(list, ptr, size, live, own, start, i, n, q, j, j);
    Ordered(list, ptr, size, j, i);
    Ordered(list, ptr, size, i, j);
    FreeAt(list, size, live, own, start, i);
    FreeAt(list, size, live, own, start, j);
  }

  lemma TailLive(list: seq<nat>, size: map<nat, nat>, live: map<nat, nat>, own: seq<nat>, start: nat, i: nat, n: nat, q: nat, a: nat)
    requires Tiled(list, size, live, own, start) && 0 < i < |list| && list[i] in size && 1 <= n < size[list[i]]
    requires q == list[i] + size[list[i]] - n && q + n <= |own| && a in live[q := n]
    ensures var size1 := size[list[i] := size[list[i]] - n][q := n];
            a in size1 && size1[a] == live[q := n][a] && LiveBlock(a, live[q := n][a], Renamed(own, q, n, q), start)
  {
    FreeAt(list, size, live, own, start, i);
    if a != q {
      LiveAt(list, size, live, own, start, a);
      forall u: nat | a <= u < a + live[a] ensures Renamed(own, q, n, q)[u] == a { assert own[u] == a; }
    }
  }

  lemma TailUnit(list: seq<nat>, size: map<nat, nat>, live: map<nat, nat>, own: seq<nat>, start: nat, i: nat, n: nat, q: nat, u: nat)
    requires Tiled(list, size, live, own, start) && 0 < i < |list| && list[i] in size && 1 <= n < size[list[i]]
    requires q == list[i] + size[list[i]] - n && q + n <= |own| && start <= u < |own| && list[0] == BASE
    ensures UnitOk(list, size[list[i] := size[list[i]] - n][q := n], live[q := n], Renamed(own, q, n, q), u)
  {
    TailFresh(list, size, live, own, start, i, n, q);
    FreeAt(list, size, live, own, start, i);
    UnitAt(list, size, live, own, start, u);
    if own[u] == q && q in list {
      var j := IndexOf(list, q);
      FreeAt(list, size, live, own, start, j);
    }
  }

  function NextIndex(j: nat, n: nat): (k: nat)
    requires j < n
    ensures k < n
  {
    if j + 1 < n then j + 1 else 0
  }

  /** Facts about place j of the list, and whether it is place k. */
  lemma Around(list: seq<nat>, ptr: map<nat, nat>, size: map<nat, nat>, j: nat, k: nat)
    requires ListOk(list, ptr, size) && j < |list| && k < |list|
    ensures list[j] in ptr && list[j] in size && ptr[list[j]] == list[NextIndex(j, |list|)] && (list[j] == list[k] <==> j == k)
  {
    Ordered(list, ptr, size, j, k);
  }

  lemma StepsZero(j: nat, k: nat, n: nat)
    requires j < n && k < n
    ensures Steps(j, k, n) == 0 <==> j == k
  {
  }

  /** A step that does not start at the goal gets closer to it; from home on, the goal comes first. */
  lemma StepsNext(j: nat, goal: nat, home: nat, n: nat)
    requires j < n && goal < n && home < n
    ensures j != goal ==> Steps(NextIndex(j, n), goal, n) < Steps(j, goal, n)
    ensures j == home ==> Steps(NextIndex(j, n), goal, n) <= Steps(NextIndex(j, n), home, n)
    ensures j != goal && j != home && Steps(j, goal, n) <= Steps(j, home, n) ==>
      Steps(NextIndex(j, n), goal, n) <= Steps(NextIndex(j, n), home, n)
  {
  }

  /** A block of positive size is not base, and its predecessor on the circle is the one before it. */
  lemma Before(list: seq<nat>, ptr: map<nat, nat>, size: map<nat, nat>, j: nat, prevp: nat)
    requires ListOk(list, ptr, size) && j < |list| && list[j] in size && size[list[j]] >= 1
    requires prevp in list && prevp in ptr && ptr[prevp] == list[j]
    ensures 0 < j && prevp == list[j - 1]
  {
    var k := IndexOf(list, prevp);
    Ordered(list, ptr, size, k, j);
    Ordered(list, ptr, size, j, 0);
    if k + 1 < |list| { Ordered(list, ptr, size, k + 1, j); }
  }

  /** The circular list of the first call to malloc(). */
  lemma FirstList(ptr: map<nat, nat>, size: map<nat, nat>, live: map<nat, nat>, own: seq<nat>, start: nat)
    requires Tiled([], size, live, own, start) && live == map[] && |own| == start
    requires BASE in ptr && ptr[BASE] == BASE && BASE in size && size[BASE] == 0
    ensures ListOk([BASE], ptr, size) && Tiled([BASE], size, live, own, start)
  {
  }

  lemma WithoutKeeps(list: seq<nat>, i: nat)
    requires 0 < i < |list|
    ensures list[i - 1] in Without(list, i)
  {
    assert Without(list, i)[i - 1] == list[i - 1];
  }

  lemma LiveFrom(list: seq<nat>, size: map<nat, nat>, live: map<nat, nat>, own: seq<nat>, start: nat, a: nat)
    requires Tiled(list, size, live, own, start) && a in live
    ensures start <= a
  {
    LiveAt(list, size, live, own, start, a);
  }

  /** b is the header of a block of the heap, free or live. */
  ghost predicate IsBlock(list: seq<nat>, live: map<nat, nat>, b: nat) { b in live || (b in list && b != BASE) }

  /** Every unit that sbrk() gave lies in one block and no other: nothing overlaps and nothing is lost. */
  lemma OneBlock(list: seq<nat>, ptr: map<nat, nat>, size: map<nat, nat>, live: map<nat, nat>, own: seq<nat>, start: nat, u: nat)
    requires ListOk(list, ptr, size) && Tiled(list, size, live, own, start) && start <= u < |own|
    ensures IsBlock(list, live, own[u]) && own[u] in size
    ensures forall b: nat :: IsBlock(list, live, b) ==> b in size && (b <= u < b + size[b] <==> b == own[u])
  {
    UnitAt(list, size, live, own, start, u);
    forall b: nat | IsBlock(list, live, b) ensures b in size && (b <= u < b + size[b] <==> b == own[u]) {
      if b in live {
        LiveAt(list, size, live, own, start, b);
      } else {
        FreeAt(list, size, live, own, start, IndexOf(list, b));
      }
    }
  }

  /** No two free blocks touch: free() has joined every pair that did. */
  lemma NoTouchingFree(list: seq<nat>, ptr: map<nat, nat>, size: map<nat, nat>, live: map<nat, nat>, own: seq<nat>, start: nat,
                       a: nat, b: nat)
    requires ListOk(list, ptr, size) && Tiled(list, size, live, own, start) && a in list && b in list && a != BASE
    ensures a in size && a + size[a] != b
  {
    var i, j := IndexOf(list, a), IndexOf(list, b);
    Ordered(list, ptr, size, i, j);
    Ordered(list, ptr, size, j, i);
    FreeAt(list, size, live, own, start, i);
  }

  /** How a search for memory ends. */
  datatype Grown = Got | NoMemory | Corrupt

  /** No free block has n units. */
  ghost predicate NoFit(list: seq<nat>, size: map<nat, nat>, n: nat) {
    forall i: nat :: i < |list| && list[i] in size ==> size[list[i]] < n
  }

  /** No assignment of the memory below brk to blocks has a block of n units at hp. */
  ghost predicate Untileable(list: seq<nat>, size: map<nat, nat>, live: map<nat, nat>, start: nat, hp: nat, n: nat, brk: nat) {
    && hp in size && size[hp] == n
    && forall own: seq<nat> :: |own| == brk ==> !Tiled(list, size, live[hp := n], own, start)
  }

  lemma ShortBlock(list: seq<nat>, size: map<nat, nat>, live: map<nat, nat>, start: nat, hp: nat, n: nat, brk: nat)
    requires hp in size && size[hp] == n && brk < hp + n
    ensures Untileable(list, size, live, start, hp, n, brk)
  {
    forall own: seq<nat> | |own| == brk ensures !Tiled(list, size, live[hp := n], own, start) {
      if Tiled(list, size, live[hp := n], own, start) { LiveAt(list, size, live[hp := n], own, start, hp); }
    }
  }

  /** morecore() asks for 4096 units at least. */
  function Asked(nu: nat): (n: nat)
    ensures n >= nu && n >= NALLOC && (n == nu || n == NALLOC) && (n >= 0x800_0000 ==> n == nu)
  {
    if nu < NALLOC then NALLOC else nu
  }

  /** The end of memory after sbrk(arg); less than everything is never given back. */
  function BreakAfter(brk: nat, arg: int): nat { if brk + arg / HEADER < 0 then brk else brk + arg / HEADER }

  /** sbrk() moves the end of memory by what morecore() needs exactly for less than 2^27 units, and by less
      otherwise: not at all, down, or by what is left of the product modulo 2^32. */
  lemma MorecoreGives(brk: nat, nu: nat)
    requires nu >= 1
    ensures BreakAfter(brk, ToInt(nu * HEADER)) == brk + nu <==> nu < 0x800_0000
    ensures BreakAfter(brk, ToInt(nu * HEADER)) <= brk + nu
  {
    var q, r := nu / 0x1000_0000, nu % 0x1000_0000;
    assert nu * HEADER == q * 0x1_0000_0000 + r * HEADER;
    assert nu * HEADER % 0x1_0000_0000 == r * HEADER;
  }

  /** Whether sbrk() succeeds in morecore(): if there is room, or if it is not asked for any. */
  predicate Sbrks(nu: nat, room: bool) { room || ToInt(Asked(nu) * HEADER) <= 0 }

  /** Room decides below 2^27 units; from there to 2^28 the argument is negative or zero, and sbrk() cannot fail. */
  lemma SbrksIff(nu: nat, room: bool)
    ensures nu < 0x800_0000 ==> (Sbrks(nu, room) <==> room)
    ensures 0x800_0000 <= nu <= 0x1000_0000 ==> Sbrks(nu, room)
  {
    var n := Asked(nu);
    var q, r := n / 0x1000_0000, n % 0x1000_0000;
    assert n * HEADER == q * 0x1_0000_0000 + r * HEADER;
    assert n * HEADER % 0x1_0000_0000 == r * HEADER;
  }

  /** The largest request needs 2^28 + 1 units and gets one. */
  lemma LargestRequest(brk: nat)
    ensures Units(0xFFFF_FFFF) == 0x1000_0001 && BreakAfter(brk, ToInt(Units(0xFFFF_FFFF) * HEADER)) == brk + 1
    ensures Units(0x7FFF_FFE1) == 0x800_0000 && ToInt(Units(0x7FFF_FFE1) * HEADER) < 0
  {
  }

  /** The blocks from the one after home up to, not including, j have less than n units. */
  ghost predicate Seen(list: seq<nat>, size: map<nat, nat>, n: nat, j: nat, home: nat) {
    && j < |list| && home < |list|
    && forall k: nat :: k < |list| && Steps(k, home, |list|) > Steps(j, home, |list|) ==> list[k] in size && size[list[k]] < n
  }

  lemma SeenNone(list: seq<nat>, size: map<nat, nat>, n: nat, home: nat)
    requires home < |list|
    ensures Seen(list, size, n, NextIndex(home, |list|), home)
  {
  }

  lemma SeenNext(list: seq<nat>, size: map<nat, nat>, n: nat, j: nat, home: nat)
    requires Seen(list, size, n, j, home) && j != home && list[j] in size && size[list[j]] < n
    ensures Seen(list, size, n, NextIndex(j, |list|), home)
  {
  }

  lemma SeenAll(list: seq<nat>, size: map<nat, nat>, n: nat, home: nat)
    requires Seen(list, size, n, home, home) && list[home] in size && size[list[home]] < n
    ensures NoFit(list, size, n)
  {
    forall k: nat | k < |list| && list[k] in size ensures size[list[k]] < n { StepsZero(k, home, |list|); }
  }

  lemma Fits(list: seq<nat>, size: map<nat, nat>, n: nat, j: nat)
    requires j < |list| && list[j] in size && size[list[j]] >= n
    ensures !NoFit(list, size, n)
  {
  }

  class Allocator {
    var ptr: map<nat, nat>       // the headers' fields
    var size: map<nat, nat>
    var freep: nat
    var ready: bool              // freep is not null
    var brk: nat                 // the end of the heap, as sbrk moves it
    const start: nat
    ghost var list: seq<nat>
    ghost var live: map<nat, nat>
    ghost var own: seq<nat>

    ghost predicate Valid()
      reads this
    {
      && |own| == brk && Tiled(list, size, live, own, start)
      && (ready ==> ListOk(list, ptr, size) && freep in list)
      && (!ready ==> list == [] && live == map[] && brk == start)
    }

    constructor (start: nat)
      requires start >= 1
      ensures Valid() && live == map[] && brk == this.start == start && !ready
    {
      this.start, brk, freep, ready := start, start, 0, false;
      ptr, size, live, list := map[], map[], map[], [];
      own := seq(start, i => 0);
    }

    /** The search loop of free(): the free block below bp. */
    method Search(bp: nat) returns (p: nat, ghost k: nat)
      requires ListOk(list, ptr, size) && freep in list && |list| >= 1 && list[0] == BASE < bp && bp !in list
      ensures k == Pred(list, bp) && p == list[k]
    {
      hide *;
      p := freep;
      k := Pred(list, bp);
      ghost var j: nat := IndexOf(list, freep);
      SearchStep(list, ptr, size, bp, j);
      while !(bp > p && bp < ptr[p])
        invariant j < |list| && p == list[j] && p in ptr
        decreases Steps(j, k, |list|)
      {
        SearchStep(list, ptr, size, bp, j);
        if p >= ptr[p] && (bp > p || bp < ptr[p]) { break; }
        p := ptr[p];
        j := if j + 1 < |list| then j + 1 else 0;
        SearchStep(list, ptr, size, bp, j);
      }
      SearchStep(list, ptr, size, bp, j);
    }

    /** Gives a live block back, joined with the free blocks it touches. */
    method Free(ap: nat)
      requires Valid() && ready && ap > 0 && ap - 1 in live
      modifies this
      ensures Valid() && ready && brk == old(brk) && live == old(live) - {ap - 1}
      ensures |old(list)| >= 1 && old(list)[0] < ap - 1 && freep == old(list)[Pred(old(list), ap - 1)]
    {
      hide ListOk, Tiled, Pred;
      NotListed(list, ptr, size, live, own, start, ap - 1);
      var _ := Release(ap - 1);
    }

    /** free() of the block with header bp. */
    method Release(bp: nat) returns (ghost big: nat)
      requires ListOk(list, ptr, size) && Tiled(list, size, live, own, start) && bp in live && freep in list
      requires |list| >= 1 && list[0] == BASE < bp && bp !in list
      modifies this`ptr, this`size, this`list, this`own, this`live, this`freep
      ensures ListOk(list, ptr, size) && Tiled(list, size, live, own, start) && freep in list
      ensures |own| == |old(own)| && live == old(live) - {bp} && freep == old(list)[Pred(old(list), bp)]
      ensures big in list && big in size && size[big] >= old(live)[bp]
    {
      hide *;
      var p, k := Search(bp);
      LinkUpper(p, bp, k);
      big := LinkLower(p, bp, k);
      freep := p;
    }

    /** The first half of free(): bp points past p, and past the block it touches. */
    method LinkUpper(p: nat, bp: nat, ghost k: nat)
      requires ListOk(list, ptr, size) && Tiled(list, size, live, own, start) && bp in live && bp > BASE && bp !in list
      requires |list| >= 1 && list[0] == BASE && k < |list| && k == Pred(list, bp) && p == list[k]
      modifies this`ptr, this`size, this`list, this`own, this`live
      ensures Joined(list, ptr, size, live, own, start, p, bp, k) && p in ptr && bp in ptr
      ensures |own| == |old(own)| && live == old(live) - {bp} && bp in size && size[bp] >= old(live)[bp]
    {
      hide *;
      Neighbours(list, ptr, size, live, own, start, bp, k);
      UpperNext(list, ptr, size, live, own, start, bp, k);
      ghost var next := ptr[p];
      if bp + size[bp] == ptr[p] {
        UpperTouches(list, ptr, size, live, own, start, bp, k, next);
        own := Renamed(own, next, size[next], bp);
        list := Spliced(list, k, bp, true);
        ptr, size := ptr[bp := ptr[ptr[p]]], size[bp := size[bp] + size[ptr[p]]];
      } else {
        UpperApart(list, ptr, size, live, own, start, bp, k, next);
        list := Spliced(list, k, bp, false);
        ptr := ptr[bp := ptr[p]];
      }
      live := live - {bp};
    }

    /** The second half of free(), with the link from p to bp still to be written. */
    method LinkLower(p: nat, bp: nat, ghost k: nat) returns (ghost big: nat)
      requires Joined(list, ptr, size, live, own, start, p, bp, k) && p in ptr && bp in ptr && bp in size
      modifies this`ptr, this`size, this`list, this`own
      ensures ListOk(list, ptr, size) && Tiled(list, size, live, own, start) && |own| == |old(own)| && p in list
      ensures big in list && big in size && size[big] >= old(size)[bp]
    {
      hide *;
      LowerFacts(list, ptr, size, live, own, start, p, bp, k);
      big := if p + size[p] == bp then p else bp;
      if p + size[p] == bp {
        own := Renamed(own, bp, size[bp], p);
        ptr, size := ptr[p := ptr[bp]], size[p := size[p] + size[bp]];
        list := Without(list, k + 1);
      } else {
        ptr := ptr[p := bp];
      }
    }

    /** Asks sbrk for at least nu units and puts them on the free list; big is the block they ended up in.
        sbrk() takes an int: from 2^27 units on it gives less than the block that free() is then called
        with, and no tiling of the heap has that block. */
    method Morecore(nu: nat, room: bool) returns (g: Grown, ghost big: nat)
      requires ListOk(list, ptr, size) && Tiled(list, size, live, own, start) && freep in list && |own| == brk && nu >= 1
      modifies this`ptr, this`size, this`list, this`own, this`live, this`freep, this`brk
      ensures live == old(live) && (g.NoMemory? <==> !Sbrks(nu, room)) && (g.Corrupt? <==> Sbrks(nu, room) && nu >= 0x800_0000)
      ensures g.NoMemory? ==> unchanged(this)
      ensures !g.Corrupt? ==> ListOk(list, ptr, size) && Tiled(list, size, live, own, start) && freep in list && |own| == brk
      ensures g.Got? ==> brk == old(brk) + Asked(nu) && big in list && big in size && size[big] >= nu
      ensures g.Corrupt? ==> Untileable(list, size, live, start, old(brk), nu, brk)
    {
      hide *;
      var n := Asked(nu);
      big := 0;
      if !Sbrks(nu, room) { return NoMemory, 0; }
      MorecoreGives(brk, n);
      var hp := brk;
      if BreakAfter(brk, ToInt(n * HEADER)) != brk + n {
        brk := BreakAfter(brk, ToInt(n * HEADER));
        size := size[hp := n];
        ShortBlock(list, size, live, start, hp, n, brk);
        return Corrupt, 0;
      }
      Extended(list, ptr, size, live, own, start, n);
      ghost var live0 := live;
      brk := brk + n;
      size := size[hp := n];
      own := own + seq(n, i => hp);
      live := live[hp := n];
      big := Release(hp);
      assert live == live0;
      g := Got;
    }

    /** The search loop of malloc(): a free block of at least n units and the one before it. It goes around
        the list once, and once more after morecore(), which it calls only if no free block is large enough. */
    method FindFit(n: nat, room: bool) returns (g: Grown, prevp: nat, p: nat, ghost i: nat)
      requires ListOk(list, ptr, size) && Tiled(list, size, live, own, start) && freep in list && |own| == brk && n >= 1
      modifies this`ptr, this`size, this`list, this`own, this`live, this`freep, this`brk
      ensures live == old(live) && (g.NoMemory? ==> unchanged(this))
      ensures g.NoMemory? <==> !Sbrks(n, room) && old(NoFit(list, size, n))
      ensures g.Corrupt? <==> Sbrks(n, room) && n >= 0x800_0000 && old(NoFit(list, size, n))
      ensures !g.Corrupt? ==> ListOk(list, ptr, size) && Tiled(list, size, live, own, start) && freep in list && |own| == brk
      ensures g.Corrupt? ==> Untileable(list, size, live, start, old(brk), n, brk)
      ensures g.Got? ==> brk == old(brk) + if old(NoFit(list, size, n)) then Asked(n) else 0
      ensures g.Got? ==> 0 < i < |list| && p == list[i] && prevp == list[i - 1] && p in size && p in ptr && size[p] >= n
    {
      hide *;
      prevp := freep;
      ghost var grown := false;
      ghost var goal: nat := IndexOf(list, freep);
      ghost var home: nat := goal;
      ghost var j: nat := goal;
      Around(list, ptr, size, j, home);
      p := ptr[prevp];
      SeenNone(list, size, n, j);
      j := NextIndex(j, |list|);
      Around(list, ptr, size, j, home);
      ghost var none := NoFit(list, size, n);
      while size[p] < n
        invariant ListOk(list, ptr, size) && Tiled(list, size, live, own, start) && freep in list && |own| == brk
        invariant live == old(live) && j < |list| && goal < |list| && home < |list| && list[home] == freep
        invariant p == list[j] && p in size && p in ptr && prevp in list && prevp in ptr && ptr[prevp] == p
        invariant grown ==> list[goal] in size && size[list[goal]] >= n && Steps(j, goal, |list|) <= Steps(j, home, |list|)
        invariant !grown ==> goal == home && brk == old(brk) && unchanged(this) && Seen(list, size, n, j, home)
        invariant grown ==> brk == old(brk) + Asked(n) && none && Sbrks(n, room) && n < 0x800_0000
        decreases if grown then 0 else 1, Steps(j, goal, |list|)
      {
        Around(list, ptr, size, j, home);
        if p == freep {
          StepsZero(j, goal, |list|);
          StepsZero(j, home, |list|);
          SeenAll(list, size, n, home);
          ghost var big;
          g, big := Morecore(n, room);
          if !g.Got? { return g, prevp, p, 0; }
          grown := true;
          p := freep;
          home, goal := IndexOf(list, freep), IndexOf(list, big);
          j := home;
          Around(list, ptr, size, j, home);
        } else if !grown {
          SeenNext(list, size, n, j, home);
        }
        prevp := p;
        p := ptr[p];
        StepsNext(j, goal, home, |list|);
        j := NextIndex(j, |list|);
        Around(list, ptr, size, j, home);
      }
      g := Got;
      i := j;
      if !grown { Fits(list, size, n, j); }
      Before(list, ptr, size, j, prevp);
    }

    /** The whole of free block p when it fits exactly, else its last n units, become a live block. */
    method Take(prevp: nat, p: nat, n: nat, ghost i: nat) returns (q: nat)
      requires ListOk(list, ptr, size) && Tiled(list, size, live, own, start) && |own| == brk
      requires 0 < i < |list| && p == list[i] && prevp == list[i - 1] && p in size && p in ptr && size[p] >= n >= 1
      modifies this`ptr, this`size, this`list, this`own, this`live, this`freep
      ensures ListOk(list, ptr, size) && Tiled(list, size, live, own, start) && freep in list && |own| == brk
      ensures q >= start && q !in old(live) && live == old(live)[q := n]
    {
      hide *;
      ghost var live0 := live;
      q := p;
      if size[p] == n {
        TakenList(list, ptr, size, i);
        TakenWhole(list, ptr, size, live, own, start, i);
        ptr := ptr[prevp := ptr[p]];
        WithoutKeeps(list, i);
        list := Without(list, i);
      } else {
        TakenTail(list, ptr, size, live, own, start, i, n);
        q := p + (size[p] - n);
        size := size[p := size[p] - n][q := n];
        own := Renamed(own, q, n, q);
      }
      live := live[q := n];
      freep := prevp;
      LiveFrom(list, size, live, own, start, q);
    }

    /** The first call to malloc() makes the circular list of base alone. */
    method Prepare()
      requires Valid()
      modifies this`ptr, this`size, this`list, this`freep, this`ready
      ensures ready && Valid()
      ensures if old(ready) then unchanged(this) else list == [BASE] && size == old(size)[BASE := 0]
    {
      if !ready {
        ptr, size, freep, ready := ptr[BASE := BASE], size[BASE := 0], BASE, true;
        list := [BASE];
        FirstList(ptr, size, live, own, start);
      }
    }

    /** malloc(): the address of a block of nbytes that no other live block overlaps, or 0 when sbrk() fails.
        The heap stays a heap for every request of less than 2^27 units; a larger one breaks it exactly if
        no free block is large enough and sbrk() does not fail. */
    method Malloc(nbytes: nat, room: bool) returns (r: nat, corrupt: bool)
      requires Valid()
      modifies this
      ensures corrupt <==> Sbrks(Units(nbytes), room) && Units(nbytes) >= 0x800_0000 && NoFit(old(list), old(size), Units(nbytes))
      ensures corrupt ==> Untileable(list, size, live, start, old(brk), Units(nbytes), brk) && live == old(live)
      ensures !corrupt ==> Valid()
      ensures !corrupt ==> (r == 0 <==> !Sbrks(Units(nbytes), room) && NoFit(old(list), old(size), Units(nbytes)))
      ensures !corrupt && r == 0 ==> live == old(live) && brk == old(brk)
      ensures !corrupt && r != 0 ==> r - 1 >= start && r - 1 !in old(live) && live == old(live)[r - 1 := Units(nbytes)]
      ensures !corrupt && r != 0 ==> brk == old(brk) + if NoFit(old(list), old(size), Units(nbytes)) then Asked(Units(nbytes)) else 0
    {
      hide Units, ListOk, Tiled, NoFit, Untileable, Sbrks;
      BaseNoFit(Units(nbytes));
      ghost var none := NoFit(list, size, Units(nbytes));
      Prepare();
      var g, prevp, p, i := FindFit(Units(nbytes), room);
      if !g.Got? { return 0, g.Corrupt?; }
      var q := Take(prevp, p, Units(nbytes), i);
      r, corrupt := q + 1, false;
    }

    /** The list of base alone has no block for anybody. */
    lemma BaseNoFit(n: nat)
      requires n >= 1
      ensures list == [] ==> NoFit(list, size, n) && NoFit([BASE], size[BASE := 0], n)
    {
    }
  }
}
