/**
 The user-level heap allocator.  Memory is counted in header-sized units; a
 block is its header unit and the units after it.  Free blocks form a circular
 list in address order that starts at the static header base.
 */
module Umalloc {

  /** Address of the static header base, below everything sbrk returns. */
  const BASE: nat := 1
  const UINT: nat := 0x1_0000_0000
  const HEADER: nat := 8

  datatype Option<T> = None | Some(value: T)

  function Next(k: nat, n: nat): (m: nat) {
    if k + 1 < n then k + 1 else 0
  }

  /** The pointers link fl into one cycle, in order. */
  ghost predicate Ring(ptr: map<nat, nat>, fl: seq<nat>) {
    && 1 <= |fl| && fl[0] == BASE
    && (forall k :: 0 <= k < |fl| ==> fl[k] in ptr)
    && forall k :: 0 <= k < |fl| ==> Linked(ptr, fl, k)
  }

  ghost predicate Linked(ptr: map<nat, nat>, fl: seq<nat>, k: nat)
    requires k < |fl|
  {
    fl[k] in ptr && ptr[fl[k]] == fl[Next(k, |fl|)]
  }

  /** fl lists blocks in address order without overlap; only base is empty. */
  ghost predicate Ordered(size: map<nat, nat>, fl: seq<nat>) {
    && 1 <= |fl| && fl[0] == BASE
    && (forall k :: 0 <= k < |fl| ==> fl[k] in size)
    && size[BASE] == 0 && (forall k :: 1 <= k < |fl| ==> 0 < size[fl[k]])
    && (forall j, k :: 0 <= j < k < |fl| ==> fl[j] < fl[k] && fl[j] + size[fl[j]] <= fl[k])
  }

  /** Free blocks end before the next one begins, except where open allows them to touch. */
  ghost predicate NoTouch(size: map<nat, nat>, fl: seq<nat>, open: set<nat>)
    requires forall k :: 0 <= k < |fl| ==> fl[k] in size
  {
    forall k :: 0 <= k < |fl| - 1 && k !in open ==> fl[k] + size[fl[k]] < fl[k + 1]
  }

  ghost predicate ApartFrom(size: map<nat, nat>, fl: seq<nat>, a: nat, n: nat)
    requires forall k :: 0 <= k < |fl| ==> fl[k] in size
  {
    forall k :: 1 <= k < |fl| ==> a + n <= fl[k] || fl[k] + size[fl[k]] <= a
  }

  /** Live blocks overlap neither each other nor a free block, and their headers hold their sizes. */
  ghost predicate LiveOk(size: map<nat, nat>, fl: seq<nat>, live: map<nat, nat>)
    requires forall k :: 0 <= k < |fl| ==> fl[k] in size
  {
    && (forall a :: a in live ==> BASE < a && 0 < live[a] && a in size && size[a] == live[a])
    && (forall a :: a in live ==> ApartFrom(size, fl, a, live[a]))
    && (forall a, b :: a in live && b in live && a != b ==> a + live[a] <= b || b + live[b] <= a)
  }

  ghost predicate InFree(size: map<nat, nat>, fl: seq<nat>, u: nat)
    requires forall k :: 0 <= k < |fl| ==> fl[k] in size
  {
    exists k :: 1 <= k < |fl| && InBlock(size, fl[k], u)
  }

  ghost predicate InBlock(size: map<nat, nat>, a: nat, u: nat)
    requires a in size
  {
    a <= u < a + size[a]
  }

  ghost predicate InLive(live: map<nat, nat>, u: nat) {
    exists a :: a in live && a <= u < a + live[a]
  }

  /** The free and the live blocks together are exactly the units obtained from sbrk. */
  ghost predicate Covers(size: map<nat, nat>, fl: seq<nat>, live: map<nat, nat>, arena: set<nat>)
    requires forall k :: 0 <= k < |fl| ==> fl[k] in size
  {
    forall u: nat :: u in arena <==> InFree(size, fl, u) || InLive(live, u)
  }

  ghost predicate Blocks(size: map<nat, nat>, fl: seq<nat>, live: map<nat, nat>, arena: set<nat>) {
    Ordered(size, fl) && LiveOk(size, fl, live) && Covers(size, fl, live, arena)
  }

  /** Free and live blocks partition the units from sbrk: each unit lies in exactly one of them. */
  lemma OneBlockEach(size: map<nat, nat>, fl: seq<nat>, live: map<nat, nat>, arena: set<nat>, u: nat)
    requires Blocks(size, fl, live, arena)
    ensures u in arena <==> InFree(size, fl, u) || InLive(live, u)
    ensures !(InFree(size, fl, u) && InLive(live, u))
    ensures forall j, k :: 1 <= j < |fl| && 1 <= k < |fl| && InBlock(size, fl[j], u) && InBlock(size, fl[k], u) ==> j == k
    ensures forall a, b :: a in live && b in live && a <= u < a + live[a] && b <= u < b + live[b] ==> a == b
  {
    forall a, k | a in live && a <= u < a + live[a] && 1 <= k < |fl|
      ensures !InBlock(size, fl[k], u)
    {
      assert ApartFrom(size, fl, a, live[a]);
    }
  }

  // Putting a block into the list.

  ghost function Inserted(fl: seq<nat>, k: nat, bp: nat): (r: seq<nat>)
    requires k < |fl|
  {
    fl[..k + 1] + [bp] + fl[k + 1..]
  }

  /** k is where bp belongs: the last free block below it. */
  ghost predicate Place(fl: seq<nat>, k: nat, bp: nat) {
    k < |fl| && fl[k] < bp && (k + 1 < |fl| ==> bp < fl[k + 1])
  }

  lemma InsertedAt(fl: seq<nat>, k: nat, bp: nat, j: nat)
    requires k < |fl| && j < |fl| + 1
    ensures |Inserted(fl, k, bp)| == |fl| + 1
    ensures Inserted(fl, k, bp)[j] == if j <= k then fl[j] else if j == k + 1 then bp else fl[j - 1]
  {
  }

  lemma InsertOrdered(size: map<nat, nat>, fl: seq<nat>, k: nat, bp: nat)
    requires Ordered(size, fl) && Place(fl, k, bp) && BASE < bp && bp in size && 0 < size[bp]
    requires ApartFrom(size, fl, bp, size[bp])
    ensures Ordered(size, Inserted(fl, k, bp))
  {
    hide Inserted;
    var r := Inserted(fl, k, bp);
    InsertedAt(fl, k, bp, 0);
    forall j | 0 <= j < |r|
      ensures r[j] in size && (1 <= j ==> 0 < size[r[j]])
    {
      InsertedAt(fl, k, bp, j);
    }
    forall j, m | 0 <= j < m < |r|
      ensures r[j] < r[m] && r[j] + size[r[j]] <= r[m]
    {
      InsertedAt(fl, k, bp, j);
      InsertedAt(fl, k, bp, m);
    }
  }

  lemma InsertInFree(size: map<nat, nat>, fl: seq<nat>, k: nat, bp: nat, u: nat)
    requires (forall j :: 0 <= j < |fl| ==> fl[j] in size) && k < |fl| && bp in size
    ensures var r := Inserted(fl, k, bp); forall j :: 0 <= j < |r| ==> r[j] in size
    ensures InFree(size, Inserted(fl, k, bp), u) <==> InFree(size, fl, u) || bp <= u < bp + size[bp]
  {
    var r := Inserted(fl, k, bp);
    if InFree(size, fl, u) {
      var j :| 1 <= j < |fl| && InBlock(size, fl[j], u);
      assert r[if j <= k then j else j + 1] == fl[j];
    }
    if bp <= u < bp + size[bp] {
      assert r[k + 1] == bp && InBlock(size, bp, u);
    }
  }

  /** A live block becomes a free one; it may touch its neighbours. */
  lemma InsertBlocks(size: map<nat, nat>, fl: seq<nat>, live: map<nat, nat>, arena: set<nat>, k: nat, bp: nat)
    requires Blocks(size, fl, live, arena) && bp in live && Place(fl, k, bp)
    ensures Blocks(size, Inserted(fl, k, bp), live - {bp}, arena)
  {
    hide Ordered, InFree;
    assert Ordered(size, Inserted(fl, k, bp)) by {
      InsertOrdered(size, fl, k, bp);
    }
    OrderedKeys(size, fl);
    OrderedKeys(size, Inserted(fl, k, bp));
    forall u: nat
      ensures u in arena <==> InFree(size, Inserted(fl, k, bp), u) || InLive(live - {bp}, u)
    {
      InsertInFree(size, fl, k, bp, u);
      if InLive(live, u) {
        var a :| a in live && a <= u < a + live[a];
        assert a == bp || a in live - {bp};
      }
    }
  }

  lemma OrderedKeys(size: map<nat, nat>, fl: seq<nat>)
    requires Ordered(size, fl)
    ensures forall k :: 0 <= k < |fl| ==> fl[k] in size
  {
  }

  // Joining two free blocks that touch.

  ghost function Merged(fl: seq<nat>, m: nat): (r: seq<nat>)
    requires m + 1 < |fl|
  {
    fl[..m + 1] + fl[m + 2..]
  }

  lemma MergedAt(fl: seq<nat>, m: nat, j: nat)
    requires m + 1 < |fl| && j < |fl| - 1
    ensures |Merged(fl, m)| == |fl| - 1
    ensures Merged(fl, m)[j] == if j <= m then fl[j] else fl[j + 1]
  {
  }

  ghost predicate Touching(size: map<nat, nat>, fl: seq<nat>, m: nat) {
    1 <= m && m + 1 < |fl| && fl[m] in size && fl[m + 1] in size && fl[m] + size[fl[m]] == fl[m + 1]
  }

  ghost function Joined(size: map<nat, nat>, fl: seq<nat>, m: nat): (r: map<nat, nat>)
    requires Touching(size, fl, m)
  {
    size[fl[m] := size[fl[m]] + size[fl[m + 1]]]
  }

  lemma MergeOrdered(size: map<nat, nat>, fl: seq<nat>, m: nat)
    requires Ordered(size, fl) && Touching(size, fl, m)
    ensures Ordered(Joined(size, fl, m), Merged(fl, m))
  {
    hide Merged;
    var r, s := Merged(fl, m), Joined(size, fl, m);
    MergedAt(fl, m, 0);
    forall j | 0 <= j < |r|
      ensures r[j] in s && (1 <= j ==> 0 < s[r[j]])
    {
      MergedAt(fl, m, j);
    }
    forall j, k | 0 <= j < k < |r|
      ensures r[j] < r[k] && r[j] + s[r[j]] <= r[k]
    {
      MergedAt(fl, m, j);
      MergedAt(fl, m, k);
      assert j == m ==> fl[m + 1] + size[fl[m + 1]] <= fl[k + 1];
    }
  }

  lemma MergeForth(size: map<nat, nat>, fl: seq<nat>, m: nat, u: nat, j: nat)
    requires Ordered(size, fl) && Touching(size, fl, m) && Ordered(Joined(size, fl, m), Merged(fl, m))
    requires 1 <= j < |fl| && InBlock(size, fl[j], u)
    ensures InFree(Joined(size, fl, m), Merged(fl, m), u)
  {
    hide Merged;
    var j' := if j <= m then j else j - 1;
    MergedAt(fl, m, j');
    assert j != m ==> fl[j] != fl[m];
    assert InBlock(Joined(size, fl, m), Merged(fl, m)[j'], u);
  }

  lemma MergeBack(size: map<nat, nat>, fl: seq<nat>, m: nat, u: nat, j: nat)
    requires Ordered(size, fl) && Touching(size, fl, m) && Ordered(Joined(size, fl, m), Merged(fl, m))
    requires 1 <= j < |Merged(fl, m)| && InBlock(Joined(size, fl, m), Merged(fl, m)[j], u)
    ensures InFree(size, fl, u)
  {
    hide Merged;
    MergedAt(fl, m, 0);
    MergedAt(fl, m, j);
    var j' := if j < m then j else if j > m || u >= fl[m + 1] then j + 1 else j;
    assert InBlock(size, fl[j'], u);
  }

  lemma MergeInFree(size: map<nat, nat>, fl: seq<nat>, m: nat, u: nat)
    requires Ordered(size, fl) && Touching(size, fl, m) && Ordered(Joined(size, fl, m), Merged(fl, m))
    ensures InFree(Joined(size, fl, m), Merged(fl, m), u) <==> InFree(size, fl, u)
  {
    hide Merged, Joined;
    var r, s := Merged(fl, m), Joined(size, fl, m);
    if InFree(size, fl, u) {
      var j :| 1 <= j < |fl| && InBlock(size, fl[j], u);
      MergeForth(size, fl, m, u, j);
    }
    if InFree(s, r, u) {
      var j :| 1 <= j < |r| && InBlock(s, r[j], u);
      MergeBack(size, fl, m, u, j);
    }
  }

  lemma MergeBlocks(size: map<nat, nat>, fl: seq<nat>, live: map<nat, nat>, arena: set<nat>, m: nat)
    requires Blocks(size, fl, live, arena) && Touching(size, fl, m)
    ensures Blocks(Joined(size, fl, m), Merged(fl, m), live, arena)
  {
    hide Merged, InFree, InLive;
    var r, s := Merged(fl, m), Joined(size, fl, m);
    MergeOrdered(size, fl, m);
    MergedAt(fl, m, 0);
    forall a | a in live
      ensures a in s && s[a] == live[a] && ApartFrom(s, r, a, live[a])
    {
      assert ApartFrom(size, fl, a, live[a]);
      forall k | 1 <= k < |r|
        ensures a + live[a] <= r[k] || r[k] + s[r[k]] <= a
      {
        MergedAt(fl, m, k);
      }
    }
    forall u: nat
      ensures u in arena <==> InFree(s, r, u) || InLive(live, u)
    {
      MergeInFree(size, fl, m, u);
    }
  }

  lemma InsertNoTouch(size: map<nat, nat>, fl: seq<nat>, k: nat, bp: nat)
    requires Ordered(size, fl) && NoTouch(size, fl, {}) && k < |fl| && Ordered(size, Inserted(fl, k, bp))
    ensures NoTouch(size, Inserted(fl, k, bp), {k, k + 1})
  {
    hide Inserted, Ordered;
    var r := Inserted(fl, k, bp);
    OrderedKeys(size, fl);
    OrderedKeys(size, r);
    InsertedAt(fl, k, bp, 0);
    forall j | 0 <= j < |r| - 1 && j !in {k, k + 1}
      ensures r[j] + size[r[j]] < r[j + 1]
    {
      InsertedAt(fl, k, bp, j);
      InsertedAt(fl, k, bp, j + 1);
    }
  }

  /** Position m stops being open: the blocks there are joined if they touch. */
  ghost function CloseList(size: map<nat, nat>, fl: seq<nat>, m: nat): (r: seq<nat>) {
    if Touching(size, fl, m) then Merged(fl, m) else fl
  }

  ghost function CloseSize(size: map<nat, nat>, fl: seq<nat>, m: nat): (r: map<nat, nat>) {
    if Touching(size, fl, m) then Joined(size, fl, m) else size
  }

  lemma CloseNoTouch(size: map<nat, nat>, fl: seq<nat>, m: nat, open: set<nat>)
    requires Ordered(size, fl) && NoTouch(size, fl, open + {m}) && (forall k :: k in open ==> k < m)
    requires Ordered(CloseSize(size, fl, m), CloseList(size, fl, m))
    ensures NoTouch(CloseSize(size, fl, m), CloseList(size, fl, m), open)
  {
    hide Merged;
    var r, s := CloseList(size, fl, m), CloseSize(size, fl, m);
    if Touching(size, fl, m) {
      MergedAt(fl, m, 0);
      forall j | 0 <= j < |r| - 1 && j !in open
        ensures r[j] + s[r[j]] < r[j + 1]
      {
        MergedAt(fl, m, j);
        MergedAt(fl, m, j + 1);
        assert j != m ==> r[j] != fl[m];
      }
    }
  }

  lemma CloseBlocks(size: map<nat, nat>, fl: seq<nat>, live: map<nat, nat>, arena: set<nat>, m: nat)
    requires Blocks(size, fl, live, arena)
    ensures Blocks(CloseSize(size, fl, m), CloseList(size, fl, m), live, arena)
  {
    hide Blocks;
    if Touching(size, fl, m) {
      MergeBlocks(size, fl, live, arena, m);
    }
  }

  /** The free list and the sizes after free(bp), where bp belongs behind position k. */
  ghost function FreedSize(size: map<nat, nat>, fl: seq<nat>, k: nat, bp: nat): (r: map<nat, nat>)
    requires k < |fl|
  {
    var f1 := Inserted(fl, k, bp);
    CloseSize(CloseSize(size, f1, k + 1), CloseList(size, f1, k + 1), k)
  }

  ghost function FreedList(size: map<nat, nat>, fl: seq<nat>, k: nat, bp: nat): (r: seq<nat>)
    requires k < |fl|
  {
    var f1 := Inserted(fl, k, bp);
    CloseList(CloseSize(size, f1, k + 1), CloseList(size, f1, k + 1), k)
  }

  /** free keeps order, non-overlap, coverage and leaves no two free blocks touching. */
  lemma FreedBlocks(size: map<nat, nat>, fl: seq<nat>, live: map<nat, nat>, arena: set<nat>, k: nat, bp: nat)
    requires Blocks(size, fl, live, arena) && NoTouch(size, fl, {}) && bp in live && Place(fl, k, bp)
    ensures Blocks(FreedSize(size, fl, k, bp), FreedList(size, fl, k, bp), live - {bp}, arena)
    ensures NoTouch(FreedSize(size, fl, k, bp), FreedList(size, fl, k, bp), {})
  {
    hide Inserted, Merged, Joined, CloseList, CloseSize, LiveOk, Covers, NoTouch, Ordered;
    var f1 := Inserted(fl, k, bp);
    InsertBlocks(size, fl, live, arena, k, bp);
    InsertNoTouch(size, fl, k, bp);
    assert {k} + {k + 1} == {k, k + 1} && {} + {k} == {k};
    var s2, f2 := CloseSize(size, f1, k + 1), CloseList(size, f1, k + 1);
    CloseBlocks(size, f1, live - {bp}, arena, k + 1);
    CloseNoTouch(size, f1, k + 1, {k});
    CloseBlocks(s2, f2, live - {bp}, arena, k);
    CloseNoTouch(s2, f2, k, {});
  }

  ghost predicate MeetsLeft(size: map<nat, nat>, fl: seq<nat>, k: nat, bp: nat)
    requires k < |fl| && fl[k] in size
  {
    fl[k] + size[fl[k]] == bp
  }

  ghost predicate MeetsRight(size: map<nat, nat>, fl: seq<nat>, k: nat, bp: nat)
    requires k < |fl| && bp in size
  {
    k + 1 < |fl| && bp + size[bp] == fl[k + 1]
  }

  ghost function ClosePtr(ptr: map<nat, nat>, size: map<nat, nat>, fl: seq<nat>, m: nat): (r: map<nat, nat>) {
    if Touching(size, fl, m) && fl[m + 1] in ptr then ptr[fl[m] := ptr[fl[m + 1]]] else ptr
  }

  ghost function InsertPtr(ptr: map<nat, nat>, p: nat, bp: nat): (r: map<nat, nat>)
    requires p in ptr
  {
    ptr[bp := ptr[p]][p := bp]
  }

  lemma RingInsert(ptr: map<nat, nat>, fl: seq<nat>, k: nat, bp: nat)
    requires Ring(ptr, fl) && k < |fl| && bp !in fl
    requires forall i, j :: 0 <= i < j < |fl| ==> fl[i] != fl[j]
    ensures Ring(InsertPtr(ptr, fl[k], bp), Inserted(fl, k, bp))
  {
    hide Inserted;
    var r := Inserted(fl, k, bp);
    assert Linked(ptr, fl, k);
    InsertedAt(fl, k, bp, 0);
    forall j | 0 <= j < |r|
      ensures r[j] in InsertPtr(ptr, fl[k], bp) && Linked(InsertPtr(ptr, fl[k], bp), r, j)
    {
      InsertedAt(fl, k, bp, j);
      InsertedAt(fl, k, bp, Next(j, |r|));
      assert Linked(ptr, fl, if j <= k then j else j - 1);
    }
  }

  lemma RingMerge(ptr: map<nat, nat>, fl: seq<nat>, m: nat)
    requires Ring(ptr, fl) && m + 1 < |fl|
    requires forall i, j :: 0 <= i < j < |fl| ==> fl[i] != fl[j]
    ensures Ring(ptr[fl[m] := ptr[fl[m + 1]]], Merged(fl, m))
  {
    hide Merged;
    var r, q := Merged(fl, m), ptr[fl[m] := ptr[fl[m + 1]]];
    MergedAt(fl, m, 0);
    forall j | 0 <= j < |r|
      ensures r[j] in q && Linked(q, r, j)
    {
      MergedAt(fl, m, j);
      MergedAt(fl, m, Next(j, |r|));
      assert Linked(ptr, fl, if j <= m then j else j + 1) && Linked(ptr, fl, m + 1);
    }
  }

  lemma RingClose(ptr: map<nat, nat>, size: map<nat, nat>, fl: seq<nat>, m: nat)
    requires Ring(ptr, fl)
    requires forall i, j :: 0 <= i < j < |fl| ==> fl[i] != fl[j]
    ensures Ring(ClosePtr(ptr, size, fl, m), CloseList(size, fl, m))
  {
    hide Merged;
    if Touching(size, fl, m) {
      RingMerge(ptr, fl, m);
    }
  }

  lemma Distinct(size: map<nat, nat>, fl: seq<nat>)
    requires Ordered(size, fl)
    ensures forall i, j :: 0 <= i < j < |fl| ==> fl[i] != fl[j]
  {
  }

  /** The pointers after free(bp). */
  ghost function FreedPtr(ptr: map<nat, nat>, size: map<nat, nat>, fl: seq<nat>, k: nat, bp: nat): (r: map<nat, nat>)
    requires k < |fl| && fl[k] in ptr
  {
    var f1 := Inserted(fl, k, bp);
    ClosePtr(ClosePtr(InsertPtr(ptr, fl[k], bp), size, f1, k + 1), CloseSize(size, f1, k + 1), CloseList(size, f1, k + 1), k)
  }

  lemma FreedRing(ptr: map<nat, nat>, size: map<nat, nat>, fl: seq<nat>, live: map<nat, nat>, arena: set<nat>, k: nat, bp: nat)
    requires Ring(ptr, fl) && Blocks(size, fl, live, arena) && bp in live && Place(fl, k, bp) && bp !in fl
    ensures Ring(FreedPtr(ptr, size, fl, k, bp), FreedList(size, fl, k, bp))
  {
    hide Inserted, InsertPtr, CloseList, CloseSize, ClosePtr, LiveOk, Covers, Ordered;
    var f1 := Inserted(fl, k, bp);
    InsertBlocks(size, fl, live, arena, k, bp);
    Distinct(size, fl);
    RingInsert(ptr, fl, k, bp);
    Distinct(size, f1);
    RingClose(InsertPtr(ptr, fl[k], bp), size, f1, k + 1);
    CloseBlocks(size, f1, live - {bp}, arena, k + 1);
    var s2, f2 := CloseSize(size, f1, k + 1), CloseList(size, f1, k + 1);
    Distinct(s2, f2);
    RingClose(ClosePtr(InsertPtr(ptr, fl[k], bp), size, f1, k + 1), s2, f2, k);
  }

  /** The right neighbour: where bp stands after the insertion. */
  lemma RightOf(size: map<nat, nat>, fl: seq<nat>, k: nat, bp: nat)
    requires Ordered(size, fl) && Place(fl, k, bp) && BASE < bp && bp in size
    ensures
      var f1 := Inserted(fl, k, bp);
      && f1[k] == fl[k] && f1[k + 1] == bp && |f1| == |fl| + 1 && (k + 1 < |fl| ==> f1[k + 2] == fl[k + 1])
      && (MeetsRight(size, fl, k, bp) <==> Touching(size, f1, k + 1))
  {
  }

  /** The left neighbour, after bp may have been joined with its right one. */
  lemma LeftOf(size: map<nat, nat>, fl: seq<nat>, k: nat, bp: nat)
    requires Ordered(size, fl) && Place(fl, k, bp) && BASE < bp && bp in size
    ensures
      var f1 := Inserted(fl, k, bp);
      var s2, f2 := CloseSize(size, f1, k + 1), CloseList(size, f1, k + 1);
      && k + 1 < |f2| && f2[k] == fl[k] && f2[k + 1] == bp
      && (MeetsLeft(size, fl, k, bp) <==> Touching(s2, f2, k))
  {
    hide Inserted;
    RightOf(size, fl, k, bp);
    var f1 := Inserted(fl, k, bp);
    if Touching(size, f1, k + 1) {
      MergedAt(f1, k + 1, k);
      MergedAt(f1, k + 1, k + 1);
    }
  }

  /** Which neighbours free finds, in terms of the pointers it follows. */
  lemma Neighbours(ptr: map<nat, nat>, size: map<nat, nat>, fl: seq<nat>, k: nat, bp: nat)
    requires Ring(ptr, fl) && Ordered(size, fl) && Place(fl, k, bp) && BASE < bp && bp in size
    ensures fl[k] in ptr && fl[k] in size
    ensures
      var p, next := fl[k], ptr[fl[k]];
      && (MeetsRight(size, fl, k, bp) <==> bp + size[bp] == next)
      && (MeetsRight(size, fl, k, bp) ==> next == fl[k + 1] && next in size && next in ptr && next != p && next != bp)
      && (MeetsLeft(size, fl, k, bp) <==> p + size[p] == bp)
  {
    assert Linked(ptr, fl, k);
  }

  lemma FreedSizes(ptr: map<nat, nat>, size: map<nat, nat>, fl: seq<nat>, k: nat, bp: nat)
    requires Ring(ptr, fl) && Ordered(size, fl) && Place(fl, k, bp) && BASE < bp && bp in size && bp !in fl
    requires fl[k] in ptr && fl[k] in size && fl[k] != bp
    ensures
      var p, next := fl[k], ptr[fl[k]];
      var left, right := p + size[p] == bp, bp + size[bp] == next;
      && (right ==> next in size)
      && var s2 := if right then size[bp := size[bp] + size[next]] else size;
         FreedSize(size, fl, k, bp) == (if left then s2[p := s2[p] + s2[bp]] else s2)
  {
    hide Inserted, Merged, Ring, Ordered;
    Neighbours(ptr, size, fl, k, bp);
    RightOf(size, fl, k, bp);
    LeftOf(size, fl, k, bp);
  }

  lemma FreedPtrs(ptr: map<nat, nat>, size: map<nat, nat>, fl: seq<nat>, k: nat, bp: nat)
    requires Ring(ptr, fl) && Ordered(size, fl) && Place(fl, k, bp) && BASE < bp && bp in size && bp !in fl
    requires fl[k] in ptr && fl[k] in size && fl[k] != bp
    ensures
      var p, next := fl[k], ptr[fl[k]];
      var left, right := p + size[p] == bp, bp + size[bp] == next;
      && (right ==> next in ptr)
      && var q2 := if right then ptr[bp := ptr[next]] else ptr[bp := next];
         FreedPtr(ptr, size, fl, k, bp) == if left then q2[p := q2[bp]] else q2[p := bp]
  {
    hide Inserted, Merged, Ring, Ordered, CloseSize, CloseList;
    Neighbours(ptr, size, fl, k, bp);
    RightOf(size, fl, k, bp);
    LeftOf(size, fl, k, bp);
  }

  // Taking a block out of the list.

  /** Free block k, as a whole, becomes live. */
  lemma TakeWhole(size: map<nat, nat>, fl: seq<nat>, live: map<nat, nat>, arena: set<nat>, k: nat)
    requires Blocks(size, fl, live, arena) && NoTouch(size, fl, {}) && 1 <= k < |fl|
    ensures fl[k] !in live
    ensures Blocks(size, Merged(fl, k - 1), live[fl[k] := size[fl[k]]], arena)
    ensures NoTouch(size, Merged(fl, k - 1), {})
  {
    hide Merged, InFree, InLive;
    var r, live' := Merged(fl, k - 1), live[fl[k] := size[fl[k]]];
    TakeWholeOrder(size, fl, k);
    MergedAt(fl, k - 1, 0);
    forall a | a in live
      ensures a != fl[k] && ApartFrom(size, r, a, live[a])
      ensures a + live[a] <= fl[k] || fl[k] + size[fl[k]] <= a
    {
      assert ApartFrom(size, fl, a, live[a]);
      forall j | 1 <= j < |r|
        ensures a + live[a] <= r[j] || r[j] + size[r[j]] <= a
      {
        MergedAt(fl, k - 1, j);
      }
    }
    forall j | 1 <= j < |r|
      ensures fl[k] + size[fl[k]] <= r[j] || r[j] + size[r[j]] <= fl[k]
    {
      MergedAt(fl, k - 1, j);
    }
    forall u: nat
      ensures u in arena <==> InFree(size, r, u) || InLive(live', u)
    {
      TakeWholeUnit(size, fl, live, k, u);
    }
  }

  lemma TakeWholeOrder(size: map<nat, nat>, fl: seq<nat>, k: nat)
    requires Ordered(size, fl) && NoTouch(size, fl, {}) && 1 <= k < |fl|
    ensures Ordered(size, Merged(fl, k - 1)) && NoTouch(size, Merged(fl, k - 1), {})
  {
    hide Merged;
    var r := Merged(fl, k - 1);
    MergedAt(fl, k - 1, 0);
    forall j | 0 <= j < |r|
      ensures r[j] in size && (1 <= j ==> 0 < size[r[j]])
    {
      MergedAt(fl, k - 1, j);
    }
    forall i, j | 0 <= i < j < |r|
      ensures r[i] < r[j] && r[i] + size[r[i]] <= r[j]
    {
      MergedAt(fl, k - 1, i);
      MergedAt(fl, k - 1, j);
    }
    forall j | 0 <= j < |r| - 1
      ensures r[j] + size[r[j]] < r[j + 1]
    {
      MergedAt(fl, k - 1, j);
      MergedAt(fl, k - 1, j + 1);
    }
  }

  lemma TakeWholeUnit(size: map<nat, nat>, fl: seq<nat>, live: map<nat, nat>, k: nat, u: nat)
    requires (forall j :: 0 <= j < |fl| ==> fl[j] in size) && 1 <= k < |fl| && fl[k] !in live
    ensures var r := Merged(fl, k - 1); forall j :: 0 <= j < |r| ==> r[j] in size
    ensures InFree(size, fl, u) || InLive(live, u)
            <==> InFree(size, Merged(fl, k - 1), u) || InLive(live[fl[k] := size[fl[k]]], u)
  {
    var r, live' := Merged(fl, k - 1), live[fl[k] := size[fl[k]]];
    if InFree(size, fl, u) {
      var j :| 1 <= j < |fl| && InBlock(size, fl[j], u);
      if j == k {
        assert fl[k] in live';
      } else {
        assert r[if j < k then j else j - 1] == fl[j];
      }
    }
    if InLive(live, u) {
      var a :| a in live && a <= u < a + live[a];
      assert a in live';
    }
    if InFree(size, r, u) {
      var j :| 1 <= j < |r| && InBlock(size, r[j], u);
      assert r[j] == fl[if j < k then j else j + 1];
    }
    if InLive(live', u) {
      var a :| a in live' && a <= u < a + live'[a];
      if a == fl[k] {
        assert InBlock(size, fl[k], u);
      }
    }
  }

  /** The sizes after the last n units of block a are split off. */
  function SplitSize(size: map<nat, nat>, a: nat, n: nat): (r: map<nat, nat>)
    requires a in size && n <= size[a]
  {
    size[a := size[a] - n][a + (size[a] - n) := n]
  }

  lemma TailLive(size: map<nat, nat>, fl: seq<nat>, live: map<nat, nat>, k: nat, n: nat)
    requires Ordered(size, fl) && LiveOk(size, fl, live) && 1 <= k < |fl| && 0 < n < size[fl[k]]
    requires fl[k] + (size[fl[k]] - n) !in fl && Ordered(SplitSize(size, fl[k], n), fl)
    ensures fl[k] + (size[fl[k]] - n) !in live
    ensures LiveOk(SplitSize(size, fl[k], n), fl, live[fl[k] + (size[fl[k]] - n) := n])
  {
    var q, size' := fl[k] + (size[fl[k]] - n), SplitSize(size, fl[k], n);
    forall a | a in live
      ensures a != q && a != fl[k] && ApartFrom(size', fl, a, live[a])
      ensures a + live[a] <= q || q + n <= a
    {
      TailApart(size, fl, live, k, n, a);
    }
    TailItself(size, fl, k, n);
  }

  lemma TailApart(size: map<nat, nat>, fl: seq<nat>, live: map<nat, nat>, k: nat, n: nat, a: nat)
    requires Ordered(size, fl) && 1 <= k < |fl| && 0 < n < size[fl[k]] && a in live && 0 < live[a]
    requires ApartFrom(size, fl, a, live[a])
    requires fl[k] + (size[fl[k]] - n) !in fl && Ordered(SplitSize(size, fl[k], n), fl)
    ensures
      var q := fl[k] + (size[fl[k]] - n);
      a != q && a != fl[k] && ApartFrom(SplitSize(size, fl[k], n), fl, a, live[a]) && (a + live[a] <= q || q + n <= a)
  {
    hide Ordered;
    OrderedKeys(size, fl);
    OrderedKeys(SplitSize(size, fl[k], n), fl);
  }

  lemma TailItself(size: map<nat, nat>, fl: seq<nat>, k: nat, n: nat)
    requires Ordered(size, fl) && 1 <= k < |fl| && 0 < n < size[fl[k]]
    requires fl[k] + (size[fl[k]] - n) !in fl && Ordered(SplitSize(size, fl[k], n), fl)
    ensures ApartFrom(SplitSize(size, fl[k], n), fl, fl[k] + (size[fl[k]] - n), n)
  {
  }

  /** The last n units of free block k become a live block of their own. */
  lemma TakeTail(size: map<nat, nat>, fl: seq<nat>, live: map<nat, nat>, arena: set<nat>, k: nat, n: nat)
    requires Blocks(size, fl, live, arena) && NoTouch(size, fl, {}) && 1 <= k < |fl| && 0 < n < size[fl[k]]
    ensures
      var q, size' := fl[k] + (size[fl[k]] - n), SplitSize(size, fl[k], n);
      q !in live && Blocks(size', fl, live[q := n], arena) && NoTouch(size', fl, {})
  {
    hide InFree, InLive, SplitSize, LiveOk, NoTouch;
    var q, size' := fl[k] + (size[fl[k]] - n), SplitSize(size, fl[k], n);
    TailOrder(size, fl, k, n);
    TailLive(size, fl, live, k, n);
    forall u: nat
      ensures u in arena <==> InFree(size', fl, u) || InLive(live[q := n], u)
    {
      TailUnit(size, fl, live, k, n, u);
    }
  }

  lemma TailOrder(size: map<nat, nat>, fl: seq<nat>, k: nat, n: nat)
    requires Ordered(size, fl) && NoTouch(size, fl, {}) && 1 <= k < |fl| && 0 < n < size[fl[k]]
    ensures
      var q, size' := fl[k] + (size[fl[k]] - n), SplitSize(size, fl[k], n);
      q !in fl && Ordered(size', fl) && NoTouch(size', fl, {})
  {
    var q := fl[k] + (size[fl[k]] - n);
    forall j | 0 <= j < |fl|
      ensures fl[j] != q && (j != k ==> fl[j] != fl[k])
    {
    }
  }

  lemma TailUnit(size: map<nat, nat>, fl: seq<nat>, live: map<nat, nat>, k: nat, n: nat, u: nat)
    requires Ordered(size, fl) && 1 <= k < |fl| && 0 < n < size[fl[k]]
    requires var q := fl[k] + (size[fl[k]] - n); q !in fl && q !in live
    ensures
      var q, size' := fl[k] + (size[fl[k]] - n), SplitSize(size, fl[k], n);
      InFree(size, fl, u) || InLive(live, u) <==> InFree(size', fl, u) || InLive(live[q := n], u)
  {
    hide InFree, InLive, SplitSize;
    TailFree(size, fl, k, n, u);
    TailInLive(live, fl[k] + (size[fl[k]] - n), n, u);
  }

  /** The units of the cut block are in its front part, or in its tail. */
  lemma TailFree(size: map<nat, nat>, fl: seq<nat>, k: nat, n: nat, u: nat)
    requires Ordered(size, fl) && 1 <= k < |fl| && 0 < n < size[fl[k]]
    requires var q := fl[k] + (size[fl[k]] - n); q !in fl
    ensures var q, size' := fl[k] + (size[fl[k]] - n), SplitSize(size, fl[k], n);
            InFree(size, fl, u) <==> InFree(size', fl, u) || q <= u < q + n
  {
    var q, size' := fl[k] + (size[fl[k]] - n), SplitSize(size, fl[k], n);
    forall j | 0 <= j < |fl| && j != k
      ensures fl[j] != fl[k] && (InBlock(size', fl[j], u) <==> InBlock(size, fl[j], u))
    {
    }
    assert InBlock(size, fl[k], u) <==> InBlock(size', fl[k], u) || q <= u < q + n;
  }

  lemma TailInLive(live: map<nat, nat>, q: nat, n: nat, u: nat)
    requires q !in live
    ensures InLive(live[q := n], u) <==> InLive(live, u) || q <= u < q + n
  {
    var live' := live[q := n];
    if InLive(live, u) {
      var a :| a in live && a <= u < a + live[a];
      assert a in live';
    }
    if q <= u < q + n {
      assert q in live';
    }
  }

  // More memory from sbrk.

  ghost function Units(p: nat, n: nat): (s: set<nat>) {
    set u: nat | u < p + n && Within(u, p, n)
  }

  predicate Within(u: nat, p: nat, n: nat) {
    p <= u < p + n
  }

  /** Every block ends below p when every unit lies below p. */
  lemma BlocksBelow(size: map<nat, nat>, fl: seq<nat>, live: map<nat, nat>, arena: set<nat>, p: nat)
    requires Blocks(size, fl, live, arena) && forall u :: u in arena ==> u < p
    ensures forall k :: 1 <= k < |fl| ==> fl[k] + size[fl[k]] <= p
    ensures forall a :: a in live ==> a + live[a] <= p
  {
    forall k | 1 <= k < |fl|
      ensures fl[k] + size[fl[k]] <= p
    {
      var u := fl[k] + size[fl[k]] - 1;
      assert InBlock(size, fl[k], u);
      assert InFree(size, fl, u);
    }
    forall a | a in live
      ensures a + live[a] <= p
    {
      var u := a + live[a] - 1;
      assert InLive(live, u);
    }
  }

  lemma FreshOrder(size: map<nat, nat>, fl: seq<nat>, p: nat, n: nat)
    requires Ordered(size, fl) && NoTouch(size, fl, {}) && p !in fl
    ensures Ordered(size[p := n], fl) && NoTouch(size[p := n], fl, {})
  {
  }

  lemma FreshLive(size: map<nat, nat>, fl: seq<nat>, live: map<nat, nat>, p: nat, n: nat)
    requires (forall k :: 0 <= k < |fl| ==> fl[k] in size) && LiveOk(size, fl, live) && p !in fl && p !in live
    requires BASE < p && 0 < n
    requires forall k :: 1 <= k < |fl| ==> fl[k] + size[fl[k]] <= p
    requires forall a :: a in live ==> a + live[a] <= p
    ensures LiveOk(size[p := n], fl, live[p := n])
  {
    var size', live' := size[p := n], live[p := n];
    forall a | a in live
      ensures ApartFrom(size', fl, a, live[a])
    {
      assert ApartFrom(size, fl, a, live[a]);
    }
    assert ApartFrom(size', fl, p, n);
  }

  /** Fresh memory above everything else, seen as one live block. */
  lemma FreshBlock(size: map<nat, nat>, fl: seq<nat>, live: map<nat, nat>, arena: set<nat>, p: nat, n: nat)
    requires Blocks(size, fl, live, arena) && NoTouch(size, fl, {}) && (forall u :: u in arena ==> u < p) && BASE < p && 0 < n
    ensures p !in live && p !in fl
    ensures Blocks(size[p := n], fl, live[p := n], arena + Units(p, n)) && NoTouch(size[p := n], fl, {})
  {
    hide InFree, InLive, NoTouch, ApartFrom;
    BlocksBelow(size, fl, live, arena, p);
    assert p !in fl && p !in live;
    FreshOrder(size, fl, p, n);
    FreshLive(size, fl, live, p, n);
    forall u: nat
      ensures u in arena + Units(p, n) <==> InFree(size[p := n], fl, u) || InLive(live[p := n], u)
    {
      FreshUnit(size, fl, live, p, n, u);
      assert u in Units(p, n) <==> Within(u, p, n);
    }
  }

  lemma FreshUnit(size: map<nat, nat>, fl: seq<nat>, live: map<nat, nat>, p: nat, n: nat, u: nat)
    requires (forall j :: 0 <= j < |fl| ==> fl[j] in size) && p !in fl && p !in live
    ensures InFree(size[p := n], fl, u) <==> InFree(size, fl, u)
    ensures InLive(live[p := n], u) <==> InLive(live, u) || p <= u < p + n
  {
    if InFree(size, fl, u) {
      var j :| 1 <= j < |fl| && InBlock(size, fl[j], u);
      assert InBlock(size[p := n], fl[j], u);
    }
    if InFree(size[p := n], fl, u) {
      var j :| 1 <= j < |fl| && InBlock(size[p := n], fl[j], u);
      assert InBlock(size, fl[j], u);
    }
    if InLive(live, u) {
      var a :| a in live && a <= u < a + live[a];
      assert a in live[p := n];
    }
    if p <= u < p + n {
      assert p in live[p := n];
    }
  }

  /** The unit right behind a free block is not free. */
  lemma EndNotFree(size: map<nat, nat>, fl: seq<nat>, k: nat)
    requires Ordered(size, fl) && NoTouch(size, fl, {}) && 1 <= k < |fl|
    ensures !InFree(size, fl, fl[k] + size[fl[k]])
  {
    var e := fl[k] + size[fl[k]];
    forall m | 1 <= m < |fl|
      ensures !InBlock(size, fl[m], e)
    {
      if m > k {
        assert fl[k + 1] <= fl[m];
      } else if m < k {
        assert fl[m] + size[fl[m]] <= fl[k];
      }
    }
  }

  /** A run of free units lies within one free block. */
  lemma FreeRun(size: map<nat, nat>, fl: seq<nat>, a: nat, n: nat) returns (k: nat)
    requires Ordered(size, fl) && NoTouch(size, fl, {}) && 0 < n
    requires forall u :: a <= u < a + n ==> InFree(size, fl, u)
    ensures 1 <= k < |fl| && n <= size[fl[k]]
  {
    assert InFree(size, fl, a);
    k :| 1 <= k < |fl| && InBlock(size, fl[k], a);
    EndNotFree(size, fl, k);
  }

  // Request sizes.

  /** Units for a request of nbytes, in 32-bit unsigned arithmetic. */
  function NUnits(nbytes: nat): (n: nat)
    requires nbytes < UINT
    ensures 1 <= n
  {
    (nbytes + HEADER - 1) % UINT / HEADER + 1
  }

  /**
   A request gets room for its bytes behind the header exactly when rounding it
   up does not wrap around, and then one unit of eight bytes less would not do.
   */
  lemma EnoughUnits(nbytes: nat)
    requires nbytes < UINT
    ensures NUnits(nbytes) * 8 >= nbytes + 8 <==> nbytes + 7 < 0x1_0000_0000
    ensures nbytes + 7 < 0x1_0000_0000 ==> (NUnits(nbytes) - 1) * 8 < nbytes + 8
  {
  }

  const LARGEST: nat := 0x7FFF_FFF0

  /** Among requests that do not wrap, sbrk's int argument stays positive exactly up to LARGEST bytes. */
  lemma SbrkArgument(nbytes: nat)
    requires nbytes + HEADER - 1 < UINT
    ensures NUnits(nbytes) * HEADER < 0x8000_0000 <==> nbytes <= LARGEST
  {
  }

  function Prev(k: nat, n: nat): (m: int) {
    if k == 0 then n - 1 else k - 1
  }

  /** Steps along the cycle from k to f. */
  function Distance(k: nat, f: nat, n: nat): (d: int) {
    if k <= f then f - k else n - k + f
  }

  /** What morecore comes to. */
  datatype Core = Grown | Refused | Broken

  class Heap {
    var ptr: map<nat, nat>
    var size: map<nat, nat>
    /** 0 stands for the null pointer. */
    var freep: nat
    ghost var fl: seq<nat>
    /** header address -> units, for every block handed out and not freed */
    ghost var live: map<nat, nat>
    /** the units obtained from sbrk */
    ghost var arena: set<nat>

    ghost predicate Valid()
      reads this
    {
      if freep == 0 then live == map[] && arena == {}
      else Ring(ptr, fl) && Blocks(size, fl, live, arena) && NoTouch(size, fl, {}) && freep in fl
    }

    constructor ()
      ensures Valid() && freep == 0
    {
      ptr, size, freep, fl, live, arena := map[], map[], 0, [], map[], {};
    }

    /** The place of bp in the list. */
    lemma FindPlace(bp: nat) returns (k: nat)
      requires Ordered(size, fl) && BASE < bp && bp !in fl
      ensures Place(fl, k, bp)
    {
      k := 0;
      while k + 1 < |fl| && fl[k + 1] < bp
        invariant k < |fl| && fl[k] < bp
      {
        k := k + 1;
      }
    }

    lemma LiveNotFree(bp: nat)
      requires Blocks(size, fl, live, arena) && bp in live
      ensures bp !in fl && BASE < bp && bp in size && 0 < size[bp]
    {
      assert ApartFrom(size, fl, bp, live[bp]);
    }

    lemma StopsAt(k: nat, bp: nat, at: nat)
      requires Ring(ptr, fl) && Ordered(size, fl) && Place(fl, at, bp) && k < |fl| && BASE < bp
      ensures fl[k] in ptr && ptr[fl[k]] == fl[Next(k, |fl|)]
      ensures
        var p, q := fl[k], ptr[fl[k]];
        ((bp > p && bp < q) || (p >= q && (bp > p || bp < q))) <==> k == at
    {
      assert Linked(ptr, fl, k);
    }

    /** free's search: walk the cycle from freep to the place of bp. */
    method Search(bp: nat, ghost at: nat) returns (p: nat)
      requires Ring(ptr, fl) && Ordered(size, fl) && freep in fl && Place(fl, at, bp) && BASE < bp
      ensures p == fl[at]
    {
      hide Ring, Ordered;
      ghost var k :| 0 <= k < |fl| && fl[k] == freep;
      p := freep;
      StopsAt(k, bp, at);
      while !(bp > p && bp < ptr[p])
        invariant 0 <= k < |fl| && p == fl[k] && p in ptr && ptr[p] == fl[Next(k, |fl|)]
        invariant ((bp > p && bp < ptr[p]) || (p >= ptr[p] && (bp > p || bp < ptr[p]))) <==> k == at
        decreases if k <= at then at - k else |fl| - k + at
      {
        if p >= ptr[p] && (bp > p || bp < ptr[p]) {
          break;
        }
        p := ptr[p];
        k := Next(k, |fl|);
        StopsAt(k, bp, at);
      }
    }

    /**
     free: the block goes back to the list, joined with any free neighbour it
     touches.  No other live block is disturbed and no unit is lost.
     */
    method Free(bp: nat)
      requires Valid() && bp in live
      modifies this
      ensures Valid() && live == old(live) - {bp} && arena == old(arena) && freep != 0
    {
      hide Ring, Ordered, LiveOk, Covers, NoTouch, FreedList, FreedSize, FreedPtr;
      LiveNotFree(bp);
      ghost var at := FindPlace(bp);
      var p := Search(bp, at);
      FreedBlocks(size, fl, live, arena, at, bp);
      FreedRing(ptr, size, fl, live, arena, at, bp);
      FreedKeepsPlace(at, bp);
      FreedSizes(ptr, size, fl, at, bp);
      FreedPtrs(ptr, size, fl, at, bp);
      var next := ptr[p];
      if bp + size[bp] == next {
        size := size[bp := size[bp] + size[next]];
        ptr := ptr[bp := ptr[next]];
      } else {
        ptr := ptr[bp := next];
      }
      if p + size[p] == bp {
        size := size[p := size[p] + size[bp]];
        ptr := ptr[p := ptr[bp]];
      } else {
        ptr := ptr[p := bp];
      }
      freep := p;
      fl := FreedList(old(size), old(fl), at, bp);
      live := live - {bp};
    }

    lemma FreedKeepsPlace(at: nat, bp: nat)
      requires Ring(ptr, fl) && Ordered(size, fl) && Place(fl, at, bp) && BASE < bp && bp in size
      ensures fl[at] in ptr && fl[at] in size && fl[at] in FreedList(size, fl, at, bp) && fl[at] != 0
    {
      hide Inserted, Merged;
      LeftOf(size, fl, at, bp);
      var f1 := Inserted(fl, at, bp);
      var s2, f2 := CloseSize(size, f1, at + 1), CloseList(size, f1, at + 1);
      if Touching(s2, f2, at) {
        MergedAt(f2, at, at);
        assert FreedList(size, fl, at, bp)[at] == fl[at];
      }
    }

    /** What sbrk may answer: nothing, or memory above all units obtained so far. */
    ghost predicate Grantable(grant: Option<nat>)
      reads this
    {
      grant.Some? ==> BASE < grant.value && forall u :: u in arena ==> u < grant.value
    }

    /**
     morecore: at least nu new units, as one free block or part of one; refused
     only when sbrk refuses.  A request of 2^31 bytes or more is no positive
     argument of sbrk, and what follows is no heap any more.
     */
    method Morecore(nu: nat, grant: Option<nat>) returns (r: Core, ghost k: nat)
      requires Valid() && freep != 0 && 0 < nu && Grantable(grant)
      modifies this
      ensures !r.Broken? ==> Valid() && freep != 0 && live == old(live) && old(arena) <= arena
      ensures r.Broken? <==> nu * HEADER >= 0x8000_0000
      ensures r.Grown? <==> nu * HEADER < 0x8000_0000 && grant.Some?
      ensures r.Grown? ==> 1 <= k < |fl| && fl[k] in size && nu <= size[fl[k]]
      ensures r.Grown? ==> arena == old(arena) + Units(grant.value, if nu < 4096 then 4096 else nu)
      ensures r.Refused? ==> arena == old(arena)
    {
      hide Ring, Ordered, LiveOk, Covers, NoTouch, InFree;
      k := 0;
      var n := if nu < 4096 then 4096 else nu;
      if n * HEADER >= 0x8000_0000 {
        return Broken, k;
      }
      r := Refused;
      if grant.Some? {
        r := Grown;
        var hp := grant.value;
        FreshBlock(size, fl, live, arena, hp, n);
        BlocksBelow(size, fl, live, arena, hp);
        size := size[hp := n];
        live := live[hp := n];
        arena := arena + Units(hp, n);
        Free(hp);
        assert live == old(live);
        GrantedRun(old(arena), hp, n);
        k := FreeRun(size, fl, hp, n);
        OrderedKeys(size, fl);
      }
    }

    lemma GrantedRun(was: set<nat>, hp: nat, n: nat)
      requires Blocks(size, fl, live, arena) && arena == was + Units(hp, n)
      requires forall a :: a in live ==> a + live[a] <= hp
      ensures forall u :: hp <= u < hp + n ==> InFree(size, fl, u)
    {
      forall u | hp <= u < hp + n
        ensures InFree(size, fl, u)
      {
        assert u in Units(hp, n);
        assert !InLive(live, u);
      }
    }

    /** malloc's success branch: all of free block p, or its last n units. */
    method Take(prevp: nat, p: nat, n: nat, ghost k: nat) returns (q: nat)
      requires Valid() && freep != 0 && 1 <= k < |fl| && p == fl[k] && prevp == fl[k - 1]
      requires p in size && 0 < n <= size[p]
      modifies this
      ensures Valid() && freep == prevp != 0 && arena == old(arena)
      ensures q !in old(live) && BASE < q && live == old(live)[q := n]
    {
      hide Ring, Ordered, LiveOk, Covers, NoTouch;
      ghost var n0 := size[p];
      ListFacts(k);
      if size[p] == n {
        TakeWhole(size, fl, live, arena, k);
        Distinct(size, fl);
        RingMerge(ptr, fl, k - 1);
        MergedAt(fl, k - 1, k - 1);
        ptr := ptr[prevp := ptr[p]];
        fl := Merged(fl, k - 1);
        assert fl[k - 1] == prevp;
        q := p;
      } else {
        TakeTail(size, fl, live, arena, k, n);
        size := size[p := size[p] - n];
        q := p + size[p];
        size := size[q := n];
      }
      freep := prevp;
      live := live[q := n];
    }

    lemma ListFacts(k: nat)
      requires Ring(ptr, fl) && Ordered(size, fl) && 1 <= k < |fl|
      ensures fl[k] in ptr && fl[k - 1] in ptr && fl[k - 1] != 0 && BASE < fl[k]
    {
      assert fl[0] <= fl[k - 1];
    }

    /** Going round from f, the blocks before k are too small. */
    ghost predicate Scanned(f: nat, k: nat, n: nat)
      reads this
    {
      forall j :: 0 <= j < |fl| && (if f < k then f < j < k else j > f || j < k) ==> fl[j] in size && size[fl[j]] < n
    }

    /** Where malloc's search stands: p is block k of the list, prevp the one before it. */
    ghost predicate Walk(f: nat, k: nat, prevp: nat, p: nat, n: nat)
      reads this
    {
      && f < |fl| && fl[f] == freep && k < |fl| && p == fl[k] && prevp == fl[Prev(k, |fl|)] && p in size
      && Scanned(f, k, n)
    }

    lemma WalkStart(f: nat, n: nat)
      requires Ring(ptr, fl) && Ordered(size, fl) && f < |fl| && fl[f] == freep
      ensures freep in ptr && Walk(f, Next(f, |fl|), freep, ptr[freep], n)
    {
      assert Linked(ptr, fl, f);
    }

    lemma WalkOn(f: nat, k: nat, prevp: nat, p: nat, n: nat)
      requires Ring(ptr, fl) && Ordered(size, fl) && Walk(f, k, prevp, p, n) && p != freep && size[p] < n
      ensures p in ptr && Walk(f, Next(k, |fl|), p, ptr[p], n)
      ensures 0 <= Distance(Next(k, |fl|), f, |fl|) < Distance(k, f, |fl|)
    {
      assert Linked(ptr, fl, k);
    }

    lemma WalkTake(f: nat, k: nat, prevp: nat, p: nat, n: nat)
      requires Ordered(size, fl) && Walk(f, k, prevp, p, n) && 0 < n <= size[p]
      ensures 1 <= k < |fl| && p == fl[k] && prevp == fl[k - 1]
    {
    }

    lemma WalkFull(f: nat, k: nat, prevp: nat, p: nat, n: nat)
      requires Ordered(size, fl) && Walk(f, k, prevp, p, n) && p == freep && size[p] < n
      ensures forall j :: 0 <= j < |fl| ==> fl[j] in size && size[fl[j]] < n
    {
    }

    lemma FirstList()
      requires fl == [BASE] && BASE in ptr && ptr[BASE] == BASE && BASE in size && size[BASE] == 0
      requires live == map[] && arena == {}
      ensures Ring(ptr, fl) && Blocks(size, fl, live, arena) && NoTouch(size, fl, {})
    {
    }

    /** No free block has n units. */
    ghost predicate NoFit(n: nat)
      reads this
    {
      freep == 0 || forall j :: 0 <= j < |fl| ==> fl[j] in size && size[fl[j]] < n
    }

    /**
     malloc: a block of NUnits(nbytes) units that overlaps no live block, or
     nothing exactly when no free block is large enough and sbrk refuses; every
     other live block stays as it is.  grant is what sbrk answers should malloc
     have to ask.  It breaks the heap exactly when it has to ask for 2^31 bytes
     or more.
     */
    method Malloc(nbytes: nat, grant: Option<nat>) returns (q: nat, broken: bool)
      requires Valid() && nbytes < UINT && Grantable(grant)
      modifies this
      ensures !broken ==> Valid() && old(arena) <= arena
      ensures broken <==> NUnits(nbytes) * HEADER >= 0x8000_0000 && old(NoFit(NUnits(nbytes)))
      ensures q == 0 <==> broken || (grant.None? && old(NoFit(NUnits(nbytes))))
      ensures q == 0 && !broken ==> live == old(live) && arena == old(arena)
      ensures q != 0 ==>
                var n := NUnits(nbytes);
                arena == if old(NoFit(n)) && grant.Some? then old(arena) + Units(grant.value, if n < 4096 then 4096 else n) else old(arena)
      ensures q != 0 ==> q !in old(live) && BASE < q && live == old(live)[q := NUnits(nbytes)]
    {
      hide Ring, Ordered, LiveOk, Covers, NoTouch, NUnits, Walk, Distance, Next;
      var n := NUnits(nbytes);
      broken := false;
      if freep == 0 {
        ptr, size, freep := ptr[BASE := BASE], size[BASE := 0], BASE;
        fl := [BASE];
        FirstList();
      }
      ghost var f :| 0 <= f < |fl| && fl[f] == freep;
      ghost var k := Next(f, |fl|);
      WalkStart(f, n);
      var prevp, p := freep, ptr[freep];
      InSize(f, k, prevp, p, n);
      ghost var grown, big := false, 0;
      while true
        invariant Valid() && freep != 0 && live == old(live) && old(arena) <= arena
        invariant Walk(f, k, prevp, p, n) && p in size
        invariant !grown ==> arena == old(arena) && (old(freep) != 0 ==> fl == old(fl) && size == old(size))
        invariant !grown && old(freep) == 0 ==> fl == [BASE] && BASE in size && size[BASE] == 0
        invariant grown ==> grant.Some? && n * HEADER < 0x8000_0000 && old(NoFit(n))
        invariant grown ==> arena == old(arena) + Units(grant.value, if n < 4096 then 4096 else n)
        invariant !broken
        invariant grown ==> 1 <= big < |fl| && fl[big] in size && n <= size[fl[big]]
        decreases !grown, Distance(k, f, |fl|)
      {
        if size[p] >= n {
          WalkTake(f, k, prevp, p, n);
          assert !grown ==> !old(NoFit(n));
          q := Take(prevp, p, n, k);
          return;
        }
        if p == freep {
          WalkFull(f, k, prevp, p, n);
          assert !grown;
          assert old(NoFit(n));
          var r: Core;
          r, big := Morecore(n, grant);
          if !r.Grown? {
            return 0, r.Broken?;
          }
          grown := true;
          f :| 0 <= f < |fl| && fl[f] == freep;
          WalkStart(f, n);
          k := Next(f, |fl|);
          p := freep;
        } else {
          WalkOn(f, k, prevp, p, n);
          k := Next(k, |fl|);
        }
        prevp, p := p, ptr[p];
        InSize(f, k, prevp, p, n);
      }
    }

    lemma InSize(f: nat, k: nat, prevp: nat, p: nat, n: nat)
      requires Walk(f, k, prevp, p, n)
      ensures p in size
    {
    }
  }
}
