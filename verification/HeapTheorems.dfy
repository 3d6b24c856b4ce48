/** Every operation of the allocator keeps the heap's invariant. */
module HeapTheorems {
  import opened HeapModel
  import opened HeapProofs
  import opened HeapOps

  // --------------------------------------------------------------------------- freeing

  lemma AbsorbNextSound(m: Heap, a: nat)
    requires Sound(m, {a}) && a < |m.lay| && m.lay[a].Free? && !m.lay[a].unmapped
    ensures var t := AbsorbNext(m, a);
      && Sound(t, {a}) && t.largeFree == m.largeFree && FreePages(t.lay) == FreePages(m.lay)
      && |t.lay| == |m.lay| && t.lay[a].Free? && !t.lay[a].unmapped && t.heap == m.heap && t.heapSize == m.heapSize
      && t.limit == m.limit && t.mapped == m.mapped
  {
    hide Sound, FreePages, Without, Bin;
    SoundFacts(m, {a});
    if MergesNext(m, a, m.lay[a].pages) {
      var b := a + m.lay[a].pages;
      var t := Take(m, b, Bin(m.lay[b].pages));
      TakeSound(m, {a}, b);
      JoinSound(t, {a} + {b}, a, b);
      assert {a} + {b} - {b} == {a};
    }
  }

  lemma AbsorbPrevSound(m: Heap, a: nat, prev: nat)
    requires Sound(m, {a}) && a < |m.lay| && m.lay[a].Free? && !m.lay[a].unmapped
    ensures var t := AbsorbPrev(m, a, prev);
      && Sound(t, {}) && t.largeFree == m.largeFree && FreePages(t.lay) == FreePages(m.lay)
      && |t.lay| == |m.lay| && t.heap == m.heap && t.heapSize == m.heapSize && t.limit == m.limit && t.mapped == m.mapped
  {
    if MergesPrev(m, a, prev) {
      assert BlockAt(m.lay, prev);
      var t := Take(m, prev, Bin(m.lay[prev].pages));
      TakeSound(m, {a}, prev);
      JoinSound(t, {a} + {prev}, prev, a);
      assert {a} + {prev} - {a} == {prev};
      PushSound(Join(t, prev), {prev}, prev);
      assert {prev} - {prev} == {};
    } else {
      PushSound(m, {a}, a);
      assert {a} - {a} == {};
    }
  }

  lemma SettleKeeps(m: Heap, a: nat)
    requires Sound(m, {a}) && 0 < a < |m.lay| && m.lay[a].Free? && !m.lay[a].unmapped
    requires m.largeFree + m.lay[a].pages == FreePages(m.lay)
    ensures var t := Settle(m, a);
      && Inv(t) && |t.lay| == |m.lay| && t.heap == m.heap && t.heapSize == m.heapSize && t.limit == m.limit
      && t.mapped == m.mapped && t.largeFree == m.largeFree + m.lay[a].pages
  {
    assert |m.lists| == N_HBLK_FLS + 1;
    hide Tiles, Listed, Mapping, Total;
    AbsorbNextSound(m, a);
    var t := AbsorbNext(m, a);
    assert |t.lists| == N_HBLK_FLS + 1;
    AbsorbPrevSound(t.(largeFree := t.largeFree + m.lay[a].pages), a, EndingAt(m.lay, a));
  }

  /** Freeing a block: its pages become free, and the heap stays in order. */
  lemma FreeBlockKeeps(m: Heap, a: nat)
    requires Inv(m) && 0 < a < |m.lay| && m.lay[a].Used?
    ensures var t := FreeBlock(m, a);
      && Inv(t) && |t.lay| == |m.lay| && t.heap == m.heap && t.heapSize == m.heapSize && t.limit == m.limit
      && t.mapped == m.mapped && t.largeFree == m.largeFree + Pages(m.lay[a])
  {
    ReleaseSound(m, {}, a);
    var c := Free(Pages(m.lay[a]), false);
    assert {} + {a} == {a};
    SettleKeeps(Convert(m, a, c), a);
  }

  lemma GrowShapes(lay: seq<Cell>, t: seq<Cell>, heap: set<nat>, a: nat, n: nat)
    requires Shapes(lay) && Filled(lay, heap) && 2 <= a && 0 < n && a + n < |lay|
    requires forall x :: a <= x < a + n ==> x !in heap
    requires t == lay[a := Free(n, false)]
    ensures Shapes(t)
  {
    forall c | 0 <= c < |t| && Head(t[c]) ensures BlockAt(t, c) {
      if c == a {
        forall x | a < x < a + n ensures t[x] == Nil { assert x !in heap; }
      } else {
        assert BlockAt(lay, c);
        forall x | c < x < c + Pages(t[c]) ensures t[x] == Body(t[c], x - c) {
          assert Covers(lay, c, x);
        }
      }
    }
  }

  lemma GrowFilled(lay: seq<Cell>, t: seq<Cell>, heap: set<nat>, heap': set<nat>, a: nat, n: nat)
    requires Shapes(lay) && Filled(lay, heap) && 2 <= a && 0 < n && a + n < |lay|
    requires forall x :: a <= x < a + n ==> x !in heap
    requires t == lay[a := Free(n, false)] && forall x :: x in heap' <==> x in heap || a <= x < a + n
    ensures Filled(t, heap')
  {
    forall x | x in heap' ensures exists c: nat :: Covers(t, c, x) {
      if x in heap {
        var c: nat :| Covers(lay, c, x);
        assert Covers(lay, c, c) && c in heap;
        assert Covers(t, c, x);
      } else { assert Covers(t, a, x); }
    }
    forall c: nat, x: nat | Covers(t, c, x) ensures x in heap' {
      if c != a { assert Covers(lay, c, x); }
    }
  }

  lemma GrowSound(m: Heap, t: Heap, a: nat, n: nat)
    requires Inv(m) && 2 <= a && 0 < n && a + n < |m.lay|
    requires forall x :: a <= x < a + n ==> x !in m.heap
    requires t == m.(lay := m.lay[a := Free(n, false)], heap := m.heap + Range(a, n), mapped := m.mapped + Range(a, n),
                     heapSize := m.heapSize + n)
    ensures Sound(t, {a}) && FreePages(t.lay) == FreePages(m.lay) + n
  {
    hide Inv, Sound, Shapes, Filled, Listed, Mapping, FreePages, UsedPages, Range;
    InvParts(m);
    NewPage(m.lay, m.heap, a);
    GrowShapes(m.lay, t.lay, m.heap, a, n);
    GrowFilled(m.lay, t.lay, m.heap, t.heap, a, n);
    GrowMapping(m, t, a, n);
    GrowListed(m, t, a, n);
    GrowTotals(m.lay, a, n);
    GrowSize(m.heap, a, n);
    PartsSound(t, {a});
  }

  lemma InvParts(m: Heap)
    requires Inv(m)
    ensures Shapes(m.lay) && Filled(m.lay, m.heap) && Listed(m.lay, m.lists, {}) && Mapping(m.lay, m.mapped)
    ensures m.heapSize == |m.heap| == FreePages(m.lay) + UsedPages(m.lay) && m.largeFree == FreePages(m.lay)
  {}

  lemma PartsSound(m: Heap, off: set<nat>)
    requires Shapes(m.lay) && Filled(m.lay, m.heap) && Listed(m.lay, m.lists, off) && Mapping(m.lay, m.mapped)
    requires m.heapSize == |m.heap| == FreePages(m.lay) + UsedPages(m.lay)
    ensures Sound(m, off)
  {}

  lemma NewPage(lay: seq<Cell>, heap: set<nat>, a: nat)
    requires Filled(lay, heap) && a < |lay| && a !in heap
    ensures lay[a] == Nil
  {}

  lemma GrowTotals(lay: seq<Cell>, a: nat, n: nat)
    requires a < |lay| && lay[a] == Nil
    ensures FreePages(lay[a := Free(n, false)]) == FreePages(lay) + n
    ensures UsedPages(lay[a := Free(n, false)]) == UsedPages(lay)
  {
    TotalPoint(lay, lay[a := Free(n, false)], true, a);
    TotalPoint(lay, lay[a := Free(n, false)], false, a);
  }

  lemma GrowSize(heap: set<nat>, a: nat, n: nat)
    requires forall x :: a <= x < a + n ==> x !in heap
    ensures |heap + Range(a, n)| == |heap| + n
  {
    assert heap !! Range(a, n);
  }

  lemma GrowMapping(m: Heap, t: Heap, a: nat, n: nat)
    requires Tiles(m.lay, m.heap) && Mapping(m.lay, m.mapped) && a + n < |m.lay|
    requires forall x :: a <= x < a + n ==> x !in m.heap
    requires t.lay == m.lay[a := Free(n, false)] && t.mapped == m.mapped + Range(a, n)
    ensures Mapping(t.lay, t.mapped)
  {
    forall c: nat, x: nat | Covers(t.lay, c, x) ensures x in t.mapped <==> !(t.lay[c].Free? && t.lay[c].unmapped) {
      if c != a { assert Covers(m.lay, c, x); assert x in m.heap; }
    }
  }

  lemma GrowListed(m: Heap, t: Heap, a: nat, n: nat)
    requires Listed(m.lay, m.lists, {}) && a < |m.lay| && m.lay[a] == Nil
    requires t.lay == m.lay[a := Free(n, false)] && t.lists == m.lists
    ensures Listed(t.lay, t.lists, {a})
  {
    forall j: nat, x: nat | j < |t.lists| && x in t.lists[j]
      ensures x < |t.lay| && t.lay[x].Free? && Bin(t.lay[x].pages) == j && x !in {a}
    {
      ListedAt(m.lay, m.lists, {}, j, x);
    }
  }

  lemma InvFacts(m: Heap)
    requires Inv(m)
    ensures |m.lists| == N_HBLK_FLS + 1 && m.largeFree == FreePages(m.lay) && Sound(m, {})
  {}

  lemma AddSectionIs(m: Heap, g: Heap, a: nat, n: nat)
    requires |m.lists| == N_HBLK_FLS + 1 && 2 <= a < |m.lay|
    requires g == m.(lay := m.lay[a := Free(n, false)], heap := m.heap + Range(a, n), mapped := m.mapped + Range(a, n),
                     heapSize := m.heapSize + n)
    ensures AddSection(m, a, n) == Settle(g, a)
  {
    hide Settle, Range;
  }

  /** Growing the heap by a section that was no part of it. */
  lemma AddSectionKeeps(m: Heap, t: Heap, a: nat, n: nat)
    requires Inv(m) && 2 <= a && 0 < n && a + n < |m.lay|
    requires forall x :: a <= x < a + n ==> x !in m.heap
    requires t == AddSection(m, a, n)
    ensures Inv(t) && |t.lay| == |m.lay| && t.limit == m.limit
    ensures t.heap == m.heap + Range(a, n) && t.heapSize == m.heapSize + n && t.largeFree == m.largeFree + n
  {
    hide *;
    var g := m.(lay := m.lay[a := Free(n, false)], heap := m.heap + Range(a, n), mapped := m.mapped + Range(a, n),
                heapSize := m.heapSize + n);
    InvFacts(m);
    AddSectionIs(m, g, a, n);
    GrowSound(m, g, a, n);
    SettleKeeps(g, a);
  }

  // ------------------------------------------------------------------------- coalescing

  /** A block that ends at page a is what the search for it finds. */
  lemma EndingFound(lay: seq<Cell>, x: nat, a: nat)
    requires Shapes(lay) && x < a < |lay| && Head(lay[x]) && x + Pages(lay[x]) == a
    ensures EndingAt(lay, a) == x
  {
    assert BlockAt(lay, x);
    assert forall y :: x < y < a ==> lay[y] == Body(lay[x], y - x);
  }

  lemma TwoWeights(lay: seq<Cell>, a: nat, b: nat)
    requires a < b < |lay|
    ensures Weight(lay[a], false) + Weight(lay[b], false) <= FreePages(lay)
  {
    TotalConcat(lay, false, 0, a + 1, |lay|);
    TotalConcat(lay, false, a + 1, b + 1, |lay|);
  }

  /** Two free blocks are adjacent only if a is the second of them. */
  predicate CoalescedBut(lay: seq<Cell>, a: nat) {
    forall x :: 0 <= x < |lay| && lay[x].Free? && x + lay[x].pages < |lay| && lay[x + lay[x].pages].Free? ==> x + lay[x].pages == a
  }

  /** ... or the first. */
  predicate CoalescedAround(lay: seq<Cell>, a: nat) {
    forall x :: 0 <= x < |lay| && lay[x].Free? && x + lay[x].pages < |lay| && lay[x + lay[x].pages].Free? ==>
      x == a || x + lay[x].pages == a
  }

  lemma NextMerges(m: Heap, a: nat)
    requires Sound(m, {a}) && a < |m.lay| && m.lay[a].Free? && m.heapSize < m.limit && AllMapped(m.lay)
    ensures a < a + m.lay[a].pages < |m.lay|
    ensures m.lay[a + m.lay[a].pages].Free? ==> MergesNext(m, a, m.lay[a].pages)
  {
    assert BlockAt(m.lay, a);
    var b := a + m.lay[a].pages;
    if m.lay[b].Free? { TwoWeights(m.lay, a, b); }
  }

  lemma AbsorbNextCoalesces(m: Heap, a: nat)
    requires Sound(m, {a}) && a < |m.lay| && m.lay[a].Free? && m.heapSize < m.limit
    requires AllMapped(m.lay) && CoalescedAround(m.lay, a)
    ensures var t := AbsorbNext(m, a); AllMapped(t.lay) && CoalescedBut(t.lay, a)
  {
    hide Sound;
    SoundFacts(m, {a});
    NextMerges(m, a);
    var t := AbsorbNext(m, a);
    var b := a + m.lay[a].pages;
    if m.lay[b].Free? {
      assert t.lay == m.lay[b := Nil][a := Free(m.lay[a].pages + m.lay[b].pages, false)];
    }
  }

  lemma AbsorbPrevCoalesces(m: Heap, a: nat, prev: nat)
    requires Sound(m, {a}) && 0 < a < |m.lay| && m.lay[a].Free? && m.heapSize < m.limit
    requires AllMapped(m.lay) && CoalescedBut(m.lay, a) && prev == EndingAt(m.lay, a)
    ensures var t := AbsorbPrev(m, a, prev); AllMapped(t.lay) && Coalesced(t.lay)
  {
    var t := AbsorbPrev(m, a, prev);
    assert BlockAt(m.lay, a);
    forall x | 0 <= x < |m.lay| && m.lay[x].Free? && x + m.lay[x].pages == a ensures x == prev && MergesPrev(m, a, prev) {
      assert BlockAt(m.lay, x);
      EndingFound(m.lay, x, a);
      TwoWeights(m.lay, x, a);
    }
    if MergesPrev(m, a, prev) {
      assert BlockAt(m.lay, prev);
      assert t.lay == m.lay[a := Nil][prev := Free(m.lay[prev].pages + m.lay[a].pages, false)];
    }
  }

  lemma {:induction false} PrevHeadSame(lay: seq<Cell>, t: seq<Cell>, a: nat)
    requires a < |lay| && a < |t|
    requires forall x :: 0 <= x <= a ==> Head(lay[x]) == Head(t[x])
    ensures PrevHead(lay, a) == PrevHead(t, a)
  {
    if a > 0 { PrevHeadSame(lay, t, a - 1); }
  }

  /** The search for the predecessor is not affected by the merge with the successor. */
  lemma EndingSame(m: Heap, a: nat)
    requires 0 < a < |m.lay| && m.lay[a].Free? && |m.lists| == N_HBLK_FLS + 1 && 0 < m.lay[a].pages
    ensures var t := AbsorbNext(m, a); |t.lay| == |m.lay| && EndingAt(t.lay, a) == EndingAt(m.lay, a)
  {
    var t := AbsorbNext(m, a);
    assert forall x :: 0 <= x < a ==> t.lay[x] == m.lay[x];
    PrevHeadSame(m.lay, t.lay, a - 1);
  }

  lemma SettleIs(m: Heap, u: Heap, a: nat)
    requires Sound(m, {a}) && 0 < a < |m.lay| && m.lay[a].Free? && |m.lists| == N_HBLK_FLS + 1
    requires u == AbsorbNext(m, a).(largeFree := AbsorbNext(m, a).largeFree + m.lay[a].pages)
    requires |u.lists| == N_HBLK_FLS + 1 && |u.lay| == |m.lay| && u.lay[a].Free?
    ensures Settle(m, a) == AbsorbPrev(u, a, EndingAt(m.lay, a))
  {
    hide AbsorbNext, AbsorbPrev, Sound, EndingAt;
  }

  lemma SoundFacts(m: Heap, off: set<nat>)
    requires Sound(m, off)
    ensures |m.lists| == N_HBLK_FLS + 1
    ensures forall a :: 0 <= a < |m.lay| && m.lay[a].Free? ==> m.lay[a].pages > 0 && a + m.lay[a].pages < |m.lay|
    ensures forall x: int :: Sound(m.(largeFree := x), off)
  {
    assert forall a :: 0 <= a < |m.lay| && Head(m.lay[a]) ==> BlockAt(m.lay, a);
  }

  lemma SettleCoalesces(m: Heap, d: Heap, a: nat)
    requires Sound(m, {a}) && 0 < a < |m.lay| && m.lay[a].Free? && m.heapSize < m.limit && d == Settle(m, a)
    requires !m.lay[a].unmapped && AllMapped(m.lay) && CoalescedAround(m.lay, a)
    ensures AllMapped(d.lay) && Coalesced(d.lay)
  {
    hide *;
    SoundFacts(m, {a});
    var t := AbsorbNext(m, a);
    var u := t.(largeFree := t.largeFree + m.lay[a].pages);
    EndingSame(m, a);
    AbsorbNextCoalesces(m, a);
    AbsorbNextSound(m, a);
    SoundFacts(t, {a});
    SettleIs(m, u, a);
    AbsorbPrevCoalesces(u, a, EndingAt(m.lay, a));
  }

  /** Without unmapping, and while sizes fit a signed word, freeing leaves no two free blocks adjacent. */
  lemma FreeBlockCoalesces(m: Heap, a: nat)
    requires Inv(m) && 0 < a < |m.lay| && m.lay[a].Used? && m.heapSize < m.limit
    requires AllMapped(m.lay) && Coalesced(m.lay)
    ensures var t := FreeBlock(m, a); AllMapped(t.lay) && Coalesced(t.lay)
  {
    var c := Free(Pages(m.lay[a]), false);
    var t := Convert(m, a, c);
    ReleaseSound(m, {}, a);
    assert {} + {a} == {a};
    assert BlockAt(m.lay, a);
    ReleaseFree(m.lay, a, c);
    var d := FreeBlock(m, a);
    assert |t.lay| == |m.lay| && t.lay[a] == c && |t.lists| == |m.lists| && d == Settle(t, a);
    hide *;
    SettleCoalesces(t, d, a);
  }

  /** Releasing a block adds just its first page to the starts of free blocks. */
  lemma ReleaseFree(lay: seq<Cell>, a: nat, c: Cell)
    requires Shapes(lay) && a < |lay| && lay[a].Used? && c == Free(Pages(lay[a]), false)
    requires AllMapped(lay) && Coalesced(lay)
    ensures AllMapped(PutBlock(lay, a, c)) && CoalescedAround(PutBlock(lay, a, c), a)
  {
    var t := PutBlock(lay, a, c);
    assert BlockAt(lay, a);
    forall x | 0 <= x < |lay| && x != a ensures t[x].Free? == lay[x].Free? && (lay[x].Free? ==> t[x] == lay[x]) {}
  }

  lemma GrowFree(m: Heap, a: nat, n: nat)
    requires Inv(m) && 0 < n && a + n < |m.lay| && AllMapped(m.lay) && Coalesced(m.lay)
    requires forall x :: a <= x < a + n ==> x !in m.heap
    ensures AllMapped(m.lay[a := Free(n, false)]) && CoalescedAround(m.lay[a := Free(n, false)], a)
  {
    assert a !in m.heap && m.lay[a] == Nil;
  }

  lemma AddSectionCoalesces(m: Heap, t: Heap, a: nat, n: nat)
    requires Inv(m) && 2 <= a && 0 < n && a + n < |m.lay| && m.heapSize + n < m.limit && t == AddSection(m, a, n)
    requires forall x :: a <= x < a + n ==> x !in m.heap
    requires AllMapped(m.lay) && Coalesced(m.lay)
    ensures AllMapped(t.lay) && Coalesced(t.lay)
  {
    hide *;
    var g := m.(lay := m.lay[a := Free(n, false)], heap := m.heap + Range(a, n), mapped := m.mapped + Range(a, n),
                heapSize := m.heapSize + n);
    InvFacts(m);
    GrowFree(m, a, n);
    AddSectionIs(m, g, a, n);
    GrowSound(m, g, a, n);
    SettleCoalesces(g, t, a);
  }

  // ------------------------------------------------------------------------- blocks in use

  /** The same pages belong to blocks in use, and say the same. */
  predicate SameUsed(lay: seq<Cell>, t: seq<Cell>) {
    && |t| == |lay|
    && forall x :: 0 <= x < |lay| && (lay[x].Used? || lay[x].Fwd? || t[x].Used? || t[x].Fwd?) ==> t[x] == lay[x]
  }

  /** Coalescing changes nothing but free blocks. */
  lemma SettleUsed(m: Heap, t: Heap, a: nat)
    requires 0 < a < |m.lay| && m.lay[a].Free? && |m.lists| == N_HBLK_FLS + 1 && t == Settle(m, a)
    ensures SameUsed(m.lay, t.lay)
  {
    hide Without, Bin, EndingAt, SameUsed;
    var u := AbsorbNext(m, a);
    AbsorbNextUsed(m, a);
    AbsorbPrevUsed(u.(largeFree := u.largeFree + m.lay[a].pages), a, EndingAt(m.lay, a));
    SameUsedTrans(m.lay, u.lay, t.lay);
  }

  lemma AbsorbNextUsed(m: Heap, a: nat)
    requires a < |m.lay| && m.lay[a].Free? && |m.lists| == N_HBLK_FLS + 1
    ensures SameUsed(m.lay, AbsorbNext(m, a).lay) && AbsorbNext(m, a).lay[a].Free?
  {
    hide Without, Bin;
  }

  lemma AbsorbPrevUsed(m: Heap, a: nat, prev: nat)
    requires a < |m.lay| && m.lay[a].Free? && |m.lists| == N_HBLK_FLS + 1
    ensures SameUsed(m.lay, AbsorbPrev(m, a, prev).lay)
  {
    hide Without, Bin;
  }

  lemma SameUsedTrans(lay: seq<Cell>, u: seq<Cell>, t: seq<Cell>)
    requires SameUsed(lay, u) && SameUsed(u, t)
    ensures SameUsed(lay, t)
  {}

  ghost predicate IsFree(lay: seq<Cell>, x: nat) { exists f: nat :: Covers(lay, f, x) && lay[f].Free? }

  /** Just the pages of the block at a have become free. */
  ghost predicate OnlyFreed(lay: seq<Cell>, t: seq<Cell>, a: nat) {
    && |t| == |lay|
    && forall x :: 0 <= x < |lay| ==>
      if Covers(lay, a, x) then IsFree(t, x) else lay[x].Used? || lay[x].Fwd? || t[x].Used? || t[x].Fwd? ==> t[x] == lay[x]
  }

  /** Freeing a block frees just the pages of that block: they belong to free blocks afterwards, and all other blocks
      in use stay as they are. */
  lemma FreeBlockFrees(m: Heap, a: nat)
    requires Inv(m) && 0 < a < |m.lay| && m.lay[a].Used?
    ensures OnlyFreed(m.lay, FreeBlock(m, a).lay, a)
  {
    hide Settle, Inv, IsFree, PutBlock, OnlyFreed, SameUsed;
    InvFacts(m);
    NotEmpty(m, a);
    FreeBlockKeeps(m, a);
    var d, t := Convert(m, a, Free(Pages(m.lay[a]), false)), FreeBlock(m, a);
    assert d.lay[a] == Free(Pages(m.lay[a]), false) by { ConvertAt(m.lay, a, Free(Pages(m.lay[a]), false)); }
    SettleUsed(d, t, a);
    forall x | Covers(m.lay, a, x) ensures IsFree(t.lay, x) { FreeNow(m, d, t, a, x); }
    OutsideSame(m.lay, d.lay, t.lay, a);
  }

  /** The block that page a now belongs to is the first one on its list. */
  ghost predicate FirstOnList(t: Heap, b: nat, a: nat) {
    && |t.lists| == N_HBLK_FLS + 1 && b < |t.lay| && t.lay[b].Free? && b <= a < b + t.lay[b].pages
    && t.lists[Bin(t.lay[b].pages)] != [] && t.lists[Bin(t.lay[b].pages)][0] == b
  }

  lemma PushFirst(m: Heap, b: nat, a: nat)
    requires |m.lists| == N_HBLK_FLS + 1 && b < |m.lay| && m.lay[b].Free? && b <= a < b + m.lay[b].pages
    ensures FirstOnList(Push(m, b), b, a)
  {}

  lemma AbsorbPrevFirst(m: Heap, a: nat, prev: nat) returns (b: nat)
    requires a < |m.lay| && m.lay[a].Free? && 0 < m.lay[a].pages && |m.lists| == N_HBLK_FLS + 1
    ensures FirstOnList(AbsorbPrev(m, a, prev), b, a)
  {
    hide Push, Bin, Without, FirstOnList;
    b := if MergesPrev(m, a, prev) then prev else a;
    if MergesPrev(m, a, prev) { PushFirst(Join(Take(m, prev, Bin(m.lay[prev].pages)), prev), prev, a); }
    else { PushFirst(m, a, a); }
  }

  /** A freed block, with what it has been coalesced with, is the next one of its size to be looked at. */
  lemma FreedComesFirst(m: Heap, a: nat) returns (b: nat)
    requires Inv(m) && 0 < a < |m.lay| && m.lay[a].Used?
    ensures FirstOnList(FreeBlock(m, a), b, a)
  {
    hide Inv, PutBlock, AbsorbPrev, Join, Bin, Without, EndingAt, FirstOnList;
    InvFacts(m);
    NotEmpty(m, a);
    var c := Free(Pages(m.lay[a]), false);
    ConvertAt(m.lay, a, c);
    var d := Convert(m, a, c);
    NextAbsorbed(d, a);
    var t := AbsorbNext(d, a);
    var u := t.(largeFree := t.largeFree + d.lay[a].pages);
    b := AbsorbPrevFirst(u, a, EndingAt(d.lay, a));
  }

  lemma NextAbsorbed(m: Heap, a: nat)
    requires a < |m.lay| && m.lay[a].Free? && 0 < m.lay[a].pages && |m.lists| == N_HBLK_FLS + 1
    ensures var t := AbsorbNext(m, a); |t.lay| == |m.lay| && |t.lists| == |m.lists| && t.lay[a].Free? && 0 < t.lay[a].pages
  {
    hide Bin, Without;
  }

  lemma NotEmpty(m: Heap, a: nat)
    requires Inv(m) && a < |m.lay| && m.lay[a].Used?
    ensures 1 <= Pages(m.lay[a])
  {
    assert BlockAt(m.lay, a);
  }

  lemma ConvertAt(lay: seq<Cell>, a: nat, c: Cell)
    requires a < |lay| && Head(c)
    ensures |PutBlock(lay, a, c)| == |lay| && PutBlock(lay, a, c)[a] == c
  {}

  lemma OutsideSame(lay: seq<Cell>, d: seq<Cell>, t: seq<Cell>, a: nat)
    requires a < |lay| && lay[a].Used? && 1 <= Pages(lay[a])
    requires d == PutBlock(lay, a, Free(Pages(lay[a]), false)) && SameUsed(d, t)
    requires forall x :: Covers(lay, a, x) ==> IsFree(t, x)
    ensures OnlyFreed(lay, t, a)
  {
    hide IsFree;
    var c := Free(Pages(lay[a]), false);
    assert Pages(c) == Pages(lay[a]);
    forall x: nat | x < |lay| && !Covers(lay, a, x) ensures d[x] == lay[x] {
      assert !(a <= x < a + Pages(c));
    }
  }

  /** Whatever is in use after a free block has been put down lies outside of it, and is as it was. */
  lemma UsedOutside(lay: seq<Cell>, a: nat, c: Cell, f: nat)
    requires a < |lay| && c.Free? && f < |lay| && PutBlock(lay, a, c)[f].Used?
    ensures PutBlock(lay, a, c)[f] == lay[f]
  {
    if a < f < a + Pages(c) { BodyOfFree(c, f - a); }
  }

  lemma FreeNow(m: Heap, d: Heap, t: Heap, a: nat, x: nat)
    requires Inv(m) && Inv(t) && t.heap == m.heap && SameUsed(d.lay, t.lay)
    requires a < |m.lay| && m.lay[a].Used? && Covers(m.lay, a, x) && d == Convert(m, a, Free(Pages(m.lay[a]), false))
    ensures IsFree(t.lay, x)
  {
    assert x in m.heap;
    var f: nat :| Covers(t.lay, f, x);
    assert BlockAt(t.lay, f) && BlockAt(m.lay, a);
    if t.lay[f].Used? {
      assert t.lay[f] == d.lay[f];
      UsedOutside(m.lay, a, Free(Pages(m.lay[a]), false), f);
      Disjoint(m.lay, a, f, x);
    }
  }

  lemma AddSectionUsed(m: Heap, t: Heap, a: nat, n: nat)
    requires Inv(m) && 2 <= a && 0 < n && a + n < |m.lay| && |m.lists| == N_HBLK_FLS + 1 && t == AddSection(m, a, n)
    requires forall x :: a <= x < a + n ==> x !in m.heap
    ensures SameUsed(m.lay, t.lay)
  {
    hide *;
    NilThere(m, a, n);
    var g := m.(lay := m.lay[a := Free(n, false)], heap := m.heap + Range(a, n), mapped := m.mapped + Range(a, n),
                heapSize := m.heapSize + n);
    AddSectionIs(m, g, a, n);
    SettleUsed(g, t, a);
    OneMoreFree(m.lay, t.lay, a, n);
  }

  lemma NilThere(m: Heap, a: nat, n: nat)
    requires Inv(m) && 0 < n && a + n < |m.lay| && forall x :: a <= x < a + n ==> x !in m.heap
    ensures m.lay[a] == Nil
  {
    assert a !in m.heap;
  }

  lemma OneMoreFree(lay: seq<Cell>, t: seq<Cell>, a: nat, n: nat)
    requires a < |lay| && lay[a] == Nil && SameUsed(lay[a := Free(n, false)], t)
    ensures SameUsed(lay, t)
  {}
}
