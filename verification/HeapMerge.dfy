/** Unmapping old free blocks and merging free blocks that unmapping has kept apart. */
module HeapMerge {
  import opened HeapModel
  import opened HeapProofs
  import opened HeapOps
  import opened HeapTheorems
  import opened HeapAlloc

  // ---------------------------------------------------------------------------- merging

  /** A free block whose successor is free too, and both together are not too large. */
  predicate Mergeable(m: Heap, a: nat) {
    && a < |m.lay| && m.lay[a].Free? && a + m.lay[a].pages < |m.lay| && m.lay[a + m.lay[a].pages].Free?
    && Fits(m, m.lay[a].pages, m.lay[a + m.lay[a].pages].pages)
  }

  /** Before two blocks are merged the smaller one is mapped or unmapped like the other. */
  function Agree(m: Heap, a: nat): Heap
    requires Mergeable(m, a)
  {
    var b := a + m.lay[a].pages;
    var p, q, u, v := m.lay[a].pages, m.lay[b].pages, m.lay[a].unmapped, m.lay[b].unmapped;
    if !u && v then (if p > q then Remap(m, b) else Unmap(m, a))
    else if u && !v then (if p > q then Unmap(m, b) else Remap(m, a))
    else m
  }

  /** One merge in GC_merge_unmapped, of block a and the next one. */
  function MergeStep(m: Heap, a: nat): Heap
    requires Mergeable(m, a) && 0 < m.lay[a].pages && |m.lists| == N_HBLK_FLS + 1
  {
    var b := a + m.lay[a].pages;
    var m1 := Agree(m, a);
    var m2 := Take(Take(m1, a, Bin(m.lay[a].pages)), b, Bin(m.lay[b].pages));
    Push(Join(m2, a), a)
  }

  /** What two blocks look like once they agree. */
  lemma AgreeSound(m: Heap, t: Heap, a: nat, b: nat)
    requires Mergeable(m, a) && b == a + m.lay[a].pages && t == Agree(m, a) && Inv(m)
    ensures Sound(t, {}) && FreePages(t.lay) == FreePages(m.lay) && t.lists == m.lists && |t.lists| == N_HBLK_FLS + 1
    ensures a < b && t == m.(lay := t.lay, mapped := t.mapped)
    ensures |t.lay| == |m.lay| && t.lay[a].Free? && t.lay[b] == Free(m.lay[b].pages, t.lay[a].unmapped)
    ensures t.lay[a].pages == m.lay[a].pages && t.lay == m.lay[a := t.lay[a]][b := t.lay[b]]
  {
    hide Inv, Sound, FreePages;
    InvFacts(m);
    SoundFacts(m, {});
    if !m.lay[a].unmapped && m.lay[b].unmapped {
      RemapIs(m, b);
      if m.lay[a].pages > m.lay[b].pages { RemapSound(m, {}, b); } else { UnmapSound(m, {}, a); }
    } else if m.lay[a].unmapped && !m.lay[b].unmapped {
      RemapIs(m, a);
      if m.lay[a].pages > m.lay[b].pages { UnmapSound(m, {}, b); } else { RemapSound(m, {}, a); }
    }
  }

  lemma MergeStepIs(m: Heap, m1: Heap, m2: Heap, m3: Heap, a: nat, b: nat)
    requires Mergeable(m, a) && 0 < m.lay[a].pages && |m.lists| == N_HBLK_FLS + 1 && b == a + m.lay[a].pages
    requires m1 == Agree(m, a) && |m1.lists| == N_HBLK_FLS + 1
    requires m2 == Take(Take(m1, a, Bin(m.lay[a].pages)), b, Bin(m.lay[b].pages))
    requires a < |m2.lay| && m2.lay[a].Free? && a + m2.lay[a].pages < |m2.lay| && m2.lay[a + m2.lay[a].pages].Free?
    requires m3 == Join(m2, a)
    ensures MergeStep(m, a) == Push(m3, a)
  {
    hide Agree, Take, Join, Push, Mergeable;
  }

  /** Two adjacent free blocks have become one. */
  predicate JoinedAt(lay: seq<Cell>, t: seq<Cell>, a: nat, b: nat) {
    && a < b < |lay| && lay[a].Free? && lay[b].Free? && |t| == |lay|
    && t[a] == Free(lay[a].pages + lay[b].pages, t[a].Free? && t[a].unmapped)
    && t == lay[b := Nil][a := t[a]]
  }

  lemma MergeStepSound(m1: Heap, m3: Heap, a: nat, b: nat)
    requires a < b < |m1.lay| && m1.lay[a].Free? && m1.lay[b].Free? && b == a + m1.lay[a].pages
    requires m1.lay[a].unmapped == m1.lay[b].unmapped && |m1.lists| == N_HBLK_FLS + 1
    requires m3 == Join(Take(Take(m1, a, Bin(m1.lay[a].pages)), b, Bin(m1.lay[b].pages)), a)
    requires Sound(m1, {})
    ensures Sound(Push(m3, a), {}) && FreePages(m3.lay) == FreePages(m1.lay)
  {
    hide Sound, FreePages;
    var u := Take(m1, a, Bin(m1.lay[a].pages));
    var m2 := Take(u, b, Bin(m1.lay[b].pages));
    TakeSound(m1, {}, a);
    assert {} + {a} == {a};
    TakeSound(u, {a}, b);
    JoinSound(m2, {a} + {b}, a, b);
    assert {a} + {b} - {b} == {a};
    PushSound(m3, {a}, a);
    assert {a} - {a} == {};
  }

  lemma MergeStepKeeps(m: Heap, t: Heap, a: nat, b: nat)
    requires Mergeable(m, a) && 0 < m.lay[a].pages && |m.lists| == N_HBLK_FLS + 1
    requires b == a + m.lay[a].pages && t == MergeStep(m, a) && Inv(m)
    ensures Inv(t) && t == m.(lay := t.lay, mapped := t.mapped, lists := t.lists) && JoinedAt(m.lay, t.lay, a, b)
  {
    hide Inv, Sound, Agree, MergeStep, FreePages;
    var m1 := Agree(m, a);
    AgreeSound(m, m1, a, b);
    var m2 := Take(Take(m1, a, Bin(m.lay[a].pages)), b, Bin(m.lay[b].pages));
    var m3 := Join(m2, a);
    MergeStepSound(m1, m3, a, b);
    MergeStepIs(m, m1, m2, m3, a, b);
    InvFacts(m);
    InvFrom(t);
  }

  /** The merged block is mapped or unmapped as the larger of the two was, or the second one if they are equally large; no
      page of that block or outside is mapped or unmapped for it. */
  lemma MergedLikeLarger(m: Heap, t: Heap, a: nat, b: nat)
    requires Mergeable(m, a) && 0 < m.lay[a].pages && |m.lists| == N_HBLK_FLS + 1
    requires b == a + m.lay[a].pages && t == MergeStep(m, a)
    ensures var p, q := m.lay[a].pages, m.lay[b].pages;
      && |t.lay| == |m.lay| && t.lay[a] == Free(p + q, if p > q then m.lay[a].unmapped else m.lay[b].unmapped)
      && forall x :: !(if p > q then b <= x < b + q else a <= x < b) ==> (x in t.mapped <==> x in m.mapped)
  {
    hide Bin, Without;
  }

  lemma InvFrom(m: Heap)
    requires Sound(m, {}) && m.largeFree == FreePages(m.lay)
    ensures Inv(m)
  {}

  function FreeSet(lay: seq<Cell>): set<nat> {
    set a: nat | a < |lay| && lay[a].Free?
  }

  lemma JoinedFewer(lay: seq<Cell>, t: seq<Cell>, a: nat, b: nat)
    requires JoinedAt(lay, t, a, b)
    ensures FreeSet(t) < FreeSet(lay)
  {
    assert b in FreeSet(lay) && b !in FreeSet(t);
  }

  /** The first block on the list that can be merged with its successor. */
  function FirstMergeable(m: Heap, l: seq<nat>): (k: nat)
    ensures k <= |l| && (k < |l| ==> Mergeable(m, l[k])) && forall j :: 0 <= j < k ==> !Mergeable(m, l[j])
  {
    if l == [] || Mergeable(m, l[0]) then 0 else 1 + FirstMergeable(m, l[1..])
  }

  lemma MergeFacts(m: Heap, a: nat)
    requires Inv(m) && Mergeable(m, a)
    ensures 0 < m.lay[a].pages && |m.lists| == N_HBLK_FLS + 1
  {
    InvFacts(m);
    SoundFacts(m, {});
  }

  lemma MergeNext(m: Heap, d: Heap, a: nat, b: nat)
    requires Mergeable(m, a) && 0 < m.lay[a].pages && |m.lists| == N_HBLK_FLS + 1
    requires b == a + m.lay[a].pages && d == MergeStep(m, a) && Inv(m)
    ensures Inv(d) && |d.lists| == N_HBLK_FLS + 1 && FreeSet(d.lay) < FreeSet(m.lay)
    ensures JoinedAt(m.lay, d.lay, a, b) && d == m.(lay := d.lay, mapped := d.mapped, lists := d.lists)
  {
    hide Inv, MergeStep, FreeSet;
    MergeStepKeeps(m, d, a, b);
    InvFacts(d);
    JoinedFewer(m.lay, d.lay, a, b);
  }

  /** GC_merge_unmapped on list i: after each merge it starts again at the head of the list.  That this function
      is defined shows that the loop ends: every merge leaves fewer free blocks. */
  ghost function MergeList(m: Heap, i: nat): Heap
    requires Inv(m) && i < |m.lists|
    decreases FreeSet(m.lay)
  {
    hide Inv, MergeStep, FreeSet, JoinedAt;
    var k := FirstMergeable(m, m.lists[i]);
    if k == |m.lists[i]| then m
    else
      var a := m.lists[i][k];
      MergeFacts(m, a);
      var d := MergeStep(m, a);
      MergeNext(m, d, a, a + m.lay[a].pages);
      MergeList(d, i)
  }

  /** No block of a size that belongs on a list below i can be merged with its successor. */
  predicate Quiet(m: Heap, i: nat) {
    forall a :: 0 <= a < |m.lay| && m.lay[a].Free? && Bin(m.lay[a].pages) < i ==> !Mergeable(m, a)
  }

  lemma QuietStep(m: Heap, t: Heap, i: nat, a: nat, b: nat)
    requires Quiet(m, i) && JoinedAt(m.lay, t.lay, a, b) && b == a + m.lay[a].pages && t.limit == m.limit
    requires Bin(m.lay[a].pages) == i
    ensures Quiet(t, i)
  {
    forall x | 0 <= x < |t.lay| && t.lay[x].Free? && Bin(t.lay[x].pages) < i ensures !Mergeable(t, x) {
      if x == a {
        BinMonotone(m.lay[a].pages, t.lay[a].pages);
        assert false;
      }
      assert t.lay[x] == m.lay[x] && !Mergeable(m, x);
    }
  }

  /** Merging changes nothing but which free blocks there are. */
  predicate OnlyMerged(m: Heap, t: Heap) {
    && |t.lay| == |m.lay| && t.heap == m.heap && t.heapSize == m.heapSize && t.largeFree == m.largeFree && t.limit == m.limit
    && forall x :: 0 <= x < |m.lay| ==> (t.lay[x].Used? || m.lay[x].Used? || m.lay[x].Fwd? || t.lay[x].Fwd? ==> t.lay[x] == m.lay[x])
  }

  lemma JoinedOnly(m: Heap, d: Heap, a: nat, b: nat)
    requires JoinedAt(m.lay, d.lay, a, b) && d == m.(lay := d.lay, mapped := d.mapped, lists := d.lists)
    ensures OnlyMerged(m, d)
  {}

  lemma {:induction false} MergeListKeeps(m: Heap, t: Heap, i: nat)
    requires Inv(m) && i < |m.lists| && t == MergeList(m, i) && Quiet(m, i)
    ensures Inv(t) && |t.lists| == N_HBLK_FLS + 1 && OnlyMerged(m, t) && Quiet(t, i + 1)
    decreases FreeSet(m.lay)
  {
    hide Inv, MergeStep, FreeSet, JoinedAt, Quiet, Mergeable;
    InvFacts(m);
    var k := FirstMergeable(m, m.lists[i]);
    if k == |m.lists[i]| { QuietNext(m, i); }
    else {
      var a := m.lists[i][k];
      var d := MergeStep(m, a);
      MergeFacts(m, a);
      var b := a + m.lay[a].pages;
      MergeNext(m, d, a, b);
      OnItsList(m, i, k);
      QuietStep(m, d, i, a, b);
      JoinedOnly(m, d, a, b);
      MergeListKeeps(d, t, i);
    }
  }

  lemma OnItsList(m: Heap, i: nat, k: nat)
    requires Inv(m) && i < |m.lists| && k < |m.lists[i]|
    ensures m.lists[i][k] < |m.lay| && m.lay[m.lists[i][k]].Free? && Bin(m.lay[m.lists[i][k]].pages) == i
  {
    ListedAt(m.lay, m.lists, {}, i, m.lists[i][k]);
  }

  lemma QuietNext(m: Heap, i: nat)
    requires Inv(m) && i < |m.lists| && Quiet(m, i) && forall k :: 0 <= k < |m.lists[i]| ==> !Mergeable(m, m.lists[i][k])
    ensures Quiet(m, i + 1)
  {
    forall a | 0 <= a < |m.lay| && m.lay[a].Free? && Bin(m.lay[a].pages) < i + 1 ensures !Mergeable(m, a) {
      assert IsListed(m.lay, m.lists, a);
    }
  }

  /** GC_merge_unmapped, from list i on. */
  ghost function MergeFrom(m: Heap, i: nat): Heap
    requires Inv(m) && Quiet(m, i)
    decreases N_HBLK_FLS + 1 - i
  {
    if i > N_HBLK_FLS then m
    else
      InvFacts(m);
      MergeListKeeps(m, MergeList(m, i), i);
      MergeFrom(MergeList(m, i), i + 1)
  }

  lemma {:induction false} MergeFromKeeps(m: Heap, t: Heap, i: nat)
    requires Inv(m) && Quiet(m, i) && t == MergeFrom(m, i)
    ensures Inv(t) && OnlyMerged(m, t) && Quiet(t, N_HBLK_FLS + 1)
    decreases N_HBLK_FLS + 1 - i
  {
    hide Inv, MergeList;
    if i <= N_HBLK_FLS {
      InvFacts(m);
      MergeListKeeps(m, MergeList(m, i), i);
      MergeFromKeeps(MergeList(m, i), t, i + 1);
    }
  }

  ghost function MergeUnmapped(m: Heap): Heap
    requires Inv(m)
  {
    MergeFrom(m, 0)
  }

  /** GC_merge_unmapped ends, keeps the heap in order (so the mapped flag of every block stays true of the whole
      block), and leaves no free block followed by one it could be merged with; while sizes fit a signed word
      that means no free block followed by a free block. */
  lemma MergeUnmappedMerges(m: Heap, t: Heap)
    requires Inv(m) && t == MergeUnmapped(m)
    ensures Inv(t) && OnlyMerged(m, t)
    ensures forall a :: 0 <= a < |t.lay| ==> !Mergeable(t, a)
    ensures t.heapSize < t.limit ==> Coalesced(t.lay)
  {
    MergeFromKeeps(m, t, 0);
    forall a | 0 <= a < |t.lay| ensures !Mergeable(t, a) && (t.heapSize < t.limit && t.lay[a].Free? && a + t.lay[a].pages < |t.lay| ==> !t.lay[a + t.lay[a].pages].Free?) {
      QuietAt(t, a);
    }
  }

  lemma UsedCounted(m: Heap)
    requires Inv(m)
    ensures FreePages(m.lay) <= m.heapSize
  {}

  lemma QuietAt(t: Heap, a: nat)
    requires Inv(t) && Quiet(t, N_HBLK_FLS + 1) && a < |t.lay|
    ensures !Mergeable(t, a)
    ensures t.heapSize < t.limit && t.lay[a].Free? && a + t.lay[a].pages < |t.lay| ==> !t.lay[a + t.lay[a].pages].Free?
  {
    hide Sound, Bin, Total;
    if t.lay[a].Free? {
      InvFacts(t);
      SoundFacts(t, {});
      UsedCounted(t);
      var b := a + t.lay[a].pages;
      if t.lay[b].Free? { TwoWeights(t.lay, a, b); }
    }
  }

  // -------------------------------------------------------------------------- unmapping

  /** A block that is old enough is unmapped. */
  function UnmapOne(m: Heap, a: nat, isOld: nat -> bool): (t: Heap)
    ensures t.lists == m.lists && |t.lay| == |m.lay|
  {
    if a < |m.lay| && m.lay[a].Free? && !m.lay[a].unmapped && isOld(a) then Unmap(m, a) else m
  }

  function UnmapList(m: Heap, es: seq<nat>, isOld: nat -> bool): (t: Heap)
    ensures t.lists == m.lists && |t.lay| == |m.lay|
    decreases |es|
  {
    if es == [] then m else UnmapList(UnmapOne(m, es[0], isOld), es[1..], isOld)
  }

  /** GC_unmap_old, from list i on. */
  function UnmapFrom(m: Heap, i: nat, isOld: nat -> bool): Heap
    decreases |m.lists| - i
  {
    if i >= |m.lists| then m else UnmapFrom(UnmapList(m, m.lists[i], isOld), i + 1, isOld)
  }

  /** Some old free blocks, all those in `es` among them, have been unmapped; nothing else has changed. */
  predicate Unmapped(m: Heap, t: Heap, es: set<nat>, isOld: nat -> bool) {
    && |t.lay| == |m.lay| && t.lists == m.lists && t.heap == m.heap && t.heapSize == m.heapSize
    && t.largeFree == m.largeFree && t.limit == m.limit
    && (forall a :: 0 <= a < |m.lay| && !m.lay[a].Free? ==> t.lay[a] == m.lay[a])
    && (forall a :: 0 <= a < |m.lay| && m.lay[a].Free? ==>
          t.lay[a] == m.lay[a] || (isOld(a) && t.lay[a] == Free(m.lay[a].pages, true)))
    && (forall a :: a in es ==> a < |m.lay| && m.lay[a].Free? && isOld(a) ==> t.lay[a] == Free(m.lay[a].pages, true))
  }

  function Elems(l: seq<nat>): set<nat> { set x: nat | x in l }

  function ElemsFrom(lists: seq<seq<nat>>, i: nat): set<nat> {
    set j: nat, x: nat | i <= j < |lists| && x in lists[j] :: x
  }

  lemma UnmapOneKeeps(m: Heap, t: Heap, a: nat, isOld: nat -> bool)
    requires Inv(m) && t == UnmapOne(m, a, isOld)
    ensures Inv(t) && Unmapped(m, t, {a}, isOld)
  {
    hide Sound, FreePages;
    if a < |m.lay| && m.lay[a].Free? && !m.lay[a].unmapped && isOld(a) { UnmapSound(m, {}, a); }
  }

  lemma {:induction false} UnmapListKeeps(m: Heap, t: Heap, es: seq<nat>, isOld: nat -> bool)
    requires Inv(m) && t == UnmapList(m, es, isOld)
    ensures Inv(t) && Unmapped(m, t, Elems(es), isOld)
    decreases |es|
  {
    hide Inv, UnmapOne;
    if es != [] {
      var d := UnmapOne(m, es[0], isOld);
      UnmapOneKeeps(m, d, es[0], isOld);
      UnmapListKeeps(d, t, es[1..], isOld);
      forall a | a in es ensures a == es[0] || a in es[1..] {}
    }
  }

  lemma {:induction false} UnmapFromKeeps(m: Heap, t: Heap, i: nat, isOld: nat -> bool)
    requires Inv(m) && t == UnmapFrom(m, i, isOld)
    ensures Inv(t) && Unmapped(m, t, ElemsFrom(m.lists, i), isOld)
    decreases |m.lists| - i
  {
    hide Inv, UnmapList;
    if i < |m.lists| {
      var d := UnmapList(m, m.lists[i], isOld);
      UnmapListKeeps(m, d, m.lists[i], isOld);
      UnmapFromKeeps(d, t, i + 1, isOld);
      forall j, a | i <= j < |m.lists| && a in m.lists[j] && a < |m.lay| && m.lay[a].Free? && isOld(a)
        ensures t.lay[a] == Free(m.lay[a].pages, true)
      {
        if j == i { assert a in Elems(m.lists[i]); } else { assert a in ElemsFrom(d.lists, i + 1); }
      }
    }
  }

  function UnmapOld(m: Heap, isOld: nat -> bool): Heap { UnmapFrom(m, 0, isOld) }

  /** GC_unmap_old keeps the heap in order and unmaps exactly the old free blocks. */
  lemma UnmapOldUnmaps(m: Heap, t: Heap, isOld: nat -> bool)
    requires Inv(m) && t == UnmapOld(m, isOld)
    ensures Inv(t) && |t.lay| == |m.lay| && t.heap == m.heap && t.heapSize == m.heapSize && t.limit == m.limit
    ensures forall a :: 0 <= a < |m.lay| ==>
              t.lay[a] == if m.lay[a].Free? && isOld(a) then Free(m.lay[a].pages, true) else m.lay[a]
  {
    hide Sound;
    UnmapFromKeeps(m, t, 0, isOld);
    InvShapes(m);
    forall a | 0 <= a < |m.lay| && m.lay[a].Free? && isOld(a) ensures t.lay[a] == Free(m.lay[a].pages, true) {
      assert IsListed(m.lay, m.lists, a);
      assert a in ElemsFrom(m.lists, 0);
    }
  }
}
