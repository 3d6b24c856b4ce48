/** Runs of the allocator: any sequence of freeing, growing, allocating, unmapping and merging. */
module HeapRuns {
  import opened HeapModel
  import opened HeapProofs
  import opened HeapOps
  import opened HeapTheorems
  import opened HeapAlloc
  import opened HeapAllochblk
  import opened HeapBlack
  import opened HeapMerge
  import opened BlackListModel

  // ------------------------------------------------------------ coalescing and allocation

  lemma CarvedCoalesced(lay: seq<Cell>, t: seq<Cell>, f: nat, r: nat, c: Cell)
    requires Shapes(lay) && f < |lay| == |t| && lay[f].Free? && c.Used? && 0 < Pages(c)
    requires f <= r && r + Pages(c) <= f + lay[f].pages < |lay|
    requires forall x :: 0 <= x < |t| ==> t[x] == CarvedCell(f, lay[f].pages, r, c, lay[x], x)
    requires Coalesced(lay) && AllMapped(lay)
    ensures Coalesced(t) && AllMapped(t)
  {
    assert BlockAt(lay, f);
    forall x | 0 <= x < |t| && t[x].Free? && x + t[x].pages < |t| ensures !t[x + t[x].pages].Free? {
      var y := x + t[x].pages;
      if x == f < r || x == r + Pages(c) < f + lay[f].pages {
      } else {
        assert t[x] == lay[x] && x != f;
        Apart(lay, x, f);
      }
    }
  }

  lemma CarveCoalesces(m: Heap, t: Heap, f: nat, i: nat, r: nat, q: Request)
    requires Inv(m) && Room(m, f, r, Need(q)) && i == Bin(m.lay[f].pages) && t == Carve(m, f, i, r, q)
    requires Coalesced(m.lay) && AllMapped(m.lay)
    ensures Coalesced(t.lay) && AllMapped(t.lay)
  {
    hide Inv, Carve, CarvedCell, Coalesced, AllMapped;
    CarveKeeps(m, t, f, i, r, q);
    InvShapes(m);
    CarvedCoalesced(m.lay, t.lay, f, r, NewBlock(q));
  }

  lemma DropCoalesces(m: Heap, t: Heap, f: nat, i: nat)
    requires Inv(m) && f < |m.lay| && m.lay[f].Free? && !m.lay[f].unmapped && i == Bin(m.lay[f].pages)
    requires 0 < m.lay[f].pages && f + m.lay[f].pages < |m.lay| && |m.lists| == N_HBLK_FLS + 1 && t == Drop(m, f, i)
    requires Coalesced(m.lay) && AllMapped(m.lay)
    ensures Coalesced(t.lay) && AllMapped(t.lay)
  {
    hide Inv, Drop;
    DropKeeps(m, t, f, i);
    FreeBody(m, f);
  }

  lemma {:induction false} AllocFromCoalesces(m: Heap, env: Env, q: Request, i: nat, es: seq<nat>, split: MaySplit, met: nat, o: Outcome)
    requires Inv(m) && Wf(env.b) && Need(q) > 0 && i < |m.lists| == N_HBLK_FLS + 1 && Rest(m.lists[i], es)
    requires o == AllocFrom(m, env, q, i, es, split, met) && Coalesced(m.lay) && AllMapped(m.lay)
    ensures Coalesced(o.m.lay) && AllMapped(o.m.lay)
    decreases |es|
  {
    hide Inv, Judge, Carve, Drop, Rest, Coalesced, AllMapped;
    if es != [] {
      var f := es[0];
      RestFirst(m, i, es);
      JudgeRoom(m, env, q, f, es[1..], split);
      var v := Judge(m, env, q, f, es[1..], split);
      match v
      case TakeAt(r) => CarveCoalesces(m, o.m, f, i, r, q);
      case Skip => AllocFromCoalesces(m, env, q, i, es[1..], split, met, o);
      case Dropping =>
        if (met + 1) % 4 != 0 { AllocFromCoalesces(m, env, q, i, es[1..], split, met + 1, o); }
        else {
          var d := Drop(m, f, i);
          DropKeeps(m, d, f, i);
          DropCoalesces(m, d, f, i);
          AllocFromCoalesces(d, env, q, i, es[1..], split, met + 1, o);
        }
    }
  }

  lemma {:induction false} TryListsCoalesces(m: Heap, env: Env, q: Request, i: nat, last: nat, split: MaySplit, met: nat, o: Outcome)
    requires Inv(m) && Wf(env.b) && Need(q) > 0 && last <= N_HBLK_FLS && o == TryLists(m, env, q, i, last, split, met)
    requires Coalesced(m.lay) && AllMapped(m.lay)
    ensures Coalesced(o.m.lay) && AllMapped(o.m.lay)
    decreases last + 1 - i
  {
    hide Inv, Searched, AllocFrom, Coalesced, AllMapped;
    if i <= last {
      var u := AllocNth(m, env, q, i, split, met);
      InvFacts(m);
      AllocFromKeeps(m, env, q, i, m.lists[i], split, met, u);
      AllocFromCoalesces(m, env, q, i, m.lists[i], split, met, u);
      if u.r == 0 {
        SearchedInv(m, u.m, q, 0);
        TryListsCoalesces(u.m, env, q, i + 1, last, split, u.met, o);
      }
    }
  }

  lemma AllochblkCoalesces(m: Heap, env: Env, q: Request, pol: Policy, met: nat, o: Outcome)
    requires Inv(m) && Wf(env.b) && Need(q) > 0 && o == Allochblk(m, env, q, pol, met)
    requires Coalesced(m.lay) && AllMapped(m.lay)
    ensures Coalesced(o.m.lay) && AllMapped(o.m.lay)
  {
    hide Inv, Searched, AllocFrom, TryLists, Coalesced, AllMapped, SplitLimit, SplitMode;
    if Need(q) < m.limit {
      var start := Bin(Need(q));
      var u := AllocNth(m, env, q, start, No, met);
      InvFacts(m);
      AllocFromKeeps(m, env, q, start, m.lists[start], No, met, u);
      AllocFromCoalesces(m, env, q, start, m.lists[start], No, met, u);
      if u.r == 0 {
        SearchedInv(m, u.m, q, 0);
        TryListsCoalesces(u.m, env, q, NextList(start), SplitLimit(u.m, pol), SplitMode(u.m, pol), u.met, o);
      }
    }
  }

  lemma NothingToMerge(m: Heap)
    requires Coalesced(m.lay)
    ensures forall a :: 0 <= a < |m.lay| ==> !Mergeable(m, a)
  {}

  lemma {:induction false} MergeFromIdle(m: Heap, i: nat)
    requires Inv(m) && Quiet(m, i) && forall a :: 0 <= a < |m.lay| ==> !Mergeable(m, a)
    ensures MergeFrom(m, i) == m
    decreases N_HBLK_FLS + 1 - i
  {
    hide Inv, Mergeable, Quiet;
    if i <= N_HBLK_FLS {
      InvFacts(m);
      var k := FirstMergeable(m, m.lists[i]);
      if k < |m.lists[i]| { OnItsList(m, i, k); assert false; }
      MergeListKeeps(m, m, i);
      MergeFromIdle(m, i + 1);
    }
  }

  // -------------------------------------------------------------------------------- runs

  datatype Op =
    | Freeing(a: nat)
    | Growing(start: nat, n: nat)
    | Allocating(env: Env, q: Request, pol: Policy, met: nat)
    | Unmapping(isOld: nat -> bool)
    | Merging

  /** What an operation demands of its caller: only blocks in use are freed, new memory is really new. */
  predicate Allowed(m: Heap, op: Op) {
    match op
    case Freeing(a) => 0 < a < |m.lay| && m.lay[a].Used?
    case Growing(a, n) => 0 < n && a + n <= |m.lay| && forall x :: a <= x < a + n ==> x !in m.heap
    case Allocating(env, q, _, _) => Wf(env.b) && Need(q) > 0
    case Unmapping(_) => true
    case Merging => true
  }

  ghost function Perform(m: Heap, op: Op): Heap
    requires Inv(m) && Allowed(m, op)
  {
    InvFacts(m);
    match op
    case Freeing(a) => FreeBlock(m, a)
    case Growing(a, n) => AddToHeap(m, a, n)
    case Allocating(env, q, pol, met) => Allochblk(m, env, q, pol, met).m
    case Unmapping(isOld) => UnmapOld(m, isOld)
    case Merging => MergeUnmapped(m)
  }

  lemma AddToHeapKeeps(m: Heap, t: Heap, a: nat, n: nat)
    requires Inv(m) && Allowed(m, Growing(a, n)) && |m.lists| == N_HBLK_FLS + 1 && t == AddToHeap(m, a, n)
    ensures Inv(t) && |t.lay| == |m.lay| && t.limit == m.limit && m.heapSize <= t.heapSize
    ensures t.heapSize - m.heapSize == t.largeFree - m.largeFree
    ensures forall x :: x in t.heap <==> x in m.heap || (a <= x < a + n && 2 <= x < |m.lay| - 1)
    ensures t.heapSize < t.limit && AllMapped(m.lay) && Coalesced(m.lay) ==> AllMapped(t.lay) && Coalesced(t.lay)
  {
    hide Inv, AddSection, AllMapped, Coalesced;
    var lo := if a < 2 then 2 else a;
    var hi := if a + n == |m.lay| then a + n - 1 else a + n;
    if lo < hi && lo < |m.lay| {
      AddSectionKeeps(m, t, lo, hi - lo);
      if t.heapSize < t.limit && AllMapped(m.lay) && Coalesced(m.lay) { AddSectionCoalesces(m, t, lo, hi - lo); }
    }
  }

  /** Every operation keeps the heap in order: blocks tile the heap sections, each free block is on the one list
      its size selects, the counters are right.  The heap never shrinks. */
  lemma PerformKeeps(m: Heap, op: Op, t: Heap)
    requires Inv(m) && Allowed(m, op) && t == Perform(m, op)
    ensures Inv(t) && m.heapSize <= t.heapSize && t.limit == m.limit
  {
    hide Sound;
    InvFacts(m);
    match op
    case Freeing(a) => FreeBlockKeeps(m, a);
    case Growing(a, n) => AddToHeapKeeps(m, t, a, n);
    case Allocating(env, q, pol, met) => AllochblkKeeps(m, env, q, pol, met, Allochblk(m, env, q, pol, met));
    case Unmapping(isOld) => UnmapOldUnmaps(m, t, isOld);
    case Merging => MergeUnmappedMerges(m, t);
  }

  lemma PerformCoalesces(m: Heap, op: Op, t: Heap)
    requires Inv(m) && Allowed(m, op) && t == Perform(m, op) && !op.Unmapping? && t.heapSize < t.limit
    requires AllMapped(m.lay) && Coalesced(m.lay)
    ensures AllMapped(t.lay) && Coalesced(t.lay)
  {
    hide Sound, AllMapped, Coalesced;
    InvFacts(m);
    PerformKeeps(m, op, t);
    match op
    case Freeing(a) => FreeBlockCoalesces(m, a);
    case Growing(a, n) => AddToHeapKeeps(m, t, a, n);
    case Allocating(env, q, pol, met) => AllochblkCoalesces(m, env, q, pol, met, Allochblk(m, env, q, pol, met));
    case Merging =>
      NothingToMerge(m);
      MergeFromIdle(m, 0);
  }

  lemma OtherBlock(lay: seq<Cell>, a: nat, x: nat)
    requires Shapes(lay) && a < |lay| && x < |lay| && lay[a].Used? && lay[x].Used? && a != x
    ensures !Covers(lay, a, x)
  {
    assert BlockAt(lay, a) && BlockAt(lay, x);
    Disjoint(lay, a, x, x);
  }

  lemma OthersStay(m: Heap, a: nat, x: nat)
    requires Inv(m) && 0 < a < |m.lay| && x < |m.lay| && m.lay[a].Used? && m.lay[x].Used? && a != x
    ensures |FreeBlock(m, a).lay| == |m.lay| && FreeBlock(m, a).lay[x] == m.lay[x]
  {
    hide FreeBlock, IsFree;
    InvFacts(m);
    assert Shapes(m.lay);
    OtherBlock(m.lay, a, x);
    FreeBlockFrees(m, a);
  }

  lemma SectionStays(m: Heap, a: nat, n: nat, x: nat)
    requires Inv(m) && Allowed(m, Growing(a, n)) && |m.lists| == N_HBLK_FLS + 1 && x < |m.lay| && m.lay[x].Used?
    ensures |AddToHeap(m, a, n).lay| == |m.lay| && AddToHeap(m, a, n).lay[x] == m.lay[x]
  {
    hide Inv, AddSection;
    var lo := if a < 2 then 2 else a;
    var hi := if a + n == |m.lay| then a + n - 1 else a + n;
    if lo < hi && lo < |m.lay| { AddSectionUsed(m, AddToHeap(m, a, n), lo, hi - lo); }
  }

  /** No operation touches a block in use, but the freeing of that very block. */
  lemma UsedBlocksStay(m: Heap, op: Op, t: Heap, x: nat)
    requires Inv(m) && Allowed(m, op) && t == Perform(m, op) && x < |m.lay| && m.lay[x].Used? && op != Freeing(x)
    ensures |t.lay| == |m.lay| && t.lay[x] == m.lay[x]
  {
    hide Inv, FreeBlock, AddToHeap, Allochblk, UnmapOld, MergeUnmapped;
    InvFacts(m);
    match op
    case Freeing(a) => OthersStay(m, a, x);
    case Growing(a, n) => SectionStays(m, a, n, x);
    case Allocating(env, q, pol, met) => AllochblkKeeps(m, env, q, pol, met, Allochblk(m, env, q, pol, met));
    case Unmapping(isOld) => UnmapOldUnmaps(m, t, isOld);
    case Merging => MergeUnmappedMerges(m, t);
  }

  /** Before GC_init no page belongs to the heap. */
  predicate Empty(m: Heap) {
    && (forall x :: 0 <= x < |m.lay| ==> m.lay[x] == Nil)
    && |m.lists| == N_HBLK_FLS + 1 && (forall i :: 0 <= i < |m.lists| ==> m.lists[i] == [])
    && m.heap == {} && m.mapped == {} && m.largeFree == 0 && m.heapSize == 0
  }

  ghost predicate IsRun(run: seq<Heap>, ops: seq<Op>) {
    && |run| == |ops| + 1 && Empty(run[0])
    && forall i :: 0 <= i < |ops| ==> Inv(run[i]) ==> Allowed(run[i], ops[i]) && run[i + 1] == Perform(run[i], ops[i])
  }

  lemma EmptyInv(m: Heap)
    requires Empty(m)
    ensures Inv(m) && AllMapped(m.lay) && Coalesced(m.lay)
  {
    NoneFree(m.lay, |m.lay|);
    NoneUsed(m.lay, |m.lay|);
  }

  lemma {:induction false} NoneUsed(lay: seq<Cell>, n: nat)
    requires n <= |lay| && forall x :: 0 <= x < |lay| ==> !lay[x].Used?
    ensures Total(lay, true, 0, n) == 0
  {
    if n > 0 { NoneUsed(lay, n - 1); }
  }

  lemma RunStep(run: seq<Heap>, ops: seq<Op>, k: nat)
    requires IsRun(run, ops) && k < |ops| && Inv(run[k])
    ensures Allowed(run[k], ops[k]) && run[k + 1] == Perform(run[k], ops[k])
  {
    hide Inv, Perform, Allowed, Empty;
  }

  lemma {:induction false} HeapRunInv(run: seq<Heap>, ops: seq<Op>, i: nat)
    requires IsRun(run, ops) && i < |run|
    ensures Inv(run[i])
  {
    hide Inv, Perform, Allowed, Empty;
    if i == 0 { EmptyInv(run[0]); }
    else {
      HeapRunInv(run, ops, i - 1);
      RunStep(run, ops, i - 1);
      PerformKeeps(run[i - 1], ops[i - 1], run[i]);
    }
  }

  /** Conservation: at any time the heap size is what is free plus what is used, in whole pages, and also the
      number of pages in heap sections; and the free lists account for all that is free. */
  lemma NothingIsLost(run: seq<Heap>, ops: seq<Op>, i: nat)
    requires IsRun(run, ops) && i < |run|
    ensures run[i].heapSize == run[i].largeFree + UsedPages(run[i].lay) == |run[i].heap|
    ensures PagesFrom(run[i].lay, run[i].lists, 0) == run[i].largeFree
  {
    HeapRunInv(run, ops, i);
    LargeFreeIsListed(run[i]);
  }

  lemma {:induction false} HeapGrows(run: seq<Heap>, ops: seq<Op>, i: nat, j: nat)
    requires IsRun(run, ops) && i <= j < |run|
    ensures run[i].heapSize <= run[j].heapSize && run[i].limit == run[j].limit
    decreases j
  {
    hide Inv, Perform, Allowed, Empty;
    if i < j {
      HeapRunInv(run, ops, j - 1);
      RunStep(run, ops, j - 1);
      PerformKeeps(run[j - 1], ops[j - 1], run[j]);
      HeapGrows(run, ops, i, j - 1);
    }
  }

  /** Without unmapping, and while the heap's size fits a signed word, no two adjacent blocks are ever both free
      after an operation. */
  lemma {:induction false} AlwaysCoalesced(run: seq<Heap>, ops: seq<Op>, i: nat)
    requires IsRun(run, ops) && i < |run| && run[i].heapSize < run[i].limit
    requires forall k :: 0 <= k < |ops| ==> !ops[k].Unmapping?
    ensures AllMapped(run[i].lay) && Coalesced(run[i].lay)
  {
    hide Inv, Perform, Allowed, Empty, AllMapped, Coalesced;
    if i == 0 { EmptyInv(run[0]); }
    else {
      HeapRunInv(run, ops, i - 1);
      HeapGrows(run, ops, i - 1, i);
      AlwaysCoalesced(run, ops, i - 1);
      RunStep(run, ops, i - 1);
      PerformCoalesces(run[i - 1], ops[i - 1], run[i]);
    }
  }
}
