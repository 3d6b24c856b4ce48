/** GC_allochblk over all the free lists, and what its callers can rely on. */
module HeapAllochblk {
  import opened HeapModel
  import opened HeapProofs
  import opened HeapOps
  import opened HeapTheorems
  import opened HeapAlloc
  import opened BlackListModel

  // ------------------------------------------------------------- the lists, one by one

  /** Pages on a free list: GC_free_bytes. */
  function ListPages(lay: seq<Cell>, l: seq<nat>): nat {
    if l == [] then 0
    else (if l[0] < |lay| && lay[l[0]].Free? then lay[l[0]].pages else 0) + ListPages(lay, l[1..])
  }

  /** What GC_allochblk takes into account when it decides how far to split blocks. */
  datatype Policy = Policy(useAll: bool, finalizing: bool, largeAllocd: int, maxLargeAllocd: int)

  /** The loop of GC_enough_large_bytes_left, from list n downward. */
  function EnoughFrom(m: Heap, pages: int, max: int, n: nat): (r: nat)
    requires n < |m.lists|
    ensures r <= n
    decreases n
  {
    var sum := pages + ListPages(m.lay, m.lists[n]);
    if sum >= max || n == 0 then n else EnoughFrom(m, sum, max, n - 1)
  }

  function EnoughLarge(m: Heap, pol: Policy): nat
    requires |m.lists| == N_HBLK_FLS + 1
  {
    EnoughFrom(m, pol.largeAllocd, pol.maxLargeAllocd, N_HBLK_FLS)
  }

  /** The last list whose blocks may be split. */
  function SplitLimit(m: Heap, pol: Policy): (r: nat)
    requires |m.lists| == N_HBLK_FLS + 1
    ensures r <= N_HBLK_FLS
  {
    if pol.useAll then N_HBLK_FLS else if pol.finalizing then 0 else EnoughLarge(m, pol)
  }

  function SplitMode(m: Heap, pol: Policy): MaySplit
    requires |m.lists| == N_HBLK_FLS + 1
  {
    if !pol.useAll && !pol.finalizing && EnoughLarge(m, pol) > 0 then AvoidRemapped else Yes
  }

  ghost function AllocNth(m: Heap, env: Env, q: Request, i: nat, split: MaySplit, met: nat): Outcome
    requires Inv(m) && Wf(env.b) && Need(q) > 0 && i <= N_HBLK_FLS
  {
    InvFacts(m);
    AllocFrom(m, env, q, i, m.lists[i], split, met)
  }

  /** What one search leaves: the heap is in order, used blocks are untouched, blocks that came into use were
      free before, and if a block was found it is as asked for. */
  ghost predicate Searched(m: Heap, t: Heap, q: Request, r: nat) {
    && Inv(t) && |t.lay| == |m.lay| && t.heap == m.heap && t.heapSize == m.heapSize && t.limit == m.limit
    && (forall x :: 0 <= x < |m.lay| && m.lay[x].Used? ==> t.lay[x] == m.lay[x])
    && (forall x :: 0 <= x < |m.lay| && t.lay[x].Used? ==> t.lay[x] == m.lay[x] || x == r != 0 || t.lay[x] == Used(HBLKSIZE, 0, false))
    && (r != 0 ==> r < |m.lay| && t.lay[r] == NewBlock(q) && InFreeBlock(m.lay, r, Need(q)))
    && t.largeFree <= m.largeFree - (if r != 0 then Need(q) else 0)
  }

  /** The n pages from r on are part of one free block. */
  ghost predicate InFreeBlock(lay: seq<Cell>, r: nat, n: nat) {
    exists f: nat :: f < |lay| && lay[f].Free? && f <= r && r + n <= f + lay[f].pages
  }

  lemma FreeBody(m: Heap, f: nat)
    requires Inv(m) && f < |m.lay| && m.lay[f].Free?
    ensures 2 <= f && forall x :: f < x < f + m.lay[f].pages && x < |m.lay| ==> m.lay[x] == Nil
  {
    assert BlockAt(m.lay, f);
  }

  lemma SearchedTrans(m: Heap, d: Heap, t: Heap, q: Request, r: nat)
    requires Searched(m, d, q, 0) && Searched(d, t, q, r)
    requires forall x :: 0 <= x < |m.lay| && d.lay[x].Free? ==> m.lay[x] == d.lay[x]
    ensures Searched(m, t, q, r)
  {
    hide Inv;
    if r != 0 {
      var f: nat :| f < |d.lay| && d.lay[f].Free? && f <= r && r + Need(q) <= f + d.lay[f].pages;
      assert m.lay[f] == d.lay[f];
    }
  }

  lemma CarvedUsed(lay: seq<Cell>, t: seq<Cell>, f: nat, r: nat, c: Cell)
    requires f < |lay| == |t| && lay[f].Free? && c.Used? && 0 < Pages(c) && f <= r && r + Pages(c) <= f + lay[f].pages < |lay|
    requires forall x :: f < x < f + lay[f].pages ==> lay[x] == Nil
    requires forall x :: 0 <= x < |t| ==> t[x] == CarvedCell(f, lay[f].pages, r, c, lay[x], x)
    ensures t[r] == c && forall x :: 0 <= x < |lay| && lay[x].Used? ==> t[x] == lay[x]
    ensures forall x :: 0 <= x < |lay| && t[x].Used? ==> t[x] == lay[x] || x == r
  {}

  lemma CarveSearched(m: Heap, t: Heap, f: nat, i: nat, r: nat, q: Request)
    requires Inv(m) && Room(m, f, r, Need(q)) && i == Bin(m.lay[f].pages) && t == Carve(m, f, i, r, q) && 0 < r
    ensures Searched(m, t, q, r)
  {
    hide Inv, Carve, CarvedCell;
    FreeBody(m, f);
    CarveKeeps(m, t, f, i, r, q);
    CarvedUsed(m.lay, t.lay, f, r, NewBlock(q));
  }

  lemma DropSearched(m: Heap, t: Heap, f: nat, i: nat, q: Request)
    requires Inv(m) && f < |m.lay| && m.lay[f].Free? && !m.lay[f].unmapped && i == Bin(m.lay[f].pages)
    requires 0 < m.lay[f].pages && f + m.lay[f].pages < |m.lay| && |m.lists| == N_HBLK_FLS + 1 && t == Drop(m, f, i)
    ensures Searched(m, t, q, 0) && forall x :: 0 <= x < |m.lay| && t.lay[x].Free? ==> m.lay[x] == t.lay[x]
  {
    hide Inv, Drop;
    FreeBody(m, f);
    DropKeeps(m, t, f, i);
  }

  lemma {:induction false} AllocFromKeeps(m: Heap, env: Env, q: Request, i: nat, es: seq<nat>, split: MaySplit, met: nat, o: Outcome)
    requires Inv(m) && Wf(env.b) && Need(q) > 0 && i < |m.lists| == N_HBLK_FLS + 1 && Rest(m.lists[i], es)
    requires o == AllocFrom(m, env, q, i, es, split, met)
    ensures Searched(m, o.m, q, o.r) && |o.m.lists| == N_HBLK_FLS + 1
    ensures o.r == 0 ==> forall x :: 0 <= x < |m.lay| && o.m.lay[x].Free? ==> m.lay[x] == o.m.lay[x]
    decreases |es|
  {
    hide Inv, Judge, Carve, Drop, Searched, Rest;
    InvFacts(m);
    if es != [] {
      var f := es[0];
      RestFirst(m, i, es);
      JudgeRoom(m, env, q, f, es[1..], split);
      FreeBody(m, f);
      var v := Judge(m, env, q, f, es[1..], split);
      match v
      case TakeAt(r) =>
        CarveSearched(m, o.m, f, i, r, q);
        SearchedInv(m, o.m, q, r);
      case Skip => AllocFromKeeps(m, env, q, i, es[1..], split, met, o);
      case Dropping =>
        if (met + 1) % 4 != 0 { AllocFromKeeps(m, env, q, i, es[1..], split, met + 1, o); }
        else {
          var d := Drop(m, f, i);
          DropKeeps(m, d, f, i);
          DropSearched(m, d, f, i, q);
          AllocFromKeeps(d, env, q, i, es[1..], split, met + 1, o);
          SearchedTrans(m, d, o.m, q, o.r);
        }
    } else { SearchedSelf(m, q); }
  }

  lemma SearchedInv(m: Heap, t: Heap, q: Request, r: nat)
    requires Searched(m, t, q, r)
    ensures Inv(t) && |t.lists| == N_HBLK_FLS + 1 && |t.lay| == |m.lay|
  {}

  lemma SearchedSelf(m: Heap, q: Request)
    requires Inv(m)
    ensures Searched(m, m, q, 0)
  {}

  // ----------------------------------------------------------------------- GC_allochblk

  /** The lists from i up to `last` are searched in turn. */
  ghost function TryLists(m: Heap, env: Env, q: Request, i: nat, last: nat, split: MaySplit, met: nat): Outcome
    requires Inv(m) && Wf(env.b) && Need(q) > 0 && last <= N_HBLK_FLS
    decreases last + 1 - i
  {
    if i > last then Outcome(m, 0, met)
    else
      var o := AllocNth(m, env, q, i, split, met);
      InvFacts(m);
      AllocFromKeeps(m, env, q, i, m.lists[i], split, met, o);
      if o.r != 0 then o else TryLists(o.m, env, q, i + 1, last, split, o.met)
  }

  /** After the exact list has been tried without splitting, only lists with other sizes are of interest. */
  function NextList(start: nat): nat { if start < UNIQUE_THRESHOLD then start + 1 else start }

  ghost function Allochblk(m: Heap, env: Env, q: Request, pol: Policy, met: nat): Outcome
    requires Inv(m) && Wf(env.b) && Need(q) > 0
  {
    if Need(q) >= m.limit then Outcome(m, 0, met)
    else
      var start := Bin(Need(q));
      var o := AllocNth(m, env, q, start, No, met);
      InvFacts(m);
      AllocFromKeeps(m, env, q, start, m.lists[start], No, met, o);
      if o.r != 0 then o
      else TryLists(o.m, env, q, NextList(start), SplitLimit(o.m, pol), SplitMode(o.m, pol), o.met)
  }

  lemma {:induction false} TryListsKeeps(m: Heap, env: Env, q: Request, i: nat, last: nat, split: MaySplit, met: nat, o: Outcome)
    requires Inv(m) && Wf(env.b) && Need(q) > 0 && last <= N_HBLK_FLS && o == TryLists(m, env, q, i, last, split, met)
    ensures Searched(m, o.m, q, o.r)
    decreases last + 1 - i
  {
    hide Inv, Searched, AllocFrom;
    if i > last { SearchedSelf(m, q); }
    else {
      var u := AllocNth(m, env, q, i, split, met);
      InvFacts(m);
      AllocFromKeeps(m, env, q, i, m.lists[i], split, met, u);
      if u.r == 0 {
        SearchedInv(m, u.m, q, 0);
        TryListsKeeps(u.m, env, q, i + 1, last, split, u.met, o);
        SearchedTrans(m, u.m, o.m, q, o.r);
      }
    }
  }

  /** Allocation keeps the heap in order, touches no block in use, and hands out pages that were free. */
  lemma AllochblkKeeps(m: Heap, env: Env, q: Request, pol: Policy, met: nat, o: Outcome)
    requires Inv(m) && Wf(env.b) && Need(q) > 0 && o == Allochblk(m, env, q, pol, met)
    ensures Searched(m, o.m, q, o.r)
  {
    hide Inv, Searched, TryLists, AllocFrom, SplitLimit, SplitMode;
    if Need(q) >= m.limit { SearchedSelf(m, q); }
    else {
      var start := Bin(Need(q));
      var u := AllocNth(m, env, q, start, No, met);
      InvFacts(m);
      AllocFromKeeps(m, env, q, start, m.lists[start], No, met, u);
      if u.r == 0 {
        SearchedInv(m, u.m, q, 0);
        TryListsKeeps(u.m, env, q, NextList(start), SplitLimit(u.m, pol), SplitMode(u.m, pol), u.met, o);
        SearchedTrans(m, u.m, o.m, q, o.r);
      }
    }
  }

  lemma RestFree(m: Heap, i: nat, es: seq<nat>)
    requires Inv(m) && i < |m.lists| && Rest(m.lists[i], es)
    ensures forall x :: x in es ==> x < |m.lay| && m.lay[x].Free?
  {
    forall x | x in es ensures x < |m.lay| && m.lay[x].Free? {
      assert x in m.lists[i];
      ListedAt(m.lay, m.lists, {}, i, x);
    }
  }

  lemma AllOnLists(m: Heap)
    requires Inv(m)
    ensures |m.lists| == N_HBLK_FLS + 1
    ensures forall x :: 0 <= x < |m.lay| && m.lay[x].Free? ==> x in m.lists[Bin(m.lay[x].pages)]
  {
    forall x | 0 <= x < |m.lay| && m.lay[x].Free? ensures x in m.lists[Bin(m.lay[x].pages)] {
      assert IsListed(m.lay, m.lists, x);
    }
  }
}
