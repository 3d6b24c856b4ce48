/** Allocation is complete: GC_allochblk fails only if no free block can take the object, and it gives up only such free
    blocks as have no usable page. */
module HeapComplete {
  import opened HeapModel
  import opened HeapProofs
  import opened HeapOps
  import opened HeapTheorems
  import opened HeapAlloc
  import opened HeapAllochblk
  import opened HeapBlack
  import opened BlackListModel

  // --------------------------------------------------------------- blocks that can be used

  /** Uncollectable objects, and small ones without pointers, may be put on black-listed pages. */
  predicate Untested(q: Request) { q.kind == 2 || q.kind == 3 || (q.kind == 0 && Blocks(q.sz) <= MAX_BLACK_LIST_PAGES) }

  /** Some place in the free block of p pages at f will do. */
  ghost predicate HasPlace(b: Black, q: Request, f: nat, p: nat)
    requires Wf(b)
  {
    exists x: nat :: f <= x && x + Blocks(q.sz) <= f + p && Usable(b, x, Guarded(q))
  }

  /** Object and block are so large that the black lists are ignored when no place will do. */
  predicate Punts(env: Env, q: Request, p: nat) {
    Blocks(q.sz) > env.blLimit && p - Blocks(q.sz) > env.blLimit
  }

  /** Can the object be allocated in the free block of p pages at f? */
  ghost predicate Serves(env: Env, q: Request, f: nat, p: nat)
    requires Wf(env.b)
  {
    Blocks(q.sz) <= p && (Untested(q) || HasPlace(env.b, q, f, p) || Punts(env, q, p))
  }

  /** The same under restrictions on splitting: without splitting the size must be right; and to avoid remapping, an
      unmapped block is not split in front of the object. */
  ghost predicate ServesIn(lay: seq<Cell>, env: Env, q: Request, f: nat, split: MaySplit)
    requires Wf(env.b)
  {
    && f < |lay| && lay[f].Free? && Serves(env, q, f, lay[f].pages)
    && (split.No? ==> lay[f].pages == Blocks(q.sz))
    && (split.AvoidRemapped? && lay[f].unmapped ==>
          Untested(q) || Usable(env.b, f, Guarded(q)) || !HasPlace(env.b, q, f, lay[f].pages))
  }

  /** A block that may be given up: one page is wanted, and no page of the block is usable. */
  ghost predicate Hopeless(lay: seq<Cell>, env: Env, q: Request, f: nat)
    requires Wf(env.b)
  {
    && f < |lay| && lay[f].Free? && Blocks(q.sz) == 1 && !Untested(q) && !Punts(env, q, lay[f].pages) && !lay[f].unmapped && !env.findLeak
    && forall x :: f <= x < f + lay[f].pages ==> !Usable(env.b, x, 1)
  }

  lemma UsableLess(b: Black, x: nat, n: nat, k: nat)
    requires Wf(b) && Usable(b, x, n) && k <= n
    ensures Usable(b, x, k)
  {}

  /** The verdict on one block. */
  lemma JudgeServes(m: Heap, env: Env, q: Request, f: nat, next: seq<nat>, split: MaySplit)
    requires Wf(env.b) && Need(q) > 0 && f < |m.lay| && m.lay[f].Free?
    ensures var v := Judge(m, env, q, f, next, split);
      && (v.TakeAt? ==> ServesIn(m.lay, env, q, f, split) && f <= v.r)
      && (v.TakeAt? && split.No? ==> v.r == f)
      && (v.Dropping? ==> Hopeless(m.lay, env, q, f) && !ServesIn(m.lay, env, q, f, split))
      && (v.Skip? && ServesIn(m.lay, env, q, f, split) ==> next != [] && ServesIn(m.lay, env, q, next[0], split))
  {
    hide IsBlackListed, FindStart, Usable, Blocks;
    var avail, need := m.lay[f].pages, Need(q);
    if avail >= need {
      if avail != need && !split.No? && NextBetter(m, env, avail, need, next) { BetterServes(m, env, q, avail, next, split); }
      LowestStart(env.b, f, f + avail - need, Guarded(q));
      StartServes(env, q, f, avail, FindStart(env.b, f, f + avail - need, Guarded(q)));
    }
  }

  lemma BetterServes(m: Heap, env: Env, q: Request, avail: nat, next: seq<nat>, split: MaySplit)
    requires Wf(env.b) && Need(q) > 0 && NextBetter(m, env, avail, Need(q), next) && !split.No?
    ensures ServesIn(m.lay, env, q, next[0], split)
  {
    hide IsBlackListed, Usable, Blocks;
    SearchIsExact(env.b, next[0], Need(q));
    UsableLess(env.b, next[0], Need(q), Guarded(q));
  }

  /** What the search for a usable start has found. */
  lemma StartServes(env: Env, q: Request, f: nat, p: nat, s: nat)
    requires Wf(env.b) && 0 < Need(q) <= p && f <= s
    requires (forall x :: f <= x < s ==> !Usable(env.b, x, Guarded(q))) && (s <= f + p - Need(q) ==> Usable(env.b, s, Guarded(q)))
    ensures HasPlace(env.b, q, f, p) <==> s <= f + p - Need(q)
    ensures Usable(env.b, f, Guarded(q)) && s <= f + p - Need(q) ==> s == f
  {
    hide Usable, Blocks;
  }

  // ------------------------------------------------------------------ one list after another

  /** What a search leaves of the free blocks, except for the one that is allocated: all are as they were but for hopeless
      ones, of which every fourth that is met is given up. */
  ghost predicate OnlyHopeless(m: Heap, t: Heap, env: Env, q: Request)
    requires Wf(env.b)
  {
    |t.lay| == |m.lay| && forall x :: 0 <= x < |m.lay| && m.lay[x].Free? ==> t.lay[x] == m.lay[x] || Hopeless(m.lay, env, q, x)
  }

  function FreeHeads(lay: seq<Cell>): set<nat> { set x: nat | x < |lay| && lay[x].Free? }

  lemma OnlyHopelessTrans(m: Heap, d: Heap, t: Heap, env: Env, q: Request)
    requires Wf(env.b) && OnlyHopeless(m, d, env, q) && OnlyHopeless(d, t, env, q)
    ensures OnlyHopeless(m, t, env, q)
  {
    forall x | 0 <= x < |m.lay| && m.lay[x].Free? ensures t.lay[x] == m.lay[x] || Hopeless(m.lay, env, q, x) {
      if d.lay[x] == m.lay[x] && t.lay[x] != m.lay[x] { assert Hopeless(d.lay, env, q, x); }
    }
  }

  lemma OneDropped(m: Heap, d: Heap, env: Env, q: Request, f: nat, i: nat)
    requires Inv(m) && Wf(env.b) && f < |m.lay| && Hopeless(m.lay, env, q, f) && i == Bin(m.lay[f].pages)
    requires 0 < m.lay[f].pages && f + m.lay[f].pages < |m.lay| && |m.lists| == N_HBLK_FLS + 1 && d == Drop(m, f, i)
    ensures OnlyHopeless(m, d, env, q) && FreeHeads(d.lay) == FreeHeads(m.lay) - {f} && |FreeHeads(d.lay)| == |FreeHeads(m.lay)| - 1
  {
    hide Inv, Drop, Usable, Blocks;
    FreeBody(m, f);
    DropKeeps(m, d, f, i);
    assert FreeHeads(d.lay) == FreeHeads(m.lay) - {f};
  }

  lemma Fourth(met: nat)
    ensures (met + 1) / 4 == met / 4 + if (met + 1) % 4 == 0 then 1 else 0
  {}

  /** The search of one list is complete, and what it gives up was hopeless. */
  lemma {:induction false} FromComplete(m: Heap, env: Env, q: Request, i: nat, es: seq<nat>, split: MaySplit, met: nat, o: Outcome)
    requires Inv(m) && Wf(env.b) && Need(q) > 0 && i < |m.lists| == N_HBLK_FLS + 1 && Rest(m.lists[i], es)
    requires o == AllocFrom(m, env, q, i, es, split, met)
    ensures o.r == 0 ==> forall x :: x in es ==> !ServesIn(m.lay, env, q, x, split)
    ensures o.r == 0 ==> OnlyHopeless(m, o.m, env, q) && |FreeHeads(o.m.lay)| == |FreeHeads(m.lay)| - (o.met / 4 - met / 4)
    ensures o.r != 0 ==> exists f: nat :: f <= o.r && ServesIn(m.lay, env, q, f, split) && (split.No? ==> o.r == f)
    decreases |es|
  {
    hide Inv, Judge, Carve, Drop, Rest, Room, Need, Serves, ServesIn, Hopeless, FreeHeads;
    InvFacts(m);
    if es != [] {
      var f, next := es[0], es[1..];
      RestFirst(m, i, es);
      JudgeRoom(m, env, q, f, next, split);
      JudgeServes(m, env, q, f, next, split);
      FreeBody(m, f);
      Fourth(met);
      var v := Judge(m, env, q, f, next, split);
      assert forall x :: x in es <==> x == f || x in next;
      match v
      case TakeAt(r) =>
      case Skip =>
        FromComplete(m, env, q, i, next, split, met, o);
        if next != [] { assert next[0] in next; }
      case Dropping =>
        if (met + 1) % 4 != 0 { FromComplete(m, env, q, i, next, split, met + 1, o); }
        else {
          var d := Drop(m, f, i);
          DropKeeps(m, d, f, i);
          OneDropped(m, d, env, q, f, i);
          FromComplete(d, env, q, i, next, split, met + 1, o);
          if o.r == 0 {
            OnlyHopelessTrans(m, d, o.m, env, q);
            RestFree(m, i, es);
            RestDistinct(m, i, es);
            forall x | x in next ensures !ServesIn(m.lay, env, q, x, split) { SameServes(m, d, env, q, f, x, split); }
          } else {
            var g: nat :| g <= o.r && ServesIn(d.lay, env, q, g, split) && (split.No? ==> o.r == g);
            SameServes(m, d, env, q, f, g, split);
          }
        }
    } else { NothingGivenUp(m, env, q); }
  }

  lemma NothingGivenUp(m: Heap, env: Env, q: Request)
    requires Wf(env.b)
    ensures OnlyHopeless(m, m, env, q)
  {
    hide Hopeless;
  }

  lemma RestDistinct(m: Heap, i: nat, es: seq<nat>)
    requires Inv(m) && i < |m.lists| && Rest(m.lists[i], es) && es != []
    ensures es[0] !in es[1..]
  {
    assert ListOk(m.lay, m.lists[i], i, {});
    var l := m.lists[i];
    var k := |l| - |es|;
    forall j | 0 <= j < |es[1..]| ensures es[1..][j] != es[0] { assert es[1..][j] == l[k + 1 + j] && es[0] == l[k]; }
  }

  /** Dropping one block makes no difference to another. */
  lemma SameServes(m: Heap, d: Heap, env: Env, q: Request, f: nat, x: nat, split: MaySplit)
    requires Inv(m) && Wf(env.b) && f < |m.lay| == |d.lay| && m.lay[f].Free? && (x != f || ServesIn(d.lay, env, q, x, split))
    requires forall y :: 0 <= y < |m.lay| ==> d.lay[y] == if f <= y < f + m.lay[f].pages then Used(HBLKSIZE, 0, false) else m.lay[y]
    ensures ServesIn(d.lay, env, q, x, split) <==> ServesIn(m.lay, env, q, x, split)
  {
    hide Inv, Serves, Usable, Blocks;
    FreeBody(m, f);
  }

  /** A block on another list, or of another size, is still there after a search that has failed. */
  lemma StillServes(m: Heap, t: Heap, env: Env, q: Request, x: nat, split: MaySplit)
    requires Inv(m) && Wf(env.b) && OnlyHopeless(m, t, env, q) && ServesIn(m.lay, env, q, x, split)
    ensures ServesIn(t.lay, env, q, x, split) && t.lay[x] == m.lay[x]
  {
    hide Inv, Usable, Blocks;
    if t.lay[x] != m.lay[x] { HopelessNever(m.lay, env, q, x, split); }
  }

  lemma HopelessNever(lay: seq<Cell>, env: Env, q: Request, x: nat, split: MaySplit)
    requires Wf(env.b) && Hopeless(lay, env, q, x)
    ensures !ServesIn(lay, env, q, x, split)
  {
    hide Blocks, Usable;
    assert Guarded(q) == 1;
  }

  /** Free blocks after a search were free before. */
  lemma ServedBefore(m: Heap, t: Heap, env: Env, q: Request, x: nat, split: MaySplit)
    requires Wf(env.b) && |t.lay| == |m.lay| && ServesIn(t.lay, env, q, x, split)
    requires forall y :: 0 <= y < |m.lay| && t.lay[y].Free? ==> m.lay[y] == t.lay[y]
    ensures ServesIn(m.lay, env, q, x, split)
  {
    hide Serves, Usable, Blocks;
  }

  lemma {:induction false} ListsComplete(m: Heap, env: Env, q: Request, i: nat, last: nat, split: MaySplit, met: nat, o: Outcome)
    requires Inv(m) && Wf(env.b) && Need(q) > 0 && last <= N_HBLK_FLS && o == TryLists(m, env, q, i, last, split, met)
    ensures o.r == 0 ==> forall x: nat :: x < |m.lay| && m.lay[x].Free? && i <= Bin(m.lay[x].pages) <= last ==> !ServesIn(m.lay, env, q, x, split)
    ensures o.r == 0 ==> OnlyHopeless(m, o.m, env, q) && |FreeHeads(o.m.lay)| == |FreeHeads(m.lay)| - (o.met / 4 - met / 4)
    ensures o.r != 0 ==> exists f: nat :: f <= o.r && ServesIn(m.lay, env, q, f, split)
    decreases last + 1 - i
  {
    hide Inv, Searched, AllocFrom, ServesIn, OnlyHopeless, FreeHeads, Bin;
    if i <= last {
      var u := AllocNth(m, env, q, i, split, met);
      InvFacts(m);
      AllocFromKeeps(m, env, q, i, m.lists[i], split, met, u);
      FromComplete(m, env, q, i, m.lists[i], split, met, u);
      AllOnLists(m);
      if u.r == 0 {
        SearchedInv(m, u.m, q, 0);
        ListsComplete(u.m, env, q, i + 1, last, split, u.met, o);
        if o.r == 0 {
          OnlyHopelessTrans(m, u.m, o.m, env, q);
          forall x: nat | x < |m.lay| && m.lay[x].Free? && i <= Bin(m.lay[x].pages) <= last ensures !ServesIn(m.lay, env, q, x, split) {
            if Bin(m.lay[x].pages) > i && ServesIn(m.lay, env, q, x, split) { StillServes(m, u.m, env, q, x, split); }
          }
        } else {
          var f: nat :| f <= o.r && ServesIn(u.m.lay, env, q, f, split);
          ServedBefore(m, u.m, env, q, f, split);
        }
      }
    } else { NothingGivenUp(m, env, q); }
  }

  /** Allocation is complete.  When all lists may be split, GC_allochblk finds a block if and only if there is a free block
      that can take the object: one that is large enough and, if the object is tested against the black lists, has a usable
      place for it or is much larger still.  It takes a block of just the right size if one of these serves. */
  lemma AllochblkComplete(m: Heap, env: Env, q: Request, pol: Policy, met: nat, o: Outcome)
    requires Inv(m) && Wf(env.b) && 0 < Need(q) < m.limit && o == Allochblk(m, env, q, pol, met) && pol.useAll
    ensures o.r == 0 <==> forall x: nat :: x < |m.lay| && m.lay[x].Free? ==> !Serves(env, q, x, m.lay[x].pages)
    ensures (exists x: nat :: x < |m.lay| && m.lay[x].Free? && m.lay[x].pages == Blocks(q.sz) && Serves(env, q, x, m.lay[x].pages)) ==>
      o.r != 0 && o.r < |m.lay| && m.lay[o.r].Free? && m.lay[o.r].pages == Blocks(q.sz)
  {
    hide Inv, AllocFrom, TryLists, Bin, Searched, Serves, OnlyHopeless, FreeHeads, Blocks;
    var need, start := Need(q), Bin(Need(q));
    var u := AllocNth(m, env, q, start, No, met);
    InvFacts(m);
    AllocFromKeeps(m, env, q, start, m.lists[start], No, met, u);
    FromComplete(m, env, q, start, m.lists[start], No, met, u);
    AllOnLists(m);
    if u.r == 0 {
      SearchedInv(m, u.m, q, 0);
      assert o == TryLists(u.m, env, q, NextList(start), N_HBLK_FLS, Yes, u.met);
      ListsComplete(u.m, env, q, NextList(start), N_HBLK_FLS, Yes, u.met, o);
      forall x: nat | x < |m.lay| && m.lay[x].Free? && Serves(env, q, x, m.lay[x].pages)
        ensures m.lay[x].pages != need && o.r != 0
      {
        LargerServes(m, u.m, env, q, x);
      }
      if o.r != 0 {
        var f: nat :| f <= o.r && ServesIn(u.m.lay, env, q, f, Yes);
        ServedBefore(m, u.m, env, q, f, Yes);
      }
    }
  }

  /** What the first search, for blocks of the right size, has left. */
  lemma LargerServes(m: Heap, t: Heap, env: Env, q: Request, x: nat)
    requires Inv(m) && Wf(env.b) && OnlyHopeless(m, t, env, q) && |m.lists| == N_HBLK_FLS + 1
    requires x < |m.lay| && m.lay[x].Free? && Serves(env, q, x, m.lay[x].pages) && x in m.lists[Bin(m.lay[x].pages)]
    requires forall y :: y in m.lists[Bin(Need(q))] ==> !ServesIn(m.lay, env, q, y, No)
    ensures m.lay[x].pages != Need(q) && NextList(Bin(Need(q))) <= Bin(m.lay[x].pages)
    ensures ServesIn(t.lay, env, q, x, Yes) && t.lay[x] == m.lay[x]
  {
    hide Inv, Usable, HasPlace, Untested, OnlyHopeless, Blocks, Bin;
    StillServes(m, t, env, q, x, Yes);
    BinMonotone(Need(q), m.lay[x].pages);
  }

  /** Under any policy: a block of the right size that serves is found; and a larger one, if blocks of its list may be split.
      They all may when memory is short of it (GC_use_entire_heap and the like); otherwise, unless finalization is being
      waited for, while what is allocated in large blocks and what is free from some list on, its own or a later one, reach
      the maximum so far. */
  lemma AllochblkLimited(m: Heap, t: Heap, env: Env, q: Request, pol: Policy, met: nat, o: Outcome, n: nat, x: nat)
    requires Inv(m) && Wf(env.b) && 0 < Need(q) < m.limit && o == Allochblk(m, env, q, pol, met) && o.r == 0
    requires t == AllocNth(m, env, q, Bin(Need(q)), No, met).m && |t.lists| == N_HBLK_FLS + 1
    requires x < |m.lay| && m.lay[x].Free? && n <= N_HBLK_FLS && Bin(m.lay[x].pages) <= n
    ensures m.lay[x].pages == Blocks(q.sz) ==> !Serves(env, q, x, m.lay[x].pages)
    ensures m.lay[x].pages > Blocks(q.sz) && (pol.useAll || (!pol.finalizing && n > 0 && pol.largeAllocd + PagesFrom(t.lay, t.lists, n) >= pol.maxLargeAllocd)) ==>
      !ServesIn(m.lay, env, q, x, if pol.useAll then Yes else AvoidRemapped)
  {
    hide Inv, AllocFrom, TryLists, Bin, Searched, Serves, ServesIn, OnlyHopeless, FreeHeads, Blocks, PagesFrom, EnoughLarge;
    var start := Bin(Need(q));
    var u := AllocNth(m, env, q, start, No, met);
    InvFacts(m);
    AllocFromKeeps(m, env, q, start, m.lists[start], No, met, u);
    FromComplete(m, env, q, start, m.lists[start], No, met, u);
    AllOnLists(m);
    SearchedInv(m, u.m, q, 0);
    EnoughLargeIs(u.m, pol);
    ListsComplete(u.m, env, q, NextList(start), SplitLimit(u.m, pol), SplitMode(u.m, pol), u.met, o);
    if m.lay[x].pages >= Need(q) { Limited(m, u.m, env, q, x, if pol.useAll then Yes else AvoidRemapped); }
  }

  lemma Limited(m: Heap, t: Heap, env: Env, q: Request, x: nat, split: MaySplit)
    requires Inv(m) && Wf(env.b) && OnlyHopeless(m, t, env, q) && |m.lists| == N_HBLK_FLS + 1 && !split.No?
    requires x < |m.lay| && m.lay[x].Free? && x in m.lists[Bin(m.lay[x].pages)] && Need(q) <= m.lay[x].pages
    requires forall y :: y in m.lists[Bin(Need(q))] ==> !ServesIn(m.lay, env, q, y, No)
    ensures m.lay[x].pages == Need(q) ==> !Serves(env, q, x, m.lay[x].pages)
    ensures m.lay[x].pages > Need(q) ==> NextList(Bin(Need(q))) <= Bin(m.lay[x].pages)
    ensures ServesIn(m.lay, env, q, x, split) ==> ServesIn(t.lay, env, q, x, split) && t.lay[x] == m.lay[x]
  {
    hide Inv, Usable, HasPlace, Untested, OnlyHopeless, Blocks, Bin, Serves;
    BinMonotone(Need(q), m.lay[x].pages);
    if ServesIn(m.lay, env, q, x, split) { StillServes(m, t, env, q, x, split); }
  }

  /** For a request that is not tested against the black lists only the size counts. */
  lemma AllochblkUntested(m: Heap, env: Env, q: Request, pol: Policy, met: nat, o: Outcome)
    requires Inv(m) && Wf(env.b) && 0 < Need(q) < m.limit && o == Allochblk(m, env, q, pol, met) && pol.useAll
    requires q.kind == 2 || q.kind == 3 || (q.kind == 0 && Blocks(q.sz) <= MAX_BLACK_LIST_PAGES)
    ensures o.r == 0 <==> forall x: nat :: x < |m.lay| && m.lay[x].Free? ==> m.lay[x].pages < Blocks(q.sz)
  {
    hide Inv, Allochblk, Blocks, HasPlace;
    AllochblkComplete(m, env, q, pol, met, o);
    forall x: nat | x < |m.lay| && m.lay[x].Free? ensures Serves(env, q, x, m.lay[x].pages) <==> m.lay[x].pages >= Blocks(q.sz) {}
  }

  /** A tested request fails only if no free block that is large enough has a usable place for it, or is so large that the
      black lists are ignored. */
  lemma AllochblkTested(m: Heap, env: Env, q: Request, pol: Policy, met: nat, o: Outcome)
    requires Inv(m) && Wf(env.b) && 0 < Need(q) < m.limit && o == Allochblk(m, env, q, pol, met) && pol.useAll
    requires q.kind != 2 && q.kind != 3 && (q.kind != 0 || Blocks(q.sz) > MAX_BLACK_LIST_PAGES)
    ensures o.r == 0 <==> forall f: nat :: f < |m.lay| && m.lay[f].Free? && Blocks(q.sz) <= m.lay[f].pages ==>
      && !(Blocks(q.sz) > env.blLimit && m.lay[f].pages - Blocks(q.sz) > env.blLimit)
      && forall x: nat :: f <= x <= f + m.lay[f].pages - Blocks(q.sz) ==> !Usable(env.b, x, Guarded(q))
  {
    hide Inv, Allochblk, Blocks, Usable, Guarded;
    AllochblkComplete(m, env, q, pol, met, o);
    forall f: nat | f < |m.lay| && m.lay[f].Free? && Blocks(q.sz) <= m.lay[f].pages
      ensures HasPlace(env.b, q, f, m.lay[f].pages) <==> exists x: nat :: f <= x <= f + m.lay[f].pages - Blocks(q.sz) && Usable(env.b, x, Guarded(q))
    {}
  }

  /** A search that fails, with whatever lists it may split, gives up only free blocks none of whose pages is usable, when one
      page was wanted; and it gives up as many as every fourth that was met. */
  lemma OnlyHopelessGivenUp(m: Heap, env: Env, q: Request, pol: Policy, met: nat, o: Outcome)
    requires Inv(m) && Wf(env.b) && 0 < Need(q) && o == Allochblk(m, env, q, pol, met) && o.r == 0
    ensures |o.m.lay| == |m.lay| && |FreeHeads(o.m.lay)| == |FreeHeads(m.lay)| - (o.met / 4 - met / 4)
    ensures forall f: nat :: f < |m.lay| && m.lay[f].Free? && o.m.lay[f] != m.lay[f] ==>
      && Blocks(q.sz) == 1 && q.kind != 0 && !m.lay[f].unmapped && !env.findLeak
      && forall x :: f <= x < f + m.lay[f].pages ==> !Usable(env.b, x, 1)
  {
    hide Inv, AllocFrom, TryLists, Bin, Searched, FreeHeads, Blocks, Usable, SplitLimit, SplitMode, OnlyHopeless;
    if Need(q) >= m.limit { NothingGivenUp(m, env, q); }
    else {
      var start := Bin(Need(q));
      var u := AllocNth(m, env, q, start, No, met);
      InvFacts(m);
      AllocFromKeeps(m, env, q, start, m.lists[start], No, met, u);
      FromComplete(m, env, q, start, m.lists[start], No, met, u);
      SearchedInv(m, u.m, q, 0);
      ListsComplete(u.m, env, q, NextList(start), SplitLimit(u.m, pol), SplitMode(u.m, pol), u.met, o);
      OnlyHopelessTrans(m, u.m, o.m, env, q);
    }
    HopelessMeans(m, o.m, env, q);
  }

  lemma HopelessMeans(m: Heap, t: Heap, env: Env, q: Request)
    requires Wf(env.b) && OnlyHopeless(m, t, env, q)
    ensures |t.lay| == |m.lay|
    ensures forall f: nat :: f < |m.lay| && m.lay[f].Free? && t.lay[f] != m.lay[f] ==>
      && Blocks(q.sz) == 1 && q.kind != 0 && !m.lay[f].unmapped && !env.findLeak
      && forall x :: f <= x < f + m.lay[f].pages ==> !Usable(env.b, x, 1)
  {
    hide Usable, Blocks;
  }
}
