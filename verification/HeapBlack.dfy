/** What allocation guarantees with respect to black lists, and the byte counts of the free lists. */
module HeapBlack {
  import opened HeapModel
  import opened HeapProofs
  import opened HeapOps
  import opened HeapTheorems
  import opened HeapAlloc
  import opened HeapAllochblk
  import opened BlackListModel

  // ------------------------------------------------------------------------ black lists

  /** How many pages from the start must not be black-listed. */
  function Guarded(q: Request): nat { if q.ignoreOffPage then 1 else Need(q) }

  /** Page r is the first place in the free block f where the object can go; or no place will do, but object
      and block are so large that the black lists are ignored. */
  ghost predicate Careful(lay: seq<Cell>, env: Env, q: Request, f: nat, r: nat)
    requires Wf(env.b)
  {
    && f < |lay| && lay[f].Free? && f <= r && r + Need(q) <= f + lay[f].pages
    && (|| (Usable(env.b, r, Guarded(q)) && forall x :: f <= x < r ==> !Usable(env.b, x, Guarded(q)))
        || (&& r == f && Need(q) > env.blLimit && lay[f].pages - Need(q) > env.blLimit
            && forall x :: f <= x <= f + lay[f].pages - Need(q) ==> !Usable(env.b, x, Guarded(q))))
  }

  lemma JudgeCareful(m: Heap, env: Env, q: Request, f: nat, next: seq<nat>, split: MaySplit)
    requires Wf(env.b) && Need(q) > 0 && f < |m.lay| && m.lay[f].Free? && ChecksBlackList(q)
    ensures var v := Judge(m, env, q, f, next, split); v.TakeAt? ==> Careful(m.lay, env, q, f, v.r)
  {
    hide IsBlackListed, FindStart, Usable;
    if m.lay[f].pages >= Need(q) {
      LowestStart(env.b, f, f + m.lay[f].pages - Need(q), Guarded(q));
    }
  }

  lemma {:induction false} CarefulFrom(m: Heap, env: Env, q: Request, i: nat, es: seq<nat>, split: MaySplit, met: nat, o: Outcome)
    requires Inv(m) && Wf(env.b) && Need(q) > 0 && i < |m.lists| == N_HBLK_FLS + 1 && Rest(m.lists[i], es)
    requires o == AllocFrom(m, env, q, i, es, split, met) && ChecksBlackList(q)
    ensures o.r != 0 ==> exists f: nat :: Careful(m.lay, env, q, f, o.r)
    decreases |es|
  {
    hide Inv, Judge, Carve, Drop, Rest, Careful, Need, Room, ChecksBlackList;
    if es != [] {
      var f, next := es[0], es[1..];
      RestFirst(m, i, es);
      JudgeRoom(m, env, q, f, next, split);
      JudgeCareful(m, env, q, f, next, split);
      var v := Judge(m, env, q, f, next, split);
      match v
      case TakeAt(r) =>
      case Skip => CarefulFrom(m, env, q, i, next, split, met, o);
      case Dropping =>
        if (met + 1) % 4 != 0 { CarefulFrom(m, env, q, i, next, split, met + 1, o); }
        else {
          var d := Drop(m, f, i);
          DropKeeps(m, d, f, i);
          DropSearched(m, d, f, i, q);
          CarefulFrom(d, env, q, i, next, split, met + 1, o);
          CarefulBefore(m, d, env, q, o.r);
        }
    }
  }

  lemma CarefulBefore(m: Heap, d: Heap, env: Env, q: Request, r: nat)
    requires Wf(env.b) && |m.lay| == |d.lay| && forall x :: 0 <= x < |m.lay| && d.lay[x].Free? ==> m.lay[x] == d.lay[x]
    requires r != 0 ==> exists f: nat :: Careful(d.lay, env, q, f, r)
    ensures r != 0 ==> exists f: nat :: Careful(m.lay, env, q, f, r)
  {
    if r != 0 {
      var f: nat :| Careful(d.lay, env, q, f, r);
      assert m.lay[f] == d.lay[f];
      assert Careful(m.lay, env, q, f, r);
    }
  }

  lemma {:induction false} CarefulLists(m: Heap, env: Env, q: Request, i: nat, last: nat, split: MaySplit, met: nat, o: Outcome)
    requires Inv(m) && Wf(env.b) && Need(q) > 0 && last <= N_HBLK_FLS && o == TryLists(m, env, q, i, last, split, met)
    requires ChecksBlackList(q)
    ensures o.r != 0 ==> exists f: nat :: Careful(m.lay, env, q, f, o.r)
    decreases last + 1 - i
  {
    hide Inv, Searched, AllocFrom, Careful;
    if i <= last {
      var u := AllocNth(m, env, q, i, split, met);
      InvFacts(m);
      AllocFromKeeps(m, env, q, i, m.lists[i], split, met, u);
      CarefulFrom(m, env, q, i, m.lists[i], split, met, u);
      if u.r == 0 {
        SearchedInv(m, u.m, q, 0);
        CarefulLists(u.m, env, q, i + 1, last, split, u.met, o);
        CarefulBefore(m, u.m, env, q, o.r);
      }
    }
  }

  /** The black-list guarantee: a block that is checked against the black lists starts at the lowest usable
      page of a free block, except when both are too large for that to be insisted on. */
  lemma AllochblkCareful(m: Heap, env: Env, q: Request, pol: Policy, met: nat, o: Outcome)
    requires Inv(m) && Wf(env.b) && Need(q) > 0 && o == Allochblk(m, env, q, pol, met)
    requires q.kind != 2 && q.kind != 3 && (q.kind != 0 || Need(q) > MAX_BLACK_LIST_PAGES)
    ensures o.r != 0 ==> exists f: nat :: Careful(m.lay, env, q, f, o.r)
  {
    hide Inv, Searched, AllocFrom, TryLists, Careful, SplitLimit, SplitMode;
    if Need(q) < m.limit {
      var start := Bin(Need(q));
      var u := AllocNth(m, env, q, start, No, met);
      InvFacts(m);
      AllocFromKeeps(m, env, q, start, m.lists[start], No, met, u);
      CarefulFrom(m, env, q, start, m.lists[start], No, met, u);
      if u.r == 0 {
        SearchedInv(m, u.m, q, 0);
        CarefulLists(u.m, env, q, NextList(start), SplitLimit(u.m, pol), SplitMode(u.m, pol), u.met, o);
        CarefulBefore(m, u.m, env, q, o.r);
      }
    }
  }

  // ------------------------------------------------------------------------ byte counts

  /** Pages on all lists from n on. */
  function PagesFrom(lay: seq<Cell>, lists: seq<seq<nat>>, n: nat): nat
    decreases |lists| - n
  {
    if n >= |lists| then 0 else ListPages(lay, lists[n]) + PagesFrom(lay, lists, n + 1)
  }

  lemma PagesFromStep(lay: seq<Cell>, lists: seq<seq<nat>>, n: nat)
    ensures PagesFrom(lay, lists, n) == if n >= |lists| then 0 else ListPages(lay, lists[n]) + PagesFrom(lay, lists, n + 1)
  {}

  /** GC_enough_large_bytes_left finds the largest n such that what is on the lists from n on, together with
      what is allocated in large blocks, reaches the maximum so far; or 0. */
  lemma {:induction false} EnoughFromIs(m: Heap, base: int, max: int, n: nat, r: nat)
    requires |m.lists| == N_HBLK_FLS + 1 && n <= N_HBLK_FLS
    requires r == EnoughFrom(m, base + PagesFrom(m.lay, m.lists, n + 1), max, n)
    ensures r <= n && forall k: nat :: r < k <= n ==> base + PagesFrom(m.lay, m.lists, k) < max
    ensures r > 0 ==> base + PagesFrom(m.lay, m.lists, r) >= max
  {
    hide PagesFrom, ListPages;
    PagesFromStep(m.lay, m.lists, n);
    var sum := base + PagesFrom(m.lay, m.lists, n);
    if sum < max && n > 0 { EnoughFromIs(m, base, max, n - 1, r); }
  }

  lemma EnoughLargeIs(m: Heap, pol: Policy)
    requires |m.lists| == N_HBLK_FLS + 1
    ensures var r := EnoughLarge(m, pol);
      && (forall k: nat :: r < k <= N_HBLK_FLS ==> pol.largeAllocd + PagesFrom(m.lay, m.lists, k) < pol.maxLargeAllocd)
      && (r > 0 ==> pol.largeAllocd + PagesFrom(m.lay, m.lists, r) >= pol.maxLargeAllocd)
  {
    PagesFromStep(m.lay, m.lists, N_HBLK_FLS + 1);
    EnoughFromIs(m, pol.largeAllocd, pol.maxLargeAllocd, N_HBLK_FLS, EnoughLarge(m, pol));
  }

  lemma {:induction false} ListPagesSame(lay: seq<Cell>, t: seq<Cell>, l: seq<nat>)
    requires |lay| == |t| && forall x :: x in l ==> x < |lay| ==> lay[x] == t[x]
    ensures ListPages(lay, l) == ListPages(t, l)
  {
    if l != [] {
      assert l[0] in l;
      ListPagesSame(lay, t, l[1..]);
    }
  }

  lemma {:induction false} PagesFromSame(lay: seq<Cell>, t: seq<Cell>, lists: seq<seq<nat>>, lists': seq<seq<nat>>, n: nat)
    requires |lay| == |t| && |lists| == |lists'|
    requires forall i :: n <= i < |lists| ==> lists[i] == lists'[i] && forall x :: x in lists[i] ==> x < |lay| ==> lay[x] == t[x]
    ensures PagesFrom(lay, lists, n) == PagesFrom(t, lists', n)
    decreases |lists| - n
  {
    if n < |lists| {
      ListPagesSame(lay, t, lists[n]);
      PagesFromSame(lay, t, lists, lists', n + 1);
    }
  }

  /** GC_compute_large_free_bytes: the lists account for all free pages. */
  lemma {:induction false} ListsHoldFreePages(lay: seq<Cell>, lists: seq<seq<nat>>, n: nat)
    requires Listed(lay, lists, {}) && n <= |lists| && forall i :: 0 <= i < n ==> lists[i] == []
    ensures PagesFrom(lay, lists, n) == FreePages(lay)
    decreases |lists| - n, if n < |lists| then |lists[n]| else 0
  {
    if n == |lists| {
      assert forall x :: 0 <= x < |lay| && lay[x].Free? ==> IsListed(lay, lists, x);
      NoneFree(lay, |lay|);
    } else if lists[n] == [] {
      ListsHoldFreePages(lay, lists, n + 1);
    } else {
      var a, l := lists[n][0], lists[n][1..];
      assert a in lists[n];
      ListedAt(lay, lists, {}, n, a);
      var t := lay[a := Nil];
      var ls := lists[n := l];
      PopListed(lay, lists, t, ls, n);
      ListsHoldFreePages(t, ls, n);
      TotalPoint(lay, t, false, a);
      PopPages(lay, lists, t, ls, n);
    }
  }

  lemma {:induction false} NoneFree(lay: seq<Cell>, n: nat)
    requires n <= |lay| && forall x :: 0 <= x < |lay| ==> !lay[x].Free?
    ensures Total(lay, false, 0, n) == 0
  {
    if n > 0 { NoneFree(lay, n - 1); }
  }

  lemma PopListed(lay: seq<Cell>, lists: seq<seq<nat>>, t: seq<Cell>, ls: seq<seq<nat>>, n: nat)
    requires Listed(lay, lists, {}) && n < |lists| && lists[n] != [] && lists[n][0] < |lay|
    requires t == lay[lists[n][0] := Nil] && ls == lists[n := lists[n][1..]]
    ensures Listed(t, ls, {})
  {
    var a := lists[n][0];
    assert a in lists[n];
    ListedAt(lay, lists, {}, n, a);
    forall i | 0 <= i < |ls| ensures ListOk(t, ls[i], i, {}) {
      assert ListOk(lay, lists[i], i, {}) && ListOk(lay, lists[n], n, {});
      if i == n {
        assert forall k :: 0 <= k < |ls[n]| ==> ls[n][k] == lists[n][k + 1];
      }
      forall x | x in ls[i] ensures x < |t| && t[x].Free? && Bin(t[x].pages) == i {
        assert x in lists[i];
      }
    }
    forall x | 0 <= x < |t| && t[x].Free? ensures IsListed(t, ls, x) {
      assert IsListed(lay, lists, x);
      assert x != a;
      if Bin(t[x].pages) == n {
        var k :| 0 <= k < |lists[n]| && lists[n][k] == x;
        assert ls[n][k - 1] == x;
      }
    }
  }

  lemma PopPages(lay: seq<Cell>, lists: seq<seq<nat>>, t: seq<Cell>, ls: seq<seq<nat>>, n: nat)
    requires Listed(lay, lists, {}) && n < |lists| && lists[n] != [] && lists[n][0] < |lay| && lay[lists[n][0]].Free?
    requires t == lay[lists[n][0] := Nil] && ls == lists[n := lists[n][1..]] && Listed(t, ls, {})
    ensures PagesFrom(lay, lists, n) == PagesFrom(t, ls, n) + lay[lists[n][0]].pages
  {
    var a := lists[n][0];
    forall i, x | n <= i < |ls| && x in ls[i] ensures lay[x] == t[x] { ListedAt(t, ls, {}, i, x); }
    ListPagesSame(lay, t, ls[n]);
    PagesFromSame(lay, t, lists, ls, n + 1);
  }

  /** What GC_compute_large_free_bytes sums up is GC_large_free_bytes. */
  lemma LargeFreeIsListed(m: Heap)
    requires Inv(m)
    ensures PagesFrom(m.lay, m.lists, 0) == m.largeFree
  {
    ListsHoldFreePages(m.lay, m.lists, 0);
  }
}
