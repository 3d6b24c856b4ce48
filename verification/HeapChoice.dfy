/** Which free block GC_allochblk takes, and how many hopeless ones it meets on the way. */
module HeapChoice {
  import opened HeapModel
  import opened HeapProofs
  import opened HeapOps
  import opened HeapTheorems
  import opened HeapAlloc
  import opened HeapAllochblk
  import opened HeapBlack
  import opened HeapComplete
  import opened BlackListModel

  // ------------------------------------------------------------------------------ one block

  /** The block would have to be split, and the next one on the list is smaller, large enough, and starts on usable pages. */
  ghost predicate Better(lay: seq<Cell>, env: Env, q: Request, f: nat, next: seq<nat>, split: MaySplit)
    requires Wf(env.b)
  {
    && !split.No? && f < |lay| && lay[f].Free? && next != [] && next[0] < |lay| && lay[next[0]].Free?
    && Blocks(q.sz) <= lay[next[0]].pages < lay[f].pages && Usable(env.b, next[0], Blocks(q.sz))
  }

  /** Where in the free block f the object goes: to its start, or if it is tested against the black lists to the first usable
      place. */
  ghost predicate Placed(lay: seq<Cell>, env: Env, q: Request, f: nat, r: nat, split: MaySplit)
    requires Wf(env.b)
  {
    && f < |lay| && lay[f].Free? && f <= r && r + Blocks(q.sz) <= f + lay[f].pages
    && (if Untested(q) then r == f else Careful(lay, env, q, f, r))
    && (split.AvoidRemapped? && lay[f].unmapped ==> r == f)
  }

  /** A hopeless block, of the right size if blocks are not to be split. */
  ghost predicate HopelessIn(lay: seq<Cell>, env: Env, q: Request, f: nat, split: MaySplit)
    requires Wf(env.b)
  {
    Hopeless(lay, env, q, f) && (split.No? ==> lay[f].pages == 1)
  }

  lemma JudgeChooses(m: Heap, env: Env, q: Request, f: nat, next: seq<nat>, split: MaySplit)
    requires Wf(env.b) && Need(q) > 0 && f < |m.lay| && m.lay[f].Free? && 0 < m.lay[f].pages
    ensures var v := Judge(m, env, q, f, next, split);
      && (v.TakeAt? <==> ServesIn(m.lay, env, q, f, split) && !Better(m.lay, env, q, f, next, split))
      && (v.TakeAt? ==> Placed(m.lay, env, q, f, v.r, split))
      && (v.Dropping? <==> HopelessIn(m.lay, env, q, f, split) && !Better(m.lay, env, q, f, next, split))
  {
    hide IsBlackListed, FindStart, Usable, Blocks;
    var avail, need := m.lay[f].pages, Need(q);
    if avail >= need {
      if next != [] { SearchIsExact(env.b, next[0], need); }
      LowestStart(env.b, f, f + avail - need, Guarded(q));
      StartServes(env, q, f, avail, FindStart(env.b, f, f + avail - need, Guarded(q)));
      assert need == 1 ==> Guarded(q) == 1;
    }
  }

  lemma BetterServesToo(lay: seq<Cell>, env: Env, q: Request, f: nat, next: seq<nat>, split: MaySplit)
    requires Wf(env.b) && 0 < Need(q) && Better(lay, env, q, f, next, split)
    ensures ServesIn(lay, env, q, next[0], split)
  {
    hide Usable, Blocks;
    UsableLess(env.b, next[0], Blocks(q.sz), Guarded(q));
  }

  // ------------------------------------------------------------------------------- one list

  /** The k-th of the blocks is the first that serves and is not followed by a better one. */
  ghost predicate Chosen(lay: seq<Cell>, env: Env, q: Request, es: seq<nat>, k: nat, r: nat, split: MaySplit)
    requires Wf(env.b)
  {
    && k < |es| && ServesIn(lay, env, q, es[k], split) && !Better(lay, env, q, es[k], es[k + 1..], split)
    && Placed(lay, env, q, es[k], r, split)
    && forall j {:trigger es[j]} :: 0 <= j < k ==> !ServesIn(lay, env, q, es[j], split) || Better(lay, env, q, es[j], es[j + 1..], split)
  }

  lemma ChosenLater(lay: seq<Cell>, env: Env, q: Request, es: seq<nat>, k: nat, r: nat, split: MaySplit)
    requires Wf(env.b) && es != [] && Chosen(lay, env, q, es[1..], k, r, split)
    requires !ServesIn(lay, env, q, es[0], split) || Better(lay, env, q, es[0], es[1..], split)
    ensures Chosen(lay, env, q, es, k + 1, r, split)
  {
    hide ServesIn, Better, Placed;
    var next := es[1..];
    assert next[k + 1..] == es[k + 2..];
    forall j | 0 <= j < k + 1 ensures !ServesIn(lay, env, q, es[j], split) || Better(lay, env, q, es[j], es[j + 1..], split) {
      if j > 0 { assert next[j - 1] == es[j] && next[j..] == es[j + 1..]; }
    }
  }

  lemma ChosenSame(lay: seq<Cell>, t: seq<Cell>, env: Env, q: Request, es: seq<nat>, k: nat, r: nat, split: MaySplit)
    requires Wf(env.b) && |t| == |lay| && Chosen(t, env, q, es, k, r, split)
    requires forall x :: x in es ==> x < |lay| && t[x] == lay[x]
    ensures Chosen(lay, env, q, es, k, r, split)
  {
    hide Serves, Usable, Blocks, Untested;
    forall j | 0 <= j <= k
      ensures ServesIn(lay, env, q, es[j], split) == ServesIn(t, env, q, es[j], split)
      ensures Better(lay, env, q, es[j], es[j + 1..], split) == Better(t, env, q, es[j], es[j + 1..], split)
    {
      if j + 1 < |es| { assert es[j + 1..][0] == es[j + 1]; }
    }
  }

  /** After a block has been given up the rest of the list is what it was. */
  lemma RestSame(m: Heap, d: Heap, i: nat, es: seq<nat>)
    requires Inv(m) && i < |m.lists| && Rest(m.lists[i], es) && es != [] && es[0] < |m.lay| == |d.lay| && m.lay[es[0]].Free?
    requires forall y :: 0 <= y < |m.lay| ==> d.lay[y] == if es[0] <= y < es[0] + m.lay[es[0]].pages then Used(HBLKSIZE, 0, false) else m.lay[y]
    ensures forall x :: x in es[1..] ==> x < |m.lay| && d.lay[x] == m.lay[x]
    ensures forall x :: 0 <= x < |m.lay| && m.lay[x].Free? && x != es[0] ==> d.lay[x] == m.lay[x]
    ensures es[0] !in es[1..]
  {
    hide Inv, Rest;
    RestFree(m, i, es);
    RestDistinct(m, i, es);
    FreeBody(m, es[0]);
    forall x | x in es[1..] ensures x in es && x != es[0] {}
  }

  /** The search of one list takes the first block that serves, unless a better one follows it. */
  lemma {:induction false} FromChooses(m: Heap, env: Env, q: Request, i: nat, es: seq<nat>, split: MaySplit, met: nat, o: Outcome)
    requires Inv(m) && Wf(env.b) && Need(q) > 0 && i < |m.lists| == N_HBLK_FLS + 1 && Rest(m.lists[i], es)
    requires o == AllocFrom(m, env, q, i, es, split, met)
    ensures o.r != 0 ==> exists k: nat :: Chosen(m.lay, env, q, es, k, o.r, split)
    decreases |es|
  {
    hide Inv, Judge, Carve, Drop, Rest, Room, Need, ServesIn, Better, Placed, HopelessIn, Chosen, Hopeless;
    if es != [] {
      var f, next := es[0], es[1..];
      RestFirst(m, i, es);
      JudgeRoom(m, env, q, f, next, split);
      JudgeServes(m, env, q, f, next, split);
      JudgeChooses(m, env, q, f, next, split);
      var v := Judge(m, env, q, f, next, split);
      match v
      case TakeAt(r) => ChosenFirst(m.lay, env, q, es, r, split);
      case Skip =>
        FromChooses(m, env, q, i, next, split, met, o);
        LaterChosen(m.lay, env, q, es, o.r, split);
      case Dropping =>
        if (met + 1) % 4 != 0 { FromChooses(m, env, q, i, next, split, met + 1, o); }
        else {
          var d := Drop(m, f, i);
          DropKeeps(m, d, f, i);
          RestSame(m, d, i, es);
          FromChooses(d, env, q, i, next, split, met + 1, o);
          if o.r != 0 {
            var k: nat :| Chosen(d.lay, env, q, next, k, o.r, split);
            ChosenSame(m.lay, d.lay, env, q, next, k, o.r, split);
          }
        }
        LaterChosen(m.lay, env, q, es, o.r, split);
    }
  }

  lemma ChosenFirst(lay: seq<Cell>, env: Env, q: Request, es: seq<nat>, r: nat, split: MaySplit)
    requires Wf(env.b) && es != [] && ServesIn(lay, env, q, es[0], split) && !Better(lay, env, q, es[0], es[1..], split)
    requires Placed(lay, env, q, es[0], r, split)
    ensures Chosen(lay, env, q, es, 0, r, split)
  {
    hide ServesIn, Better, Placed;
  }

  lemma LaterChosen(lay: seq<Cell>, env: Env, q: Request, es: seq<nat>, r: nat, split: MaySplit)
    requires Wf(env.b) && es != [] && (!ServesIn(lay, env, q, es[0], split) || Better(lay, env, q, es[0], es[1..], split))
    requires r != 0 ==> exists k: nat :: Chosen(lay, env, q, es[1..], k, r, split)
    ensures r != 0 ==> exists k: nat :: Chosen(lay, env, q, es, k, r, split)
  {
    hide ServesIn, Better, Chosen;
    if r != 0 {
      var k: nat :| Chosen(lay, env, q, es[1..], k, r, split);
      ChosenLater(lay, env, q, es, k, r, split);
    }
  }

  // ----------------------------------------------------------------------- all the lists

  /** The object is placed in a block of the first list, from list lo on, that has one that serves. */
  ghost predicate FromFirstList(lay: seq<Cell>, env: Env, q: Request, f: nat, r: nat, lo: nat, hi: nat, split: MaySplit)
    requires Wf(env.b)
  {
    && f < |lay| && lay[f].Free? && lo <= Bin(lay[f].pages) <= hi
    && Placed(lay, env, q, f, r, split) && ServesIn(lay, env, q, f, split)
    && forall x: nat :: x < |lay| && lay[x].Free? && lo <= Bin(lay[x].pages) < Bin(lay[f].pages) ==> !ServesIn(lay, env, q, x, split)
  }

  lemma {:induction false} ListsChoose(m: Heap, env: Env, q: Request, i: nat, last: nat, split: MaySplit, met: nat, o: Outcome)
    requires Inv(m) && Wf(env.b) && Need(q) > 0 && last <= N_HBLK_FLS && o == TryLists(m, env, q, i, last, split, met)
    ensures o.r != 0 ==> exists f: nat :: FromFirstList(m.lay, env, q, f, o.r, i, last, split)
    decreases last + 1 - i
  {
    hide Inv, Searched, AllocFrom, ServesIn, OnlyHopeless, FreeHeads, Bin, Placed, Chosen, FromFirstList;
    if i <= last {
      var u := AllocNth(m, env, q, i, split, met);
      InvFacts(m);
      AllocFromKeeps(m, env, q, i, m.lists[i], split, met, u);
      FromComplete(m, env, q, i, m.lists[i], split, met, u);
      FromChooses(m, env, q, i, m.lists[i], split, met, u);
      if u.r == 0 {
        SearchedInv(m, u.m, q, 0);
        ListsChoose(u.m, env, q, i + 1, last, split, u.met, o);
        if o.r != 0 {
          var f: nat :| FromFirstList(u.m.lay, env, q, f, o.r, i + 1, last, split);
          FirstListBefore(m, u.m, env, q, f, o.r, i, last, split);
        }
      } else {
        var k: nat :| Chosen(m.lay, env, q, m.lists[i], k, u.r, split);
        FirstListHere(m, env, q, i, last, k, u.r, split);
      }
    }
  }

  lemma FirstListHere(m: Heap, env: Env, q: Request, i: nat, last: nat, k: nat, r: nat, split: MaySplit)
    requires Inv(m) && Wf(env.b) && i < |m.lists| && i <= last && Chosen(m.lay, env, q, m.lists[i], k, r, split)
    ensures k < |m.lists[i]| && FromFirstList(m.lay, env, q, m.lists[i][k], r, i, last, split)
  {
    hide ServesIn, Placed, Bin, Better;
    ListedAt(m.lay, m.lists, {}, i, m.lists[i][k]);
  }

  lemma FirstListBefore(m: Heap, t: Heap, env: Env, q: Request, f: nat, r: nat, i: nat, last: nat, split: MaySplit)
    requires Inv(m) && Wf(env.b) && i < |m.lists| && OnlyHopeless(m, t, env, q) && |t.lay| == |m.lay| && FromFirstList(t.lay, env, q, f, r, i + 1, last, split)
    requires forall y :: 0 <= y < |m.lay| && t.lay[y].Free? ==> m.lay[y] == t.lay[y]
    requires forall x :: x in m.lists[i] ==> !ServesIn(m.lay, env, q, x, split)
    ensures FromFirstList(m.lay, env, q, f, r, i, last, split)
  {
    hide Inv, Serves, Usable, Blocks, Bin, Untested, OnlyHopeless;
    AllOnLists(m);
    forall x: nat | x < |m.lay| && m.lay[x].Free? && i <= Bin(m.lay[x].pages) < Bin(m.lay[f].pages) ensures !ServesIn(m.lay, env, q, x, split) {
      if ServesIn(m.lay, env, q, x, split) { StillServes(m, t, env, q, x, split); }
    }
  }

  /** No block that serves is on an earlier list, and if one has the right size this one has. */
  ghost predicate Best(lay: seq<Cell>, env: Env, q: Request, f: nat)
    requires Wf(env.b)
  {
    && f < |lay| && lay[f].Free? && Serves(env, q, f, lay[f].pages)
    && forall x: nat :: x < |lay| && lay[x].Free? && Serves(env, q, x, lay[x].pages) ==>
         Bin(lay[f].pages) <= Bin(lay[x].pages) && (lay[x].pages == Blocks(q.sz) ==> lay[f].pages == Blocks(q.sz))
  }

  /** Which block is taken when all lists may be split: one of the right size if any of these serves; otherwise one from the
      first list that has a block that serves.  The object goes to its start, or to the first place in it that the black
      lists allow. */
  lemma AllochblkChooses(m: Heap, env: Env, q: Request, pol: Policy, met: nat, o: Outcome)
    requires Inv(m) && Wf(env.b) && 0 < Need(q) < m.limit && o == Allochblk(m, env, q, pol, met) && pol.useAll && o.r != 0
    ensures exists f: nat :: Placed(m.lay, env, q, f, o.r, Yes) && Best(m.lay, env, q, f)
  {
    hide Inv, AllocFrom, TryLists, Bin, Searched, Serves, OnlyHopeless, FreeHeads, Placed, Chosen, FromFirstList, Best, Blocks;
    var need, start := Need(q), Bin(Need(q));
    var u := AllocNth(m, env, q, start, No, met);
    InvFacts(m);
    AllocFromKeeps(m, env, q, start, m.lists[start], No, met, u);
    FromComplete(m, env, q, start, m.lists[start], No, met, u);
    FromChooses(m, env, q, start, m.lists[start], No, met, u);
    if u.r != 0 {
      var k: nat :| Chosen(m.lay, env, q, m.lists[start], k, u.r, No);
      var f := RightSizeTaken(m, env, q, start, k, u.r);
    } else {
      SearchedInv(m, u.m, q, 0);
      ListsChoose(u.m, env, q, NextList(start), N_HBLK_FLS, Yes, u.met, o);
      var f: nat :| FromFirstList(u.m.lay, env, q, f, o.r, NextList(start), N_HBLK_FLS, Yes);
      LargerTaken(m, u.m, env, q, f, o.r);
    }
  }

  lemma RightSizeTaken(m: Heap, env: Env, q: Request, start: nat, k: nat, r: nat) returns (f: nat)
    requires Wf(env.b) && start < |m.lists| && Chosen(m.lay, env, q, m.lists[start], k, r, No)
    ensures Placed(m.lay, env, q, f, r, Yes) && Best(m.lay, env, q, f)
  {
    hide Usable, Blocks, Bin, HasPlace, Untested, Careful, Better;
    f := m.lists[start][k];
    forall x: nat | x < |m.lay| && m.lay[x].Free? && Serves(env, q, x, m.lay[x].pages) ensures Bin(m.lay[f].pages) <= Bin(m.lay[x].pages) {
      BinMonotone(m.lay[f].pages, m.lay[x].pages);
    }
  }

  lemma LargerTaken(m: Heap, t: Heap, env: Env, q: Request, f: nat, r: nat)
    requires Inv(m) && Wf(env.b) && OnlyHopeless(m, t, env, q) && |t.lay| == |m.lay| && FromFirstList(t.lay, env, q, f, r, NextList(Bin(Need(q))), N_HBLK_FLS, Yes)
    requires forall y :: 0 <= y < |m.lay| && t.lay[y].Free? ==> m.lay[y] == t.lay[y]
    requires Bin(Need(q)) < |m.lists| && forall y :: y in m.lists[Bin(Need(q))] ==> !ServesIn(m.lay, env, q, y, No)
    ensures Placed(m.lay, env, q, f, r, Yes) && Best(m.lay, env, q, f)
  {
    hide Inv, Usable, Bin, HasPlace, Untested, OnlyHopeless, Blocks;
    AllOnLists(m);
    forall x: nat | x < |m.lay| && m.lay[x].Free? && Serves(env, q, x, m.lay[x].pages)
      ensures Bin(m.lay[f].pages) <= Bin(m.lay[x].pages) && m.lay[x].pages != Blocks(q.sz)
    {
      LargerServes(m, t, env, q, x);
    }
  }

  /** And when they may not: a larger block is taken only if finalization is not being waited for, and what is free from its
      list on, together with what is allocated in large blocks, reaches the maximum so far; and an unmapped one only if
      nothing has to be split off in front of the object. */
  lemma AllochblkThrifty(m: Heap, t: Heap, env: Env, q: Request, pol: Policy, met: nat, o: Outcome)
    requires Inv(m) && Wf(env.b) && 0 < Need(q) < m.limit && o == Allochblk(m, env, q, pol, met) && !pol.useAll && o.r != 0
    requires t == AllocNth(m, env, q, Bin(Need(q)), No, met).m && |t.lists| == N_HBLK_FLS + 1
    ensures exists f: nat ::
      && f < |m.lay| && m.lay[f].Free? && f <= o.r && Serves(env, q, f, m.lay[f].pages) && (m.lay[f].unmapped ==> o.r == f)
      && (m.lay[f].pages > Blocks(q.sz) ==>
            !pol.finalizing && pol.largeAllocd + PagesFrom(t.lay, t.lists, Bin(m.lay[f].pages)) >= pol.maxLargeAllocd)
  {
    hide Inv, AllocFrom, TryLists, Bin, Searched, OnlyHopeless, FreeHeads, Chosen, FromFirstList, Best, Blocks, PagesFrom, EnoughLarge, HasPlace, Careful;
    var need, start := Need(q), Bin(Need(q));
    var u := AllocNth(m, env, q, start, No, met);
    InvFacts(m);
    AllocFromKeeps(m, env, q, start, m.lists[start], No, met, u);
    FromChooses(m, env, q, start, m.lists[start], No, met, u);
    if u.r != 0 {
      var k: nat :| Chosen(m.lay, env, q, m.lists[start], k, u.r, No);
      var f := RightSizeOnly(m, env, q, start, k, u.r);
    } else {
      SearchedInv(m, u.m, q, 0);
      EnoughLargeIs(u.m, pol);
      var last := SplitLimit(u.m, pol);
      ListsChoose(u.m, env, q, NextList(start), last, SplitMode(u.m, pol), u.met, o);
      var f: nat :| FromFirstList(u.m.lay, env, q, f, o.r, NextList(start), last, SplitMode(u.m, pol));
      WithinLimit(u.m, env, q, pol, f, o.r);
    }
  }

  lemma RightSizeOnly(m: Heap, env: Env, q: Request, start: nat, k: nat, r: nat) returns (f: nat)
    requires Wf(env.b) && start < |m.lists| && Chosen(m.lay, env, q, m.lists[start], k, r, No)
    ensures f < |m.lay| && m.lay[f].Free? && Serves(env, q, f, m.lay[f].pages) && m.lay[f].pages == Blocks(q.sz) && r == f
  {
    hide Usable, Blocks, Bin, HasPlace, Untested, Better;
    f := m.lists[start][k];
  }

  lemma WithinLimit(m: Heap, env: Env, q: Request, pol: Policy, f: nat, r: nat)
    requires Inv(m) && Wf(env.b) && !pol.useAll && |m.lists| == N_HBLK_FLS + 1 && 0 < Need(q)
    requires FromFirstList(m.lay, env, q, f, r, NextList(Bin(Need(q))), SplitLimit(m, pol), SplitMode(m, pol))
    ensures f < |m.lay| && m.lay[f].Free? && f <= r && Serves(env, q, f, m.lay[f].pages) && !pol.finalizing
    ensures pol.largeAllocd + PagesFrom(m.lay, m.lists, Bin(m.lay[f].pages)) >= pol.maxLargeAllocd && (m.lay[f].unmapped ==> r == f)
  {
    hide Inv, Serves, Careful, Blocks, PagesFrom, EnoughLarge, Untested;
    EnoughLargeIs(m, pol);
    PagesMonotone(m.lay, m.lists, Bin(m.lay[f].pages), EnoughLarge(m, pol));
  }

  lemma {:induction false} PagesMonotone(lay: seq<Cell>, lists: seq<seq<nat>>, i: nat, j: nat)
    requires i <= j
    ensures PagesFrom(lay, lists, i) >= PagesFrom(lay, lists, j)
    decreases j - i
  {
    if i < j {
      PagesFromStep(lay, lists, i);
      if i < |lists| { PagesMonotone(lay, lists, i + 1, j); } else { PagesFromStep(lay, lists, j); }
    }
  }

  // --------------------------------------------------------------------- hopeless blocks

  /** The hopeless blocks among these. */
  ghost function HopelessOn(lay: seq<Cell>, env: Env, q: Request, es: seq<nat>, split: MaySplit): set<nat>
    requires Wf(env.b)
  {
    set x: nat | x in es && HopelessIn(lay, env, q, x, split)
  }

  lemma HopelessFirst(lay: seq<Cell>, env: Env, q: Request, es: seq<nat>, split: MaySplit)
    requires Wf(env.b) && es != [] && es[0] !in es[1..]
    ensures |HopelessOn(lay, env, q, es, split)| ==
      |HopelessOn(lay, env, q, es[1..], split)| + if HopelessIn(lay, env, q, es[0], split) then 1 else 0
  {
    hide HopelessIn;
    var a, b := HopelessOn(lay, env, q, es, split), HopelessOn(lay, env, q, es[1..], split);
    assert forall x :: x in es <==> x == es[0] || x in es[1..];
    assert a == if HopelessIn(lay, env, q, es[0], split) then b + {es[0]} else b;
  }

  lemma HopelessSame(lay: seq<Cell>, t: seq<Cell>, env: Env, q: Request, es: seq<nat>, split: MaySplit)
    requires Wf(env.b) && |t| == |lay| && forall x :: x in es ==> x < |lay| && t[x] == lay[x]
    ensures HopelessOn(t, env, q, es, split) == HopelessOn(lay, env, q, es, split)
  {
    hide Usable, Blocks, Untested, Punts;
    forall x | x in es ensures HopelessIn(t, env, q, x, split) == HopelessIn(lay, env, q, x, split) {}
  }

  /** A search of one list that fails meets every hopeless block on it once, and changes no block that is not on it. */
  lemma {:induction false} FromCounts(m: Heap, env: Env, q: Request, i: nat, es: seq<nat>, split: MaySplit, met: nat, o: Outcome)
    requires Inv(m) && Wf(env.b) && Need(q) > 0 && i < |m.lists| == N_HBLK_FLS + 1 && Rest(m.lists[i], es)
    requires o == AllocFrom(m, env, q, i, es, split, met) && o.r == 0
    ensures o.met == met + |HopelessOn(m.lay, env, q, es, split)|
    ensures |o.m.lay| == |m.lay| && forall x: nat :: x < |m.lay| && m.lay[x].Free? && x !in es ==> o.m.lay[x] == m.lay[x]
    decreases |es|
  {
    hide Inv, Judge, Carve, Drop, Rest, Room, Need, ServesIn, Better, Placed, HopelessIn, Hopeless, HopelessOn;
    InvFacts(m);
    if es == [] { NoneHopeless(m.lay, env, q, split); }
    else {
      var f, next := es[0], es[1..];
      RestFirst(m, i, es);
      JudgeRoom(m, env, q, f, next, split);
      JudgeChooses(m, env, q, f, next, split);
      RestDistinct(m, i, es);
      HopelessFirst(m.lay, env, q, es, split);
      FromComplete(m, env, q, i, es, split, met, o);
      assert forall x :: x in es <==> x == f || x in next;
      NotBetter(m.lay, env, q, es, split);
      var v := Judge(m, env, q, f, next, split);
      match v
      case TakeAt(r) =>
      case Skip => FromCounts(m, env, q, i, next, split, met, o);
      case Dropping =>
        if (met + 1) % 4 != 0 { FromCounts(m, env, q, i, next, split, met + 1, o); }
        else {
          var d := Drop(m, f, i);
          DropKeeps(m, d, f, i);
          RestSame(m, d, i, es);
          FromCounts(d, env, q, i, next, split, met + 1, o);
          HopelessSame(m.lay, d.lay, env, q, next, split);
        }
    }
  }

  lemma NoneHopeless(lay: seq<Cell>, env: Env, q: Request, split: MaySplit)
    requires Wf(env.b)
    ensures HopelessOn(lay, env, q, [], split) == {}
  {
    hide HopelessIn;
  }

  lemma NotBetter(lay: seq<Cell>, env: Env, q: Request, es: seq<nat>, split: MaySplit)
    requires Wf(env.b) && es != [] && 0 < Need(q) && forall x :: x in es ==> !ServesIn(lay, env, q, x, split)
    ensures !Better(lay, env, q, es[0], es[1..], split)
  {
    hide ServesIn, Better, Need;
    if Better(lay, env, q, es[0], es[1..], split) {
      NextThere(lay, env, q, es, split);
      BetterServesToo(lay, env, q, es[0], es[1..], split);
    }
  }

  lemma NextThere(lay: seq<Cell>, env: Env, q: Request, es: seq<nat>, split: MaySplit)
    requires Wf(env.b) && es != [] && Better(lay, env, q, es[0], es[1..], split)
    ensures |es| > 1 && es[1..][0] in es
  {
    assert es[1..][0] == es[1];
  }

  /** The hopeless blocks on lists lo to hi. */
  ghost function HopelessBetween(lay: seq<Cell>, env: Env, q: Request, lo: nat, hi: nat): set<nat>
    requires Wf(env.b)
  {
    set x: nat | x < |lay| && Hopeless(lay, env, q, x) && lo <= Bin(lay[x].pages) <= hi
  }

  lemma OneList(m: Heap, env: Env, q: Request, i: nat, split: MaySplit)
    requires Inv(m) && Wf(env.b) && i < |m.lists| && (split.No? ==> i == 1)
    ensures HopelessOn(m.lay, env, q, m.lists[i], split) == HopelessBetween(m.lay, env, q, i, i)
  {
    hide Usable, Blocks, Untested, Punts, Sound, FreePages;
    AllOnLists(m);
    forall x: nat ensures x in HopelessOn(m.lay, env, q, m.lists[i], split) <==> x in HopelessBetween(m.lay, env, q, i, i) {
      if x in m.lists[i] { OnThatList(m, i, x); }
    }
  }

  lemma OnThatList(m: Heap, i: nat, x: nat)
    requires Inv(m) && i < |m.lists| && x in m.lists[i]
    ensures x < |m.lay| && m.lay[x].Free? && Bin(m.lay[x].pages) == i && (i == 1 ==> m.lay[x].pages == 1)
  {
    ListedAt(m.lay, m.lists, {}, i, x);
  }

  lemma MoreLists(lay: seq<Cell>, env: Env, q: Request, lo: nat, mid: nat, hi: nat)
    requires Wf(env.b) && lo <= mid < hi + 1
    ensures |HopelessBetween(lay, env, q, lo, hi)| == |HopelessBetween(lay, env, q, lo, mid)| + |HopelessBetween(lay, env, q, mid + 1, hi)|
  {
    hide Hopeless, Bin;
    var a, b := HopelessBetween(lay, env, q, lo, mid), HopelessBetween(lay, env, q, mid + 1, hi);
    assert HopelessBetween(lay, env, q, lo, hi) == a + b && a !! b;
  }

  lemma BetweenSame(lay: seq<Cell>, t: seq<Cell>, env: Env, q: Request, lo: nat, hi: nat)
    requires Wf(env.b) && |t| == |lay|
    requires forall x: nat :: x < |lay| && lay[x].Free? && lo <= Bin(lay[x].pages) <= hi ==> t[x] == lay[x]
    requires forall x :: 0 <= x < |lay| && t[x].Free? ==> lay[x] == t[x]
    ensures HopelessBetween(t, env, q, lo, hi) == HopelessBetween(lay, env, q, lo, hi)
  {
    hide Usable, Blocks, Untested, Punts, Bin;
  }

  lemma {:induction false} ListsCount(m: Heap, env: Env, q: Request, i: nat, last: nat, split: MaySplit, met: nat, o: Outcome)
    requires Inv(m) && Wf(env.b) && Need(q) > 0 && last <= N_HBLK_FLS && o == TryLists(m, env, q, i, last, split, met) && !split.No? && o.r == 0
    ensures o.met == met + |HopelessBetween(m.lay, env, q, i, last)|
    decreases last + 1 - i
  {
    hide Inv, Searched, AllocFrom, HopelessOn, HopelessBetween, Bin, FreeHeads;
    if i <= last {
      var u := AllocNth(m, env, q, i, split, met);
      InvFacts(m);
      AllocFromKeeps(m, env, q, i, m.lists[i], split, met, u);
      FromCounts(m, env, q, i, m.lists[i], split, met, u);
      SearchedInv(m, u.m, q, 0);
      ListsCount(u.m, env, q, i + 1, last, split, u.met, o);
      OneList(m, env, q, i, split);
      OthersSame(m, u.m, env, q, i, last);
      MoreLists(m.lay, env, q, i, i, last);
    } else { NoLists(m.lay, env, q, i, last); }
  }

  lemma NoLists(lay: seq<Cell>, env: Env, q: Request, lo: nat, hi: nat)
    requires Wf(env.b) && lo > hi
    ensures HopelessBetween(lay, env, q, lo, hi) == {}
  {
    hide Hopeless, Bin;
  }

  lemma OthersSame(m: Heap, t: Heap, env: Env, q: Request, i: nat, last: nat)
    requires Inv(m) && Wf(env.b) && i < |m.lists| && |t.lay| == |m.lay|
    requires forall x: nat :: x < |m.lay| && m.lay[x].Free? && x !in m.lists[i] ==> t.lay[x] == m.lay[x]
    requires forall x :: 0 <= x < |m.lay| && t.lay[x].Free? ==> m.lay[x] == t.lay[x]
    ensures HopelessBetween(t.lay, env, q, i + 1, last) == HopelessBetween(m.lay, env, q, i + 1, last)
  {
    hide Inv, HopelessBetween, Bin;
    forall x: nat | x < |m.lay| && m.lay[x].Free? && i + 1 <= Bin(m.lay[x].pages) <= last ensures t.lay[x] == m.lay[x] {
      if x in m.lists[i] { OnThatList(m, i, x); }
    }
    BetweenSame(m.lay, t.lay, env, q, i + 1, last);
  }

  /** Unless it finds a block, GC_allochblk meets every hopeless block once when all lists may be split: none is counted
      twice, and none is passed over.  Every fourth that is met, over all calls, is given up. */
  lemma EachHopelessMetOnce(m: Heap, env: Env, q: Request, pol: Policy, met: nat, o: Outcome)
    requires Inv(m) && Wf(env.b) && 0 < Need(q) < m.limit && o == Allochblk(m, env, q, pol, met) && pol.useAll && o.r == 0
    ensures o.met == met + |set x: nat | x < |m.lay| && Hopeless(m.lay, env, q, x)|
  {
    hide Inv, AllocFrom, TryLists, Bin, Searched, Hopeless, HopelessOn, HopelessBetween, FreeHeads, Blocks;
    var start := Bin(Need(q));
    var u := AllocNth(m, env, q, start, No, met);
    InvFacts(m);
    AllocFromKeeps(m, env, q, start, m.lists[start], No, met, u);
    FromCounts(m, env, q, start, m.lists[start], No, met, u);
    SearchedInv(m, u.m, q, 0);
    ListsCount(u.m, env, q, NextList(start), N_HBLK_FLS, Yes, u.met, o);
    AllHopeless(m, env, q);
    if Need(q) == 1 {
      OnePage();
      OneList(m, env, q, 1, No);
      OthersSame(m, u.m, env, q, 1, N_HBLK_FLS);
      MoreLists(m.lay, env, q, 1, 1, N_HBLK_FLS);
    } else {
      NeverHopeless(m.lay, env, q, m.lists[start], NextList(start), N_HBLK_FLS);
      NeverHopeless(u.m.lay, env, q, m.lists[start], NextList(start), N_HBLK_FLS);
      NeverHopeless(m.lay, env, q, m.lists[start], 1, N_HBLK_FLS);
    }
  }

  lemma OnePage()
    ensures Bin(1) == 1 && NextList(1) == 2
  {}

  lemma AllHopeless(m: Heap, env: Env, q: Request)
    requires Inv(m) && Wf(env.b)
    ensures HopelessBetween(m.lay, env, q, 1, N_HBLK_FLS) == set x: nat | x < |m.lay| && Hopeless(m.lay, env, q, x)
  {
    hide Usable, Blocks, Untested, Punts, Sound, FreePages;
    InvShapes(m);
    forall x: nat | x < |m.lay| && Hopeless(m.lay, env, q, x) ensures 1 <= Bin(m.lay[x].pages) <= N_HBLK_FLS {
      assert BlockAt(m.lay, x);
      BinMonotone(1, m.lay[x].pages);
    }
  }

  lemma NeverHopeless(lay: seq<Cell>, env: Env, q: Request, es: seq<nat>, lo: nat, hi: nat)
    requires Wf(env.b) && Blocks(q.sz) != 1
    ensures HopelessOn(lay, env, q, es, No) == {} && HopelessBetween(lay, env, q, lo, hi) == {}
  {
    hide Usable, Blocks, Untested, Punts, Bin;
  }
}
