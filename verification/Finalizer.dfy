/** gc/finalize.c as it works: hash chains are gone through and entries unlinked, the marker is run from each
    finalizable object, objects are moved to the queue finalize_now. */
module FinalizerObject {
  import opened MarkModel
  import opened MarkInvariant
  import opened MarkTheorems
  import opened FinalizeModel
  import opened MarkerObject

  class Finalizer {
    const marker: Marker
    var dlHead: array<seq<Link>>     // GC_dl_hashtbl.head, chain by chain
    var llHead: array<seq<Link>>     // GC_ll_hashtbl.head
    var foHead: array<seq<Obj>>      // GC_fnlz_roots.fo_head
    var finalizeNow: seq<Obj>

    ghost predicate Valid()
      reads this, marker
    {
      marker.Valid() && dlHead != llHead
    }

    ghost function View(): Fin
      requires marker.Valid()
      reads this, marker, marker.stack, dlHead, llHead, foHead
    {
      Fin(marker.View(), dlHead[..], llHead[..], foHead[..], finalizeNow)
    }

    constructor (m: Marker, size: nat)
      requires m.Valid()
      ensures Valid() && marker == m && fresh(dlHead) && fresh(llHead) && fresh(foHead)
      ensures dlHead.Length == llHead.Length == foHead.Length == size && finalizeNow == []
      ensures forall i :: 0 <= i < size ==> dlHead[i] == [] && llHead[i] == [] && foHead[i] == []
    {
      marker := m;
      dlHead := new seq<Link>[size](_ => []);
      llHead := new seq<Link>[size](_ => []);
      foHead := new seq<Obj>[size](_ => []);
      finalizeNow := [];
    }

    /** The inner loop of GC_make_disappearing_links_disappear, for one chain. */
    method DisappearInChain(chain: seq<Link>, dangling: bool) returns (kept: seq<Link>)
      requires marker.Valid()
      modifies marker`world
      ensures marker.Valid() && kept == Kept(marker.marks, chain, dangling)
      ensures marker.world == if dangling then old(marker.world) else Cleared(old(marker.world), marker.marks, chain)
    {
      hide Kept, Cleared, ClearLoc;
      kept := [];
      var rest := chain;
      assert kept + Kept(marker.marks, rest, dangling) == Kept(marker.marks, chain, dangling);
      while rest != []
        invariant kept + Kept(marker.marks, rest, dangling) == Kept(marker.marks, chain, dangling)
        invariant if dangling then marker.world == old(marker.world)
                  else Cleared(marker.world, marker.marks, rest) == Cleared(old(marker.world), marker.marks, chain)
        decreases |rest|
      {
        var curr := rest[0];
        ChainStep(marker.world, marker.marks, rest, dangling, kept);
        if dangling {
          if !curr.loc.InObject? || curr.loc.o in marker.marks { kept := kept + [curr]; }
        } else if curr.obj in marker.marks {
          kept := kept + [curr];
        } else {
          marker.world := ClearLoc(marker.world, curr.loc);
        }
        rest := rest[1..];
      }
      ChainEnd(marker.world, marker.marks, rest, dangling, kept);
    }

    /** GC_make_disappearing_links_disappear */
    method MakeLinksDisappear(head: array<seq<Link>>, dangling: bool)
      requires marker.Valid()
      modifies marker`world, head
      ensures marker.Valid() && head[..] == KeptTable(marker.marks, old(head[..]), dangling)
      ensures marker.world == if dangling then old(marker.world) else ClearedTable(old(marker.world), marker.marks, old(head[..]), 0)
    {
      for i := 0 to head.Length
        invariant marker.Valid()
        invariant forall k :: 0 <= k < i ==> head[k] == Kept(marker.marks, old(head[..])[k], dangling)
        invariant forall k :: i <= k < head.Length ==> head[k] == old(head[..])[k]
        invariant if dangling then marker.world == old(marker.world)
                  else ClearedTable(marker.world, marker.marks, old(head[..]), i) == ClearedTable(old(marker.world), marker.marks, old(head[..]), 0)
      {
        head[i] := DisappearInChain(head[i], dangling);
      }
    }

    /** GC_MARK_FO */
    method MarkFo(o: Obj, ok: (Obj, nat) -> bool)
      requires marker.Valid() && Complete(Clean(marker.View())) && MarkModel.Valid(marker.world, o)
      modifies marker, marker.stack
      ensures marker.Valid() && (marker.stack == old(marker.stack) || fresh(marker.stack))
      ensures Clean(marker.View()) == FinalizeModel.MarkFo(old(Clean(marker.View())), o, ok)
      ensures marker.dirty == old(marker.dirty) && marker.rootDirty == old(marker.rootDirty)
    {
      hide Drain, StopInv, WF, MarkModel.PushObj, MarkModel.MarkSome, MarkFromStack, MarkAll, Unmarked, Rank, BlocksLeft, Work;
      MarkFoReady(Clean(marker.View()), o);
      CleanPushObj(marker.View(), o);
      marker.PushObj(o);
      ghost var u := Clean(marker.View());
      while marker.top > 0
        invariant marker.Valid() && marker.stack == old(marker.stack) && WF(Clean(marker.View()))
        invariant marker.dirty == old(marker.dirty) && marker.rootDirty == old(marker.rootDirty)
        invariant Drain(Clean(marker.View())) == Drain(u)
        decreases Unmarked(Clean(marker.View())), Work(marker.world, marker.View().stack)
      {
        DrainStep(Clean(marker.View()));
        CleanMarkFromStack(marker.View());
        marker.MarkFromMarkStack();
      }
      DrainEnd(Clean(marker.View()));
      if marker.state != None {
        marker.marks := marker.marks + {o};
        ghost var restart := Clean(marker.View());
        ghost var f := OkFor(ok, o);
        var i := 0;
        var done := false;
        while !done
          invariant marker.Valid() && (marker.stack == old(marker.stack) || fresh(marker.stack))
          invariant marker.dirty == old(marker.dirty) && marker.rootDirty == old(marker.rootDirty)
          invariant StopInv(Clean(marker.View())) && (done <==> marker.state == None)
          invariant MarkAll(Clean(marker.View()), f, i) == MarkAll(restart, f, 0)
          decreases !done, Unmarked(Clean(marker.View())), Rank(Clean(marker.View())), BlocksLeft(Clean(marker.View())),
            Work(marker.world, marker.View().stack)
        {
          MarkAllStep(Clean(marker.View()), f, i);
          CleanMarkSome(marker.View(), OtherRoots(marker.world), ok(o, i));
          done := marker.MarkSome(OtherRoots(marker.world), ok(o, i));
          i := i + 1;
        }
        MarkAllDone(Clean(marker.View()), f, i);
      }
    }

    /** The marking pass of GC_finalize over one chain. */
    method MarkFromChain(chain: seq<Obj>, ok: (Obj, nat) -> bool)
      requires marker.Valid() && Complete(Clean(marker.View())) && ChainValid(marker.world, chain)
      modifies marker, marker.stack
      ensures marker.Valid() && (marker.stack == old(marker.stack) || fresh(marker.stack))
      ensures Clean(marker.View()) == MarkChain(old(Clean(marker.View())), chain, ok)
      ensures marker.dirty == old(marker.dirty) && marker.rootDirty == old(marker.rootDirty)
    {
      hide Complete, FinalizeModel.MarkFo, TargetsMarked;
      ghost var s := Clean(marker.View());
      var rest := chain;
      while rest != []
        invariant marker.Valid() && (marker.stack == old(marker.stack) || fresh(marker.stack))
        invariant marker.dirty == old(marker.dirty) && marker.rootDirty == old(marker.rootDirty)
        invariant Complete(Clean(marker.View())) && ChainValid(marker.world, rest)
        invariant MarkChain(Clean(marker.View()), rest, ok) == MarkChain(s, chain, ok)
        decreases |rest|
      {
        var curr := rest[0];
        if curr !in marker.marks {
          MarkFoCompletes(Clean(marker.View()), curr, ok);
          MarkFo(curr, ok);
        }
        rest := rest[1..];
      }
    }

    /** The queueing pass of GC_finalize over one chain. */
    method EnqueueChain(chain: seq<Obj>) returns (kept: seq<Obj>)
      requires marker.Valid()
      modifies marker`marks, this`finalizeNow
      ensures marker.Valid()
      ensures var r := Enqueue(old(marker.marks), chain, old(finalizeNow)); marker.marks == r.0 && kept == r.1 && finalizeNow == r.2
    {
      ghost var target := Enqueue(marker.marks, chain, finalizeNow);
      kept := [];
      var rest := chain;
      while rest != []
        invariant var r := Enqueue(marker.marks, rest, finalizeNow);
          r.0 == target.0 && kept + r.1 == target.1 && r.2 == target.2
        decreases |rest|
      {
        var curr := rest[0];
        if curr !in marker.marks {
          marker.marks := marker.marks + {curr};
          finalizeNow := [curr] + finalizeNow;
        } else {
          kept := kept + [curr];
        }
        rest := rest[1..];
      }
    }

    /** The loops of GC_finalize over the table of finalizable objects. */
    method MarkFromAll(ok: (Obj, nat) -> bool)
      requires marker.Valid() && Complete(Clean(marker.View())) && AllValid(marker.world, foHead[..])
      modifies marker, marker.stack
      ensures marker.Valid() && (marker.stack == old(marker.stack) || fresh(marker.stack))
      ensures Clean(marker.View()) == MarkTable(old(Clean(marker.View())), foHead[..], 0, ok)
      ensures marker.dirty == old(marker.dirty) && marker.rootDirty == old(marker.rootDirty)
    {
      hide Complete, MarkChain, TargetsMarked, ChainValid;
      ghost var s, t := Clean(marker.View()), foHead[..];
      for i := 0 to foHead.Length
        invariant marker.Valid() && (marker.stack == old(marker.stack) || fresh(marker.stack))
        invariant marker.dirty == old(marker.dirty) && marker.rootDirty == old(marker.rootDirty)
        invariant Complete(Clean(marker.View())) && AllValid(marker.world, t) && foHead[..] == t
        invariant MarkTable(Clean(marker.View()), t, i, ok) == MarkTable(s, t, 0, ok)
      {
        assert ChainValid(marker.world, t[i]);
        MarkChainCompletes(Clean(marker.View()), t[i], ok);
        MarkFromChain(foHead[i], ok);
      }
    }

    method EnqueueAll()
      requires marker.Valid()
      modifies marker`marks, this`finalizeNow, foHead
      ensures marker.Valid()
      ensures var r := EnqueueTable(old(marker.marks), old(foHead[..]), old(finalizeNow));
        marker.marks == r.0 && foHead[..] == r.1 && finalizeNow == r.2
    {
      hide Enqueue, EnqueueTable;
      ghost var t := foHead[..];
      ghost var target := EnqueueTable(marker.marks, t, finalizeNow);
      assert t[0..] == t;
      for i := 0 to foHead.Length
        invariant marker.Valid() && forall k :: i <= k < foHead.Length ==> foHead[k] == t[k]
        invariant var r := EnqueueTable(marker.marks, t[i..], finalizeNow);
          r.0 == target.0 && foHead[..i] + r.1 == target.1 && r.2 == target.2
      {
        EnqueueStep(marker.marks, t[i..], finalizeNow);
        assert t[i..][1..] == t[i + 1..];
        ghost var before := foHead[..i];
        foHead[i] := EnqueueChain(foHead[i]);
        assert foHead[..i + 1] == before + [foHead[i]];
      }
      EnqueueStep(marker.marks, t[foHead.Length..], finalizeNow);
    }

    /** GC_finalize */
    method Finalize(ok: (Obj, nat) -> bool)
      requires Valid() && Ready(View())
      modifies this, marker, marker.stack, dlHead, llHead, foHead
      ensures Valid() && View() == FinalizeModel.Finalize(old(View()), ok)
    {
      hide Complete, AllValid, MarkTable, EnqueueTable, KeptTable, ClearedTable;
      ghost var f := View();
      UnlinkedComplete(f);
      MakeLinksDisappear(dlHead, false);
      assert marker.View() == Unlinked(f);
      MarkFromAll(ok);
      EnqueueAll();
      MakeLinksDisappear(dlHead, true);
      MakeLinksDisappear(llHead, false);
      MakeLinksDisappear(llHead, true);
    }
  }

  // ----------------------------------- what the marker does outside of the search for rescuers ignores new dirty bits

  lemma CleanPushObj(s: S, o: Obj)
    ensures MarkModel.PushObj(Clean(s), o) == Clean(MarkModel.PushObj(s, o))
  {}

  lemma {:induction false} CleanPushCells(s: S, cells: seq<Cell>)
    ensures PushCells(Clean(s), cells) == Clean(PushCells(s, cells))
    decreases cells
  {
    if cells != [] { CleanPushCells(MarkModel.PushContents(s, cells[0]), cells[1..]); }
  }

  lemma CleanScanTop(s: S)
    requires s.stack != []
    ensures ScanTop(Clean(s)) == Clean(ScanTop(s)) && Span(Clean(s)) == Span(s)
  {
    hide PushCells, Cells;
    CleanPushCells(TopRest(s), TopPart(s));
  }

  lemma {:induction false} CleanMarkFrom(s: S, credit: int)
    ensures MarkFrom(Clean(s), credit) == Clean(MarkFrom(s, credit))
    decreases if credit < 0 then 0 else credit + 1, |s.stack|
  {
    hide ScanTop, Span;
    if s.stack != [] && 0 <= credit {
      CleanScanTop(s);
      ScanTopShorter(s);
      CleanMarkFrom(ScanTop(s), credit - Span(s));
    }
  }

  lemma CleanMarkFromStack(s: S)
    ensures MarkFromStack(Clean(s)) == Clean(MarkFromStack(s))
  {
    CleanMarkFrom(s.(objsMarked := true), PAGE_WORDS);
  }

  lemma {:induction false} CleanPushMarkedFrom(s: S, b: nat, i: nat)
    requires b < |s.w.blocks|
    ensures PushMarkedFrom(Clean(s), b, i) == Clean(PushMarkedFrom(s, b, i))
    decreases s.w.blocks[b].objs - i
  {
    if i < s.w.blocks[b].objs {
      CleanPushMarkedFrom(if Obj(b, i) in s.marks then MarkModel.PushObj(s, Obj(b, i)) else s, b, i + 1);
    }
  }

  lemma {:induction false} CleanNextChosen(s: S, f: Filter, k: nat)
    ensures NextChosen(Clean(s), f, k) == NextChosen(s, f, k)
    decreases |s.w.blocks| - k
  {
    if k < |s.w.blocks| { CleanNextChosen(s, f, k + 1); }
  }

  lemma CleanPushNext(s: S, f: Filter)
    ensures PushNext(Clean(s), f) == Clean(PushNext(s, f))
  {
    CleanNextChosen(s, f, s.scan);
    var b := NextChosen(s, f, s.scan);
    if b < |s.w.blocks| { CleanPushMarkedFrom(s.(objsMarked := true), b, 0); }
  }

  lemma {:induction false} CleanPushRoots(s: S, rs: seq<nat>)
    ensures MarkModel.PushRoots(Clean(s), rs) == Clean(MarkModel.PushRoots(s, rs))
    decreases rs
  {
    if rs != [] {
      CleanPushCells(s, Cells(s.w, Root(rs[0])));
      CleanPushRoots(MarkModel.PushRoot(s, rs[0]), rs[1..]);
    }
  }

  lemma {:induction false} CleanStaticPages(s: S, n: nat)
    ensures StaticPages(Clean(s), n) == StaticPages(s, n)
  {
    if n > 0 { CleanStaticPages(s, n - 1); }
  }

  lemma CleanRootsAndAdvance(s: S, rs: seq<nat>)
    ensures MarkModel.RootsAndAdvance(Clean(s), rs) == Clean(MarkModel.RootsAndAdvance(s, rs))
  {
    hide MarkModel.PushRoots, StaticPages;
    CleanStaticPages(s, s.w.statics);
    CleanPushRoots(s, StaticPages(s, s.w.statics) + rs);
  }

  lemma CleanScan(s: S, f: Filter, rs: seq<nat>)
    ensures PushNext(Clean(s), f) == Clean(PushNext(s, f))
    ensures MarkModel.RootsAndAdvance(PushNext(Clean(s), f), rs) == Clean(MarkModel.RootsAndAdvance(PushNext(s, f), rs))
  {
    hide PushNext, MarkModel.RootsAndAdvance;
    CleanPushNext(s, f);
    CleanRootsAndAdvance(PushNext(s, f), rs);
  }

  lemma CleanInvalid(s: S, rs: seq<nat>, ok: bool)
    requires s.state == Invalid || s.state == PartiallyInvalid
    ensures MarkModel.MarkSome(Clean(s), rs, ok).0 == Clean(MarkModel.MarkSome(s, rs, ok).0)
  {
    hide MarkFromStack, PushNext, MarkModel.RootsAndAdvance;
    if s.objsMarked && s.stack != [] {
      CleanMarkFromStack(s);
    } else if s.objsMarked {
      CleanScan(if s.scan == 0 && s.state == Invalid then Grow(s, ok).(state := PartiallyInvalid) else s, AnyAllocated, rs);
    }
  }

  /** No call of GC_mark_some looks at the dirty bits that have been set since they were last fetched. */
  lemma CleanMarkSome(s: S, rs: seq<nat>, ok: bool)
    ensures MarkModel.MarkSome(Clean(s), rs, ok) == (Clean(MarkModel.MarkSome(s, rs, ok).0), MarkModel.MarkSome(s, rs, ok).1)
  {
    hide MarkFromStack, PushNext, MarkModel.RootsAndAdvance;
    match s.state
    case None =>
    case PushRescuers =>
      CleanMarkFromStack(s.(tooSmall := true));
      CleanScan(s, OnlyGrungy, rs);
    case PushUncollectable =>
      CleanMarkFromStack(s);
      CleanScan(s, OnlyUncollectable, rs);
    case RootsPushed => CleanMarkFromStack(s);
    case _ => CleanInvalid(s, rs, ok);
  }

  lemma EnqueueStep(marks: set<Obj>, t: seq<seq<Obj>>, now: seq<Obj>)
    ensures EnqueueTable(marks, t, now) == if t == [] then (marks, [], now) else
      var a := Enqueue(marks, t[0], now);
      var b := EnqueueTable(a.0, t[1..], a.2);
      (b.0, [a.1] + b.1, b.2)
  {}

  lemma DrainStep(s: S)
    requires WF(s) && s.stack != []
    ensures WF(MarkFromStack(s)) && Drain(s) == Drain(MarkFromStack(s))
    ensures var t := MarkFromStack(s);
      Unmarked(t) < Unmarked(s) || (Unmarked(t) == Unmarked(s) && Work(t.w, t.stack) < Work(s.w, s.stack))
  {
    DrainProgress(s);
  }

  lemma DrainEnd(s: S)
    requires WF(s) && s.stack == []
    ensures Drain(s) == s
  {}

  lemma MarkAllStep(s: S, ok: nat -> bool, i: nat)
    requires StopInv(s) && s.state != None
    ensures var r := MarkModel.MarkSome(s, OtherRoots(s.w), ok(i));
      && StopInv(r.0) && MarkAll(s, ok, i) == MarkAll(r.0, ok, i + 1) && (r.1 <==> r.0.state == None) && Nearer(r.0, s)
  {
    hide MarkModel.MarkSome, Inv, Nearer, Unmarked, Rank, BlocksLeft, Work, RootsCovered;
    MarkSomeStopped(s, ok(i));
    MarkSomeProgress(s, OtherRoots(s.w), ok(i));
    EndsWhenDone(s, ok(i));
  }

  lemma EndsWhenDone(s: S, ok: bool)
    requires Inv(s) && s.state != None
    ensures MarkModel.MarkSome(s, OtherRoots(s.w), ok).1 <==> MarkModel.MarkSome(s, OtherRoots(s.w), ok).0.state == None
  {
    hide MarkModel.MarkSome;
    Shape(s, OtherRoots(s.w), ok);
    if MoveOf(s).Marks? { MarkFromStackKeeps(s.(tooSmall := s.tooSmall || s.state == PushRescuers)); }
    if MoveOf(s).Scans? { ScanEndFacts(ScanStart(s, ok), ScanFilter(s), OtherRoots(s.w)); }
  }

  lemma ChainStep(w: World, marks: set<Obj>, rest: seq<Link>, dangling: bool, kept: seq<Link>)
    requires rest != []
    ensures kept + Kept(marks, rest, dangling) ==
            (if Stays(marks, rest[0], dangling) then kept + [rest[0]] else kept) + Kept(marks, rest[1..], dangling)
    ensures Cleared(w, marks, rest) ==
            Cleared(if Stays(marks, rest[0], false) then w else ClearLoc(w, rest[0].loc), marks, rest[1..])
  {
    hide ClearLoc;
  }

  lemma ChainEnd(w: World, marks: set<Obj>, rest: seq<Link>, dangling: bool, kept: seq<Link>)
    requires rest == []
    ensures kept + Kept(marks, rest, dangling) == kept && Cleared(w, marks, rest) == w
  {}

  lemma MarkAllDone(s: S, ok: nat -> bool, i: nat)
    requires StopInv(s) && s.state == None
    ensures MarkAll(s, ok, i) == s
  {}
}
