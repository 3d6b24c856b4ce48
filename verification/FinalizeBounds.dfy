/** GC_finalize from the other side: nothing is marked without reason, so exactly those unmarked finalizable objects are
    queued that no unmarked finalizable object leads to. */
module FinalizeBounds {
  import opened MarkModel
  import opened MarkInvariant
  import opened MarkTheorems
  import opened FinalizeModel
  import opened FinalizeTheorems

  // ------------------------------------------------------------- what one object leads to

  ghost predicate LeadsTo(w: World, o: Obj, q: Obj) { exists p :: Leads(w, p, o, q) }

  /** What o points to. */
  ghost function Pointees(w: World, o: Obj): set<Obj> { set q | q in Objects(w) && Points(w, InHeap(o), q) }

  lemma PointsInside(w: World, a: Area, q: Obj)
    requires Points(w, a, q)
    ensures q in Objects(w)
  {
    assert q == Obj(q.blk, q.idx);
  }

  /** A path that begins at a marked object or at a root stays among marked objects. */
  lemma {:induction false} StaysMarked(s: S, p: seq<Obj>, k: nat)
    requires Complete(s) && k < |p| && p[0] in s.marks
    requires forall i :: 0 <= i < |p| - 1 ==> Points(s.w, InHeap(p[i]), p[i + 1])
    ensures p[k] in s.marks
  {
    hide Points, TargetsMarked;
    if k > 0 {
      StaysMarked(s, p, k - 1);
      CompleteTargets(s, p[k - 1]);
      MarkedTarget(s, p[k - 1], p[k - 1 + 1]);
    }
  }

  lemma MarkedTarget(s: S, o: Obj, q: Obj)
    requires TargetsMarked(s, o) && Points(s.w, InHeap(o), q)
    ensures q in s.marks
  {}

  lemma RootsMarked(s: S, q: Obj)
    requires Complete(s) && FromRoots(s.w, q)
    ensures q in s.marks
  {
    var r: nat :| r < |s.w.roots| && Points(s.w, Root(r), q);
    assert AllRoots(s.w)[r] == r;
    CoveredTargetMarked(s, Root(r), q);
  }

  /** What can be reached from marked objects and from what o points to (and from o itself). */
  lemma ReachedMeans(s: S, o: Obj, base: set<Obj>, q: Obj)
    requires Complete(s) && Reachable(s.w, base, q)
    requires forall x :: x in base ==> x in s.marks || x == o || Points(s.w, InHeap(o), x)
    ensures q in s.marks || LeadsTo(s.w, o, q) || (q == o && o in base && o !in Pointees(s.w, o))
  {
    hide Points, Complete, FromRoots;
    var p :| IsPath(s.w, base, p) && p[|p| - 1] == q;
    if FromRoots(s.w, p[0]) { RootsMarked(s, p[0]); }
    if p[0] in s.marks { StaysMarked(s, p, |p| - 1); }
    else if p[0] == o {
      if |p| > 1 { assert Leads(s.w, p, o, q); }
      else if o in Pointees(s.w, o) { assert Leads(s.w, [o, o], o, o); }
    } else {
      var r := [o] + p;
      forall k | 0 <= k < |r| - 1 ensures Points(s.w, InHeap(r[k]), r[k + 1]) {
        if k > 0 { assert r[k] == p[k - 1] && r[k + 1] == p[k - 1 + 1]; }
      }
      assert Leads(s.w, r, o, q);
    }
  }

  // ------------------------------------------------------------------------- GC_MARK_FO

  lemma {:induction false} DrainOnly(s: S, base: set<Obj>)
    requires WF(s) && OnlyReachable(s, base)
    ensures OnlyReachable(Drain(s), base)
    decreases Unmarked(s), Work(s.w, s.stack)
  {
    hide OnlyReachable, Unmarked, Work;
    if s.stack != [] {
      DrainProgress(s);
      var u := s.(objsMarked := true);
      SameOnly(s, u, base);
      MarkFromOnly(u, base, PAGE_WORDS);
      DrainOnly(MarkFromStack(s), base);
    }
  }

  lemma SameOnly(s: S, t: S, base: set<Obj>)
    requires OnlyReachable(s, base) && t.w == s.w && t.marks == s.marks && t.stack == s.stack
    ensures OnlyReachable(t, base)
  {
    hide Reachable, OnlyLeads;
  }

  lemma InBase(w: World, base: set<Obj>, o: Obj)
    requires o in base
    ensures Reachable(w, base, o)
  {
    assert IsPath(w, base, [o]) && [o][|[o]| - 1] == o;
  }

  /** The start of GC_MARK_FO. */
  lemma PushedOnly(s: S, o: Obj)
    requires Complete(s)
    ensures OnlyReachable(PushObj(s, o), s.marks + Pointees(s.w, o))
  {
    hide Points, Reachable;
    var base := s.marks + Pointees(s.w, o);
    forall x | x in s.marks ensures Reachable(s.w, base, x) { InBase(s.w, base, x); }
    forall q | Points(s.w, InHeap(o), q) ensures Reachable(s.w, base, q) {
      PointsInside(s.w, InHeap(o), q);
      InBase(s.w, base, q);
    }
    NoStack(s);
    PushObjOnly(s, base, o);
  }

  lemma NoStack(s: S)
    requires Complete(s)
    ensures s.stack == []
  {}

  /** Has the mark stack overflowed when marking went from o? */
  ghost predicate Overflows(s: S, o: Obj)
    requires Complete(s) && Valid(s.w, o)
  {
    MarkFoReady(s, o);
    Drain(PushObj(s, o)).state != None
  }

  lemma {:induction false} MoreBase(w: World, base: set<Obj>, more: set<Obj>, q: Obj)
    requires Reachable(w, base, q) && base <= more
    ensures Reachable(w, more, q)
  {
    var p :| IsPath(w, base, p) && p[|p| - 1] == q;
    assert IsPath(w, more, p);
  }

  /** GC_MARK_FO marks what the object leads to and nothing else; the object itself only if it leads to itself, or the mark
      stack has overflowed. */
  lemma MarkFoOnly(s: S, o: Obj, ok: (Obj, nat) -> bool, q: Obj)
    requires Complete(s) && Valid(s.w, o) && q in MarkFo(s, o, ok).marks
    ensures q in s.marks || LeadsTo(s.w, o, q) || (q == o && Overflows(s, o))
  {
    hide Complete, WF, Drain, PushObj, MarkAll, OnlyReachable, Reachable, StopInv, LeadsTo, Points;
    MarkFoReady(s, o);
    PushedOnly(s, o);
    PushedWf(s, o);
    var base := s.marks + Pointees(s.w, o);
    var t := Drain(PushObj(s, o));
    DrainOnly(PushObj(s, o), base);
    if t.state == None {
      MarkedReachable(t, base, q);
      ReachedMeans(s, o, base, q);
    } else {
      var more := base + {o};
      var t1 := t.(marks := t.marks + {o});
      RestartOnly(t, base, o);
      MarkAllEnds(t1, more, OkFor(ok, o), 0);
      MarkedReachable(MarkAll(t1, OkFor(ok, o), 0), more, q);
      ReachedMeans(s, o, more, q);
    }
  }

  lemma PushedWf(s: S, o: Obj)
    requires Complete(s) && Valid(s.w, o)
    ensures WF(PushObj(s, o)) && PushObj(s, o).w == s.w && Drain(PushObj(s, o)).w == s.w
    ensures Drain(PushObj(s, o)).cap == s.cap && s.marks <= Drain(PushObj(s, o)).marks
  {
    hide Drain;
    PushOne(s, o);
    DrainKeeps(PushObj(s, o));
  }

  lemma MarkedReachable(s: S, base: set<Obj>, q: Obj)
    requires OnlyReachable(s, base) && q in s.marks
    ensures Reachable(s.w, base, q)
  {}

  lemma RestartOnly(t: S, base: set<Obj>, o: Obj)
    requires OnlyReachable(t, base)
    ensures OnlyReachable(t.(marks := t.marks + {o}), base + {o})
  {
    hide Reachable, Points;
    var more := base + {o};
    forall x | x in t.marks + {o} ensures Reachable(t.w, more, x) {
      if x == o { InBase(t.w, more, o); } else { MoreBase(t.w, base, more, x); }
    }
    forall e | e in t.stack ensures OnlyLeads(t.w, more, e.area) {
      forall q | Points(t.w, e.area, q) ensures Reachable(t.w, more, q) { MoreBase(t.w, base, more, q); }
    }
  }

  // ------------------------------------------------------------------- a stack that is large enough

  /** Room for everything that is not marked yet, besides what is on the stack. */
  predicate Fits(s: S) { |s.stack| + |Unmarked(s)| <= s.cap }

  /** Marking goes on without overflow. */
  predicate NoLoss(s: S, t: S) { Fits(t) && t.state == s.state && t.w == s.w && t.cap == s.cap }

  lemma OneLess(s: S, q: Obj)
    requires MarkModel.Valid(s.w, q) && q !in s.marks
    ensures |Unmarked(s.(marks := s.marks + {q}))| == |Unmarked(s)| - 1
  {
    assert q == Obj(q.blk, q.idx);
    assert Unmarked(s.(marks := s.marks + {q})) == Unmarked(s) - {q};
  }

  lemma PushObjFits(s: S, o: Obj)
    requires |s.stack| < s.cap
    ensures var t := PushObj(s, o); t == s.(stack := t.stack) && |t.stack| <= |s.stack| + 1
  {}

  lemma PushContentsFits(s: S, c: Cell)
    requires Fits(s)
    ensures NoLoss(s, PushContents(s, c))
  {
    hide Unmarked, PushObj;
    if c.Ref? && MarkModel.Valid(s.w, c.target) && c.target !in s.marks {
      OneLess(s, c.target);
      var u := s.(marks := s.marks + {c.target});
      PushObjFits(u, c.target);
      SameUnmarked(u, PushObj(u, c.target));
    }
  }

  lemma {:induction false} PushCellsFits(s: S, cells: seq<Cell>)
    requires Fits(s)
    ensures NoLoss(s, PushCells(s, cells))
    decreases cells
  {
    hide Unmarked, PushContents;
    if cells != [] {
      PushContentsFits(s, cells[0]);
      PushCellsFits(PushContents(s, cells[0]), cells[1..]);
    }
  }

  lemma ScanTopFits(s: S)
    requires s.stack != [] && Fits(s)
    ensures NoLoss(s, ScanTop(s))
  {
    hide Unmarked, PushCells;
    SameUnmarked(s, TopRest(s));
    PushCellsFits(TopRest(s), TopPart(s));
  }

  lemma {:induction false} MarkFromFits(s: S, credit: int)
    requires Fits(s)
    ensures NoLoss(s, MarkFrom(s, credit))
    decreases if credit < 0 then 0 else credit + 1, |s.stack|
  {
    hide Unmarked, ScanTop, Span;
    if s.stack != [] && 0 <= credit {
      ScanTopFits(s);
      ScanTopShorter(s);
      MarkFromFits(ScanTop(s), credit - Span(s));
    }
  }

  lemma {:induction false} DrainFits(s: S)
    requires WF(s) && Fits(s)
    ensures NoLoss(s, Drain(s))
    decreases Unmarked(s), Work(s.w, s.stack)
  {
    hide WF, Unmarked, Work;
    if s.stack != [] {
      DrainProgress(s);
      var u := s.(objsMarked := true);
      SameUnmarked(s, u);
      MarkFromFits(u, PAGE_WORDS);
      DrainFits(MarkFromStack(s));
    }
  }

  lemma FewerLeft(s: S, t: S)
    requires t.w == s.w && s.marks <= t.marks
    ensures |Unmarked(t)| <= |Unmarked(s)|
  {
    assert Unmarked(t) <= Unmarked(s);
    SmallerSet(Unmarked(t), Unmarked(s));
  }

  lemma {:induction false} SmallerSet<T>(a: set<T>, b: set<T>)
    requires a <= b
    ensures |a| <= |b|
  {
    assert b == a + (b - a);
  }

  /** With a stack larger than the number of unmarked objects marking from an object does not overflow. */
  lemma NeverOverflows(s: S, o: Obj)
    requires Complete(s) && MarkModel.Valid(s.w, o) && |Unmarked(s)| < s.cap
    ensures !Overflows(s, o)
  {
    hide Complete, Unmarked, Drain, PushObj, WF;
    PushedWf(s, o);
    NoStack(s);
    PushObjFits(s, o);
    NoState(s);
    SameUnmarked(s, PushObj(s, o));
    DrainFits(PushObj(s, o));
  }

  lemma NoState(s: S)
    requires Complete(s)
    ensures s.state == None
  {}

  // ------------------------------------------------------------------- the whole marking pass

  /** Why an object is marked after a pass over the objects `os`: it was before; an unmarked one of them leads to it; or it
      is one of them, and the mark stack overflowed when it was marked from. */
  ghost predicate Justified(s: S, os: iset<Obj>, q: Obj) {
    || q in s.marks
    || (exists x :: x in os && x !in s.marks && LeadsTo(s.w, x, q))
    || (q in os && OverflowsLater(s, q))
  }

  /** At some stage of the marking after s the mark stack overflows on o. */
  ghost predicate OverflowsLater(s: S, o: Obj) {
    exists u :: After(s, u) && MarkModel.Valid(u.w, o) && Overflows(u, o)
  }

  ghost predicate After(s: S, u: S) { Complete(u) && u.w == s.w && s.marks <= u.marks && s.cap <= u.cap }

  ghost function All(c: seq<Obj>): iset<Obj> { iset o | o in c }

  /** One pass after another. */
  lemma JustifiedTrans(s: S, v: S, first: iset<Obj>, second: iset<Obj>, os: iset<Obj>, q: Obj)
    requires After(s, v) && Justified(v, second, q)
    requires q in v.marks ==> Justified(s, first, q)
    requires first <= os && second <= os
    ensures Justified(s, os, q)
  {
    hide Complete, Overflows, LeadsTo;
    if q !in v.marks && q in second && OverflowsLater(v, q) {
      var u :| After(v, u) && MarkModel.Valid(u.w, q) && Overflows(u, q);
      assert After(s, u);
    }
  }

  lemma MarkFoAfter(s: S, o: Obj, ok: (Obj, nat) -> bool)
    requires Complete(s) && MarkModel.Valid(s.w, o)
    ensures After(s, MarkFo(s, o, ok))
  {
    hide Complete, WF, Drain, PushObj, MarkAll, StopInv;
    MarkFoCompletes(s, o, ok);
    MarkFoReady(s, o);
    PushedWf(s, o);
    var t := Drain(PushObj(s, o));
    if t.state != None { MarkAllEnds(t.(marks := t.marks + {o}), {}, OkFor(ok, o), 0); }
  }

  lemma MarkFoJustified(s: S, o: Obj, ok: (Obj, nat) -> bool, q: Obj)
    requires Complete(s) && MarkModel.Valid(s.w, o) && o !in s.marks && q in MarkFo(s, o, ok).marks
    ensures Justified(s, iset{o}, q)
  {
    hide Complete, MarkFo, LeadsTo, Overflows;
    MarkFoOnly(s, o, ok, q);
    if q !in s.marks && !LeadsTo(s.w, o, q) { assert After(s, s); }
  }

  lemma {:induction false} MarkChainJustified(s: S, c: seq<Obj>, ok: (Obj, nat) -> bool, q: Obj)
    requires Complete(s) && ChainValid(s.w, c)
    ensures After(s, MarkChain(s, c, ok)) && (q in MarkChain(s, c, ok).marks ==> Justified(s, All(c), q))
    decreases |c|
  {
    hide Complete, MarkFo, Justified, TargetsMarked;
    if c == [] { SelfJustified(s, All(c), q); }
    else if c[0] in s.marks {
      MarkChainJustified(s, c[1..], ok, q);
      if q in MarkChain(s, c, ok).marks { MoreJustified(s, All(c[1..]), All(c), q); }
    } else {
      var t := MarkFo(s, c[0], ok);
      MarkFoAfter(s, c[0], ok);
      MarkChainJustified(t, c[1..], ok, q);
      if q in MarkChain(s, c, ok).marks {
        if q in t.marks { MarkFoJustified(s, c[0], ok, q); }
        JustifiedTrans(s, t, iset{c[0]}, All(c[1..]), All(c), q);
      }
    }
  }

  lemma SelfJustified(s: S, os: iset<Obj>, q: Obj)
    ensures q in s.marks ==> Justified(s, os, q)
  {}

  lemma MoreJustified(s: S, os: iset<Obj>, more: iset<Obj>, q: Obj)
    requires Justified(s, os, q) && os <= more
    ensures Justified(s, more, q)
  {
    hide LeadsTo, OverflowsLater;
  }

  ghost function From(t: seq<seq<Obj>>, i: nat): iset<Obj> { iset k, o | i <= k < |t| && o in t[k] :: o }

  lemma {:induction false} MarkTableJustified(s: S, t: seq<seq<Obj>>, i: nat, ok: (Obj, nat) -> bool, q: Obj)
    requires Complete(s) && AllValid(s.w, t)
    ensures After(s, MarkTable(s, t, i, ok)) && (q in MarkTable(s, t, i, ok).marks ==> Justified(s, From(t, i), q))
    decreases |t| - i
  {
    hide Complete, MarkChain, Justified, ChainValid;
    if i >= |t| { SelfJustified(s, From(t, i), q); }
    else {
      var v := MarkChain(s, t[i], ok);
      MarkChainJustified(s, t[i], ok, q);
      MarkTableJustified(v, t, i + 1, ok, q);
      if q in MarkTable(s, t, i, ok).marks {
        assert All(t[i]) <= From(t, i) && From(t, i + 1) <= From(t, i);
        JustifiedTrans(s, v, All(t[i]), From(t, i + 1), From(t, i), q);
      }
    }
  }

  lemma NeverLater(s: S, o: Obj)
    requires |Unmarked(s)| < s.cap
    ensures !OverflowsLater(s, o)
  {
    hide Unmarked, Complete, Overflows;
    if OverflowsLater(s, o) {
      var u :| After(s, u) && MarkModel.Valid(u.w, o) && Overflows(u, o);
      FewerLeft(s, u);
      NeverOverflows(u, o);
    }
  }

  // ------------------------------------------------------------------------- GC_finalize

  /** Is there an unmarked finalizable object that leads to o, once the short links to unmarked objects are gone? */
  ghost predicate Held(f: Fin, o: Obj) {
    exists x :: InTable(f.fo, x) && x !in f.s.marks && LeadsTo(Unlinked(f).w, x, o)
  }

  /** Nothing is kept alive without reason: what is marked after the marking pass was marked before, or an unmarked
      finalizable object leads to it, or it is one itself, and the mark stack overflowed when it was marked from. */
  lemma RevivedOnly(f: Fin, ok: (Obj, nat) -> bool, q: Obj)
    requires Ready(f) && q in Revived(f, ok).marks
    ensures q in f.s.marks || Held(f, q) || (InTable(f.fo, q) && OverflowsLater(Clean(Unlinked(f)), q))
  {
    hide Complete, MarkTable, LeadsTo, OverflowsLater, AllValid;
    UnlinkedComplete(f);
    var s := Clean(Unlinked(f));
    MarkTableJustified(s, f.fo, 0, ok, q);
    forall x | x in From(f.fo, 0) ensures InTable(f.fo, x) {}
  }

  /** What GC_finalize queues, without regard to how it marks.  A queued object is a finalizable object that was unmarked,
      and that no unmarked finalizable object leads to.  If the mark stack can hold all unmarked objects these are all of
      them. */
  lemma QueuedExactly(f: Fin, ok: (Obj, nat) -> bool, o: Obj)
    requires Ready(f)
    ensures NewlyQueued(f, Finalize(f, ok), o) ==> InTable(f.fo, o) && o !in f.s.marks && !Held(f, o)
    ensures |Unmarked(f.s)| < f.s.cap ==>
      (NewlyQueued(f, Finalize(f, ok), o) <==> InTable(f.fo, o) && o !in f.s.marks && !Held(f, o))
  {
    hide Complete, Finalize, Revived, NewlyQueued, Unmarked, ClearedTable, AllValid;
    UnmarkedAreQueued(f, ok, o);
    MarkedStay(f, ok);
    if o !in Revived(f, ok).marks && Held(f, o) { HeldIsMarked(f, ok, o); }
    if o in Revived(f, ok).marks && |Unmarked(f.s)| < f.s.cap {
      UnlinkedSame(f);
      NeverLater(Clean(Unlinked(f)), o);
      RevivedOnly(f, ok, o);
    }
  }

  lemma MarkedStay(f: Fin, ok: (Obj, nat) -> bool)
    requires Ready(f)
    ensures f.s.marks <= Revived(f, ok).marks
  {
    var add := FinalizeQueues(f, ok);
  }

  lemma HeldIsMarked(f: Fin, ok: (Obj, nat) -> bool, o: Obj)
    requires Ready(f) && Held(f, o)
    ensures o in Revived(f, ok).marks
  {
    hide Complete, MarkTable, ClearedTable;
    var x :| InTable(f.fo, x) && x !in f.s.marks && LeadsTo(Unlinked(f).w, x, o);
    var p :| Leads(Unlinked(f).w, p, x, o);
    assert |p| >= 2;
    var add := FinalizeQueues(f, ok);
    PathsMarked(Revived(f, ok), p, x, o, |p| - 1);
  }

  lemma UnlinkedSame(f: Fin)
    requires Ready(f)
    ensures |Unmarked(Clean(Unlinked(f)))| == |Unmarked(f.s)| && Clean(Unlinked(f)).cap == f.s.cap
  {
    hide ClearedTable, Complete;
    UnlinkedComplete(f);
    assert Objects(Unlinked(f).w) == Objects(f.s.w);
  }
}
