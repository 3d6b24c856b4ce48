/** What every step of the marker keeps: the invariant "I" of gc/include/private/gc_pmark.h, with the
    exceptions each mark state allows, through pushes, overflows, scans and state changes. */
module MarkInvariant {
  import opened MarkModel

  /** A word needs no more attention once its target, if it has one, is marked. */
  predicate Done(s: S, c: Cell) {
    c.Ref? && Valid(s.w, c.target) ==> c.target in s.marks
  }

  predicate OnStack(s: S, a: Area, j: nat) {
    exists i :: 0 <= i < |s.stack| && s.stack[i].area == a && s.stack[i].lo <= j
  }

  /** Every word of the area is done or lies in a range on the mark stack. */
  predicate Covered(s: S, a: Area) {
    forall j :: 0 <= j < |Cells(s.w, a)| ==> Done(s, Cells(s.w, a)[j]) || OnStack(s, a, j)
  }

  /** Marked objects that the invariant does not speak about in the current state. */
  predicate Exempt(s: S, o: Obj) {
    || o.blk in s.dirty
    || match s.state
       case None => false
       case RootsPushed => false
       case PushRescuers => o.blk in s.grungy && s.scan <= o.blk
       case PushUncollectable => s.scan <= o.blk < |s.w.blocks| && s.w.blocks[o.blk].kind == Uncollectable
       case PartiallyInvalid => s.scan <= o.blk
       case Invalid => true
  }

  predicate MarkedCovered(s: S) {
    forall o :: o in s.marks ==> Exempt(s, o) || Covered(s, InHeap(o))
  }

  /** After GC_clear_marks and until something has been marked, only uncollectable objects are marked. */
  predicate Untouched(s: S) {
    && s.stack == [] && s.scan == 0
    && forall o :: o in s.marks ==> o.blk < |s.w.blocks| && IsUncollectable(s.w.blocks[o.blk].kind)
  }

  /** Pages of static data that the invariant does not speak about in the current state. */
  predicate StaticExempt(s: S, r: nat) {
    || r in s.rootDirty
    || match s.state
       case None => false
       case RootsPushed => false
       case PushRescuers => r in s.rootGrungy
       case _ => true
  }

  predicate StaticsCovered(s: S) {
    forall r :: 0 <= r < s.w.statics ==> StaticExempt(s, r) || Covered(s, Root(r))
  }

  /** "I", for marked objects and for the pages of static data whose dirty bits are kept. */
  predicate Inv(s: S) { HeapInv(s) && StaticsCovered(s) }

  predicate HeapInv(s: S) {
    && WF(s)
    && s.scan <= |s.w.blocks|
    && MarkedCovered(s)
    && (s.state == None ==> s.stack == [])
    && (s.state == PartiallyInvalid ==> s.objsMarked)
    && (s.state == Invalid && !s.objsMarked ==> Untouched(s))
  }

  /** t differs from s only in what marking changes, and only an overflow finds the stack too small and the marks invalid. */
  predicate Frame(s: S, t: S) {
    && t == s.(marks := t.marks, stack := t.stack, state := t.state, tooSmall := t.tooSmall)
    && s.marks <= t.marks
    && (s.tooSmall ==> t.tooSmall) && (t.state == Invalid && s.state != Invalid ==> t.tooSmall)
    && (t.tooSmall && !s.tooSmall ==> t.state == Invalid) && (s.state == Invalid ==> t.state == Invalid)
  }

  /** t has more marks and a longer stack, and whatever is newly marked is on it. */
  predicate Grows(s: S, t: S) {
    && Frame(s, t)
    && s.state == t.state
    && s.stack <= t.stack
    && forall o :: o in t.marks && o !in s.marks && Scanned(s.w, o) ==> Entry(InHeap(o), 0) in t.stack
  }

  /** The outcome of pushing: either nothing was lost, or the state says that something was. */
  predicate Pushed(s: S, t: S) {
    && Frame(s, t)
    && (WF(s) ==> WF(t))
    && (Grows(s, t) || t.state == Invalid)
    && (t.marks == s.marks ==> t == s || (s.state == t.state && s.stack <= t.stack && s.tooSmall == t.tooSmall))
  }

  lemma PushedTrans(s: S, t: S, u: S)
    requires Pushed(s, t) && Pushed(t, u)
    ensures Pushed(s, u)
  {
    if Grows(s, t) && Grows(t, u) {
      forall o | o in u.marks && o !in s.marks && Scanned(s.w, o)
        ensures Entry(InHeap(o), 0) in u.stack
      {
        if o in t.marks { InPrefix(t.stack, u.stack, Entry(InHeap(o), 0)); }
      }
    }
  }

  lemma InPrefix<T>(a: seq<T>, b: seq<T>, x: T)
    requires a <= b && x in a
    ensures x in b
  {
    var i :| 0 <= i < |a| && a[i] == x;
    assert b[i] == x;
  }

  lemma PushContentsPushed(s: S, c: Cell)
    ensures Pushed(s, PushContents(s, c)) && Done(PushContents(s, c), c)
  {
    var t := PushContents(s, c);
    if c.Ref? && Valid(s.w, c.target) && c.target !in s.marks {
      assert c.target in t.marks;
      if Scanned(s.w, c.target) && |s.stack| < s.cap {
        assert t.stack[|s.stack|] == Entry(InHeap(c.target), 0);
      }
    }
  }

  lemma {:induction false} PushCellsPushed(s: S, cells: seq<Cell>)
    ensures Pushed(s, PushCells(s, cells))
    ensures forall c :: c in cells ==> Done(PushCells(s, cells), c)
    decreases cells
  {
    if cells != [] {
      var t := PushContents(s, cells[0]);
      PushContentsPushed(s, cells[0]);
      PushCellsPushed(t, cells[1..]);
      PushedTrans(s, t, PushCells(s, cells));
      forall c | c in cells ensures Done(PushCells(s, cells), c) {
        if c != cells[0] { assert c in cells[1..]; }
      }
    }
  }

  lemma GrowsCovers(s: S, t: S, a: Area)
    requires Grows(s, t) && Covered(s, a)
    ensures Covered(t, a)
  {
    forall j | 0 <= j < |Cells(t.w, a)|
      ensures Done(t, Cells(t.w, a)[j]) || OnStack(t, a, j)
    {
      assert Done(s, Cells(s.w, a)[j]) || OnStack(s, a, j);
      if OnStack(s, a, j) { OnStackGrows(s, t, a, j); }
    }
  }

  lemma EntryCovers(s: S, a: Area)
    requires Entry(a, 0) in s.stack
    ensures Covered(s, a)
  {
    var i :| 0 <= i < |s.stack| && s.stack[i] == Entry(a, 0);
    forall j | 0 <= j < |Cells(s.w, a)| ensures OnStack(s, a, j) {
      assert s.stack[i].area == a && s.stack[i].lo <= j;
    }
  }

  lemma PushedKeeps(s: S, t: S)
    requires MarkedCovered(s) && Pushed(s, t)
    ensures MarkedCovered(t)
  {
    if t.state != Invalid {
      forall o | o in t.marks ensures Exempt(t, o) || Covered(t, InHeap(o)) {
        if o in s.marks {
          if !Exempt(s, o) { GrowsCovers(s, t, InHeap(o)); }
        } else if Scanned(s.w, o) {
          EntryCovers(t, InHeap(o));
        }
      }
    }
  }

  // ------------------------------------------------------------------ scanning

  /** What is taken off the stack by one turn is exactly the words that the turn considers. */
  lemma TopRestCovers(s: S, a: Area, j: nat)
    requires s.stack != [] && j < |Cells(s.w, a)| && OnStack(s, a, j)
    ensures OnStack(TopRest(s), a, j) || Cells(s.w, a)[j] in TopPart(s)
  {
    var n := |s.stack| - 1;
    var e := s.stack[n];
    var i :| 0 <= i < |s.stack| && s.stack[i].area == a && s.stack[i].lo <= j;
    var rest := TopRest(s);
    if i < n {
      assert rest.stack[i] == s.stack[i];
    } else if j < e.lo + Span(s) {
      assert TopPart(s)[j - e.lo] == Cells(s.w, a)[j];
    } else {
      assert rest.stack[n] == Entry(a, e.lo + Span(s));
    }
  }

  lemma OnStackGrows(s: S, t: S, a: Area, j: nat)
    requires s.stack <= t.stack && OnStack(s, a, j)
    ensures OnStack(t, a, j)
  {
    var i :| 0 <= i < |s.stack| && s.stack[i].area == a && s.stack[i].lo <= j;
    assert t.stack[i] == s.stack[i];
  }

  /** One turn of GC_mark_from's loop loses no word: what it takes off the stack it has considered. */
  lemma ScanTopCovers(s: S, a: Area)
    requires s.stack != [] && Covered(s, a)
    ensures ScanTop(s).state == Invalid || Covered(ScanTop(s), a)
  {
    var t := ScanTop(s);
    PushCellsPushed(TopRest(s), TopPart(s));
    if t.state != Invalid {
      forall j | 0 <= j < |Cells(t.w, a)|
        ensures Done(t, Cells(t.w, a)[j]) || OnStack(t, a, j)
      {
        if !Done(s, Cells(s.w, a)[j]) {
          TopRestCovers(s, a, j);
          if OnStack(TopRest(s), a, j) { OnStackGrows(TopRest(s), t, a, j); }
        }
      }
    }
  }

  lemma ScanTopFrame(s: S)
    requires WF(s) && s.stack != []
    ensures WF(ScanTop(s)) && Frame(s, ScanTop(s))
    ensures ScanTop(s).state == s.state || ScanTop(s).state == Invalid
  {
    PushCellsPushed(TopRest(s), TopPart(s));
  }

  lemma ScanTopKeeps(s: S)
    requires WF(s) && s.stack != [] && MarkedCovered(s)
    ensures WF(ScanTop(s)) && MarkedCovered(ScanTop(s))
    ensures ScanTop(s).state == s.state || ScanTop(s).state == Invalid
    ensures Frame(s, ScanTop(s))
  {
    hide WF, Frame;
    var t := ScanTop(s);
    ScanTopFrame(s);
    PushCellsPushed(TopRest(s), TopPart(s));
    if t.state != Invalid {
      forall o | o in t.marks ensures Exempt(t, o) || Covered(t, InHeap(o)) {
        if o in s.marks {
          if !Exempt(s, o) { ScanTopCovers(s, InHeap(o)); }
        } else if Scanned(s.w, o) {
          EntryCovers(t, InHeap(o));
        }
      }
    }
  }

  lemma {:induction false} MarkFromKeeps(s: S, credit: int)
    requires WF(s) && MarkedCovered(s)
    ensures WF(MarkFrom(s, credit)) && MarkedCovered(MarkFrom(s, credit))
    ensures MarkFrom(s, credit).state == s.state || MarkFrom(s, credit).state == Invalid
    ensures Frame(s, MarkFrom(s, credit))
    decreases if credit < 0 then 0 else credit + 1, |s.stack|
  {
    if s.stack != [] && 0 <= credit {
      ScanTopKeeps(s);
      ScanTopShorter(s);
      MarkFromKeeps(ScanTop(s), credit - Span(s));
    }
  }

  lemma ScanTopShorter(s: S)
    requires s.stack != []
    ensures Span(s) == 0 ==> |ScanTop(s).stack| == |s.stack| - 1
  {}

  /** Areas that were covered stay covered while GC_mark_from runs, unless it overflows. */
  lemma {:induction false} MarkFromCovers(s: S, credit: int, a: Area)
    requires WF(s) && MarkedCovered(s) && Covered(s, a)
    ensures MarkFrom(s, credit).state == Invalid || Covered(MarkFrom(s, credit), a)
    decreases if credit < 0 then 0 else credit + 1, |s.stack|
  {
    if s.stack != [] && 0 <= credit {
      ScanTopKeeps(s);
      ScanTopShorter(s);
      ScanTopCovers(s, a);
      var t := ScanTop(s);
      if t.state == Invalid { MarkFromKeeps(t, credit - Span(s)); }
      else { MarkFromCovers(t, credit - Span(s), a); }
    }
  }

  // --------------------------------------------------------------- whole blocks

  /** Pushing the marked objects of a block never overflows when there is room for all of them. */
  lemma {:induction false} PushMarkedFromFits(s: S, b: nat, i: nat)
    requires WF(s) && b < |s.w.blocks| && ScannedKind(s.w.blocks[b].kind)
    requires i <= s.w.blocks[b].objs && |s.stack| + s.w.blocks[b].objs - i <= s.cap
    ensures var t := PushMarkedFrom(s, b, i);
      && t == s.(stack := t.stack) && s.stack <= t.stack && |t.stack| <= s.cap
      && forall o :: o in s.marks && o.blk == b && i <= o.idx ==> Entry(InHeap(o), 0) in t.stack
    decreases s.w.blocks[b].objs - i
  {
    if i < s.w.blocks[b].objs {
      var u := if Obj(b, i) in s.marks then PushObj(s, Obj(b, i)) else s;
      PushMarkedFromFits(u, b, i + 1);
      var t := PushMarkedFrom(u, b, i + 1);
      if Obj(b, i) in s.marks {
        assert u.stack[|s.stack|] == Entry(InHeap(Obj(b, i)), 0);
        assert t.stack[|s.stack|] == u.stack[|s.stack|];
      }
      forall o | o in s.marks && o.blk == b && i <= o.idx ensures Entry(InHeap(o), 0) in t.stack {
        if o.idx == i { assert o == Obj(b, i); }
      }
    }
  }

  /** GC_push_marked on a block for which there is room: nothing is lost, and all its marked objects
      are covered afterwards. */
  lemma PushMarkedFits(s: S, b: nat)
    requires WF(s) && b < |s.w.blocks| && |s.stack| + s.w.blocks[b].objs <= s.cap
    ensures var t := PushMarked(s, b);
      && t == s.(stack := t.stack, objsMarked := t.objsMarked) && s.stack <= t.stack && |t.stack| <= s.cap
      && (s.objsMarked ==> t.objsMarked)
      && forall o :: o in s.marks && o.blk == b ==> Covered(t, InHeap(o))
  {
    var t := PushMarked(s, b);
    if ScannedKind(s.w.blocks[b].kind) && !BlockEmpty(s, b) {
      PushMarkedFromFits(s.(objsMarked := true), b, 0);
      forall o | o in s.marks && o.blk == b ensures Covered(t, InHeap(o)) {
        EntryCovers(t, InHeap(o));
      }
    } else if ScannedKind(s.w.blocks[b].kind) {
      assert forall o :: o in s.marks ==> o.blk != b;
    }
  }

  lemma {:induction false} NextChosenFirst(s: S, f: Filter, k: nat)
    requires k <= |s.w.blocks|
    ensures var b := NextChosen(s, f, k);
      && k <= b <= |s.w.blocks| && (b < |s.w.blocks| ==> Chosen(s, f, b))
      && forall c :: k <= c < b ==> !Chosen(s, f, c)
    decreases |s.w.blocks| - k
  {
    if k < |s.w.blocks| && !Chosen(s, f, k) { NextChosenFirst(s, f, k + 1); }
  }

  /** A scan step: it finds the first block from GC_scan_ptr on that the filter selects, covers its marked
      objects, and moves GC_scan_ptr past it; it resets GC_scan_ptr when there is none. */
  lemma PushNextFits(s: S, f: Filter)
    requires WF(s) && s.scan <= |s.w.blocks| && |s.stack| + MaxObjs(s) <= s.cap
    ensures var t := PushNext(s, f);
      && t == s.(stack := t.stack, objsMarked := t.objsMarked, scan := t.scan)
      && s.stack <= t.stack && |t.stack| <= s.cap && (s.objsMarked ==> t.objsMarked)
      && (t.scan == 0 || s.scan < t.scan <= |s.w.blocks|)
      && forall o :: (o in s.marks && s.scan <= o.blk && (t.scan == 0 || o.blk < t.scan)
                      && Chosen(s, f, o.blk)) ==> Covered(t, InHeap(o))
  {
    var t := PushNext(s, f);
    var b := NextChosen(s, f, s.scan);
    NextChosenFirst(s, f, s.scan);
    if b < |s.w.blocks| {
      var u := PushMarked(s, b);
      PushMarkedFits(s, b);
      forall o | o in s.marks && s.scan <= o.blk && o.blk < t.scan && Chosen(s, f, o.blk)
        ensures Covered(t, InHeap(o))
      {
        assert Covered(u, InHeap(o));
        CoveredSameStack(u, t, InHeap(o));
      }
    }
  }

  lemma CoveredSameStack(s: S, t: S, a: Area)
    requires Covered(s, a) && t.w == s.w && t.stack == s.stack && s.marks <= t.marks
    ensures Covered(t, a)
  {
    forall j | 0 <= j < |Cells(t.w, a)| ensures Done(t, Cells(t.w, a)[j]) || OnStack(t, a, j) {
      assert Done(s, Cells(s.w, a)[j]) || OnStack(s, a, j);
    }
  }

  lemma CoveredLongerStack(s: S, t: S, a: Area)
    requires Covered(s, a) && t.w == s.w && s.stack <= t.stack && s.marks <= t.marks
    ensures Covered(t, a)
  {
    forall j | 0 <= j < |Cells(t.w, a)| ensures Done(t, Cells(t.w, a)[j]) || OnStack(t, a, j) {
      assert Done(s, Cells(s.w, a)[j]) || OnStack(s, a, j);
      if OnStack(s, a, j) { OnStackGrows(s, t, a, j); }
    }
  }

  // ----------------------------------------------------------------------- roots

  lemma PushRootPushed(s: S, r: nat)
    ensures Pushed(s, PushRoot(s, r))
    ensures PushRoot(s, r).state == Invalid || Covered(PushRoot(s, r), Root(r))
  {
    var t := PushRoot(s, r);
    if |s.stack| - 1 < s.cap - Discards(s) {
      assert t.stack[|s.stack|] == Entry(Root(r), 0);
      EntryCovers(t, Root(r));
    } else {
      PushCellsPushed(s, Cells(s.w, Root(r)));
    }
  }

  lemma {:induction false} PushRootsPushed(s: S, rs: seq<nat>)
    ensures Pushed(s, PushRoots(s, rs))
    ensures forall r :: r in rs ==> PushRoots(s, rs).state == Invalid || Covered(PushRoots(s, rs), Root(r))
    decreases rs
  {
    if rs != [] {
      var t := PushRoot(s, rs[0]);
      var u := PushRoots(s, rs);
      PushRootPushed(s, rs[0]);
      PushRootsPushed(t, rs[1..]);
      PushedTrans(s, t, u);
      forall r | r in rs ensures u.state == Invalid || Covered(u, Root(r)) {
        if u.state != Invalid {
          if r == rs[0] { GrowsCovers(t, u, Root(r)); } else { assert r in rs[1..]; }
        }
      }
    }
  }

  // --------------------------------------------------------------- GC_mark_some

  /** "I" without any exception but dirtiness. */
  predicate Settled(s: S) {
    forall o :: o in s.marks ==> o.blk in s.dirty || Covered(s, InHeap(o))
  }

  lemma NothingToCover(s: S, o: Obj)
    requires !Scanned(s.w, o)
    ensures Covered(s, InHeap(o))
  {}

  lemma SettledCovered(s: S)
    requires Settled(s)
    ensures MarkedCovered(s)
  {
    hide Covered;
  }

  lemma RootsKeeps(s: S, rs: seq<nat>)
    requires WF(s) && s.scan <= |s.w.blocks| && s.state != Invalid && Settled(s)
    ensures HeapInv(RootsAndAdvance(s, rs)) && RootsAndAdvance(s, rs).w == s.w
    ensures RootsAndAdvance(s, rs).state == RootsPushed ==>
      forall r :: r in StaticPages(s, s.w.statics) + rs ==> Covered(RootsAndAdvance(s, rs), Root(r))
  {
    hide Covered, PushRoots, StaticPages, Scanned;
    var all := StaticPages(s, s.w.statics) + rs;
    var t := PushRoots(s, all);
    var u := RootsAndAdvance(s, rs);
    PushRootsPushed(s, all);
    SettledCovered(s);
    PushedKeeps(s, t);
    if t.state != Invalid {
      forall o | o in u.marks ensures o.blk in u.dirty || Covered(u, InHeap(o)) {
        if o in s.marks {
          if o.blk !in s.dirty { GrowsCovers(s, t, InHeap(o)); CoveredSameStack(t, u, InHeap(o)); }
        } else if Scanned(s.w, o) {
          EntryCovers(u, InHeap(o));
        } else {
          NothingToCover(u, o);
        }
      }
      forall r | r in all ensures Covered(u, Root(r)) { CoveredSameStack(t, u, Root(r)); }
    }
  }

  lemma MarkFromStackKeeps(s: S)
    requires HeapInv(s) && s.state != None && s.stack != []
    ensures HeapInv(MarkFromStack(s)) && Frame(s.(objsMarked := true), MarkFromStack(s))
    ensures MarkFromStack(s).state == s.state || MarkFromStack(s).state == Invalid
  {
    var u := s.(objsMarked := true);
    forall o | o in u.marks ensures Exempt(u, o) || Covered(u, InHeap(o)) {
      if !Exempt(s, o) { CoveredSameStack(s, u, InHeap(o)); }
    }
    MarkFromKeeps(u, PAGE_WORDS);
  }

  /** A scan step in a state whose exceptions are exactly what the scan still has to visit. */
  lemma ScanKeeps(s: S, f: Filter)
    requires WF(s) && s.scan <= |s.w.blocks| && |s.stack| + MaxObjs(s) <= s.cap
    requires s.state == match f case AnyAllocated => PartiallyInvalid case OnlyGrungy => PushRescuers
                                case OnlyUncollectable => PushUncollectable
    requires MarkedCovered(s) && (s.state == PartiallyInvalid ==> s.objsMarked)
    ensures var t := PushNext(s, f);
      WF(t) && t.w == s.w && t.scan <= |t.w.blocks| && t.state == s.state && if t.scan == 0 then Settled(t) else HeapInv(t)
  {
    var t := PushNext(s, f);
    PushNextFits(s, f);
    forall o | o in t.marks
      ensures o.blk in t.dirty || Covered(t, InHeap(o)) || (t.scan != 0 && Exempt(t, o))
    {
      assert Valid(s.w, o);
      if o.blk !in s.dirty {
        if Covered(s, InHeap(o)) {
          CoveredLongerStack(s, t, InHeap(o));
        } else {
          assert s.scan <= o.blk && Chosen(s, f, o.blk);
        }
      }
    }
  }

  lemma HeapKeeps(s: S, rs: seq<nat>, ok: bool)
    requires HeapInv(s)
    ensures HeapInv(MarkSome(s, rs, ok).0) && MarkSome(s, rs, ok).0.w == s.w
  {
    match s.state
    case None =>
    case PushRescuers =>
      if |s.stack| - 1 >= s.cap - s.init / 2 {
        var u := s.(tooSmall := true);
        SameMarking(s, u);
        MarkFromStackKeeps(u);
      } else {
        ScanKeeps(s, OnlyGrungy);
        var t := PushNext(s, OnlyGrungy);
        if t.scan == 0 { RootsKeeps(t, rs); }
      }
    case PushUncollectable =>
      if |s.stack| - 1 >= s.cap / 4 {
        MarkFromStackKeeps(s);
      } else {
        ScanKeeps(s, OnlyUncollectable);
        var t := PushNext(s, OnlyUncollectable);
        if t.scan == 0 { RootsKeeps(t, rs); }
      }
    case RootsPushed =>
      if s.stack != [] { MarkFromStackKeeps(s); }
      else { SameMarking(s, Grow(s.(state := None), ok)); }
    case _ => InvalidKeeps(s, rs, ok);
  }

  /** The invariant only depends on what the marker looks at. */
  lemma SameMarking(s: S, t: S)
    requires MarkedCovered(s)
    requires t.w == s.w && t.marks == s.marks && t.stack == s.stack && t.dirty == s.dirty
    requires t.grungy == s.grungy && t.scan == s.scan
    requires t.state == s.state || (s.state == RootsPushed && t.state == None)
    ensures MarkedCovered(t)
  {
    forall o | o in t.marks ensures Exempt(t, o) || Covered(t, InHeap(o)) {
      if !Exempt(s, o) { CoveredSameStack(s, t, InHeap(o)); }
    }
  }

  /** Before anything has been marked, the exceptions of MS_PUSH_UNCOLLECTABLE take in all marked objects. */
  lemma UntouchedStarts(s: S)
    requires HeapInv(s) && s.state == Invalid && !s.objsMarked
    ensures HeapInv(s.(state := PushUncollectable))
  {
    var t := s.(state := PushUncollectable);
    forall o | o in t.marks ensures Exempt(t, o) || Covered(t, InHeap(o)) {
      if s.w.blocks[o.blk].kind == AtomicUncollectable { assert Cells(t.w, InHeap(o)) == []; }
    }
  }

  lemma InvalidKeeps(s: S, rs: seq<nat>, ok: bool)
    requires HeapInv(s) && (s.state == Invalid || s.state == PartiallyInvalid)
    ensures HeapInv(MarkSome(s, rs, ok).0) && MarkSome(s, rs, ok).0.w == s.w
  {
    if !s.objsMarked {
      UntouchedStarts(s);
    } else if s.stack != [] {
      MarkFromStackKeeps(s);
    } else if s.scan == 0 && s.state == Invalid {
      var u := Grow(s, ok).(state := PartiallyInvalid);
      ScanKeeps(u, AnyAllocated);
      var t := PushNext(u, AnyAllocated);
      if t.scan == 0 { RootsKeeps(t, rs); }
    } else if s.state == Invalid {
      PushNextFits(s, AnyAllocated);
    } else {
      ScanKeeps(s, AnyAllocated);
      var t := PushNext(s, AnyAllocated);
      if t.scan == 0 { RootsKeeps(t, rs); }
    }
  }

  // ------------------------------------------------------------ static data

  lemma {:induction false} StaticPagesAre(s: S, n: nat, r: nat)
    ensures r in StaticPages(s, n) <==> r < n && (s.state == PushRescuers ==> r in s.rootGrungy)
  {
    if n > 0 { StaticPagesAre(s, n - 1, r); }
  }

  /** After GC_push_roots all pages of static data are covered: what has not been pushed was clean. */
  lemma RootsStatics(s: S, rs: seq<nat>, r: nat)
    requires WF(s) && s.scan <= |s.w.blocks| && s.state != Invalid && Settled(s) && r < s.w.statics
    requires r in StaticPages(s, s.w.statics) + rs || Covered(s, Root(r))
    ensures RootsAndAdvance(s, rs).state == RootsPushed ==> Covered(RootsAndAdvance(s, rs), Root(r))
  {
    var all := StaticPages(s, s.w.statics) + rs;
    RootsKeeps(s, rs);
    if r !in all {
      var t := PushRoots(s, all);
      PushRootsPushed(s, all);
      if t.state != Invalid {
        GrowsCovers(s, t, Root(r));
        CoveredSameStack(t, RootsAndAdvance(s, rs), Root(r));
      }
    }
  }

  /** An area that is covered stays so while GC_mark_from runs, unless it overflows. */
  lemma StackCovers(s: S, a: Area)
    requires HeapInv(s) && s.state != None && s.stack != [] && Covered(s, a)
    ensures MarkFromStack(s).state == Invalid || Covered(MarkFromStack(s), a)
  {
    var u := s.(objsMarked := true);
    SameMarking(s, u);
    CoveredSameStack(s, u, a);
    MarkFromCovers(u, PAGE_WORDS, a);
  }

  /** A page of static data while the heap is scanned, and when that ends. */
  lemma ScanStatics(s: S, f: Filter, rs: seq<nat>, r: nat)
    requires WF(s) && s.scan <= |s.w.blocks| && |s.stack| + MaxObjs(s) <= s.cap && r < s.w.statics
    requires s.state == match f case AnyAllocated => PartiallyInvalid case OnlyGrungy => PushRescuers
                                case OnlyUncollectable => PushUncollectable
    requires MarkedCovered(s) && (s.state == PartiallyInvalid ==> s.objsMarked)
    requires StaticExempt(s, r) || Covered(s, Root(r))
    ensures var t := PushNext(s, f);
      StaticExempt(if t.scan == 0 then RootsAndAdvance(t, rs) else t, r) || Covered(if t.scan == 0 then RootsAndAdvance(t, rs) else t, Root(r))
  {
    var t := PushNext(s, f);
    ScanKeeps(s, f);
    PushNextFits(s, f);
    if Covered(s, Root(r)) { CoveredLongerStack(s, t, Root(r)); }
    if t.scan == 0 {
      StaticPagesAre(t, t.w.statics, r);
      RootsKeeps(t, rs);
      if r in StaticPages(t, t.w.statics) + rs || Covered(t, Root(r)) { RootsStatics(t, rs, r); }
      PushRootsPushed(t, StaticPages(t, t.w.statics) + rs);
    }
  }

  lemma MarkSomeStatics(s: S, rs: seq<nat>, ok: bool, r: nat)
    requires Inv(s) && r < s.w.statics
    ensures var t := MarkSome(s, rs, ok).0; StaticExempt(t, r) || Covered(t, Root(r))
  {
    var t := MarkSome(s, rs, ok).0;
    assert StaticExempt(s, r) || Covered(s, Root(r));
    match s.state
    case None =>
    case PushRescuers =>
      if |s.stack| - 1 >= s.cap - s.init / 2 {
        var u := s.(tooSmall := true);
        SameMarking(s, u);
        StaticsMarking(u, r);
      } else {
        ScanStatics(s, OnlyGrungy, rs, r);
      }
    case PushUncollectable =>
      if |s.stack| - 1 >= s.cap / 4 { StaticsMarking(s, r); } else { ScanStatics(s, OnlyUncollectable, rs, r); }
    case RootsPushed =>
      if s.stack != [] { StaticsMarking(s, r); }
      else if Covered(s, Root(r)) { CoveredSameStack(s, t, Root(r)); }
    case _ => InvalidStatics(s, rs, ok, r);
  }

  lemma StaticsMarking(s: S, r: nat)
    requires HeapInv(s) && s.state != None && s.stack != [] && (StaticExempt(s, r) || Covered(s, Root(r)))
    ensures StaticExempt(MarkFromStack(s), r) || Covered(MarkFromStack(s), Root(r))
  {
    MarkFromStackKeeps(s);
    if Covered(s, Root(r)) { StackCovers(s, Root(r)); }
  }

  lemma InvalidStatics(s: S, rs: seq<nat>, ok: bool, r: nat)
    requires HeapInv(s) && r < s.w.statics && (s.state == Invalid || s.state == PartiallyInvalid)
    ensures var t := MarkSome(s, rs, ok).0; StaticExempt(t, r) || Covered(t, Root(r))
  {
    if s.objsMarked && s.stack != [] {
      StaticsMarking(s, r);
    } else if s.objsMarked && s.state == PartiallyInvalid {
      ScanStatics(s, AnyAllocated, rs, r);
    } else if s.objsMarked && s.scan == 0 {
      ScanStatics(Grow(s, ok).(state := PartiallyInvalid), AnyAllocated, rs, r);
    } else if s.objsMarked {
      PushNextFits(s, AnyAllocated);
    }
  }

  /** Every call of GC_mark_some keeps the invariant, in all six states, with overflows at any push, whether or not the
      stack can be enlarged and whichever roots besides static data the call can see. */
  lemma MarkSomeKeeps(s: S, rs: seq<nat>, ok: bool)
    requires Inv(s)
    ensures Inv(MarkSome(s, rs, ok).0)
  {
    HeapKeeps(s, rs, ok);
    var t := MarkSome(s, rs, ok).0;
    forall r | 0 <= r < t.w.statics ensures StaticExempt(t, r) || Covered(t, Root(r)) { MarkSomeStatics(s, rs, ok, r); }
  }
}
