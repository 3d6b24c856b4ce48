/** What the marker achieves: everything reachable is marked when a stopped mark ends, nothing else is when
    the mark started from cleared marks, and the mark does end. */
module MarkTheorems {
  import opened MarkModel
  import opened MarkInvariant

  // -------------------------------------------------------------- reachability

  ghost predicate Points(w: World, a: Area, q: Obj) {
    exists j :: 0 <= j < |Cells(w, a)| && Cells(w, a)[j] == Ref(q) && Valid(w, q)
  }

  ghost predicate FromRoots(w: World, q: Obj) {
    exists r: nat :: r < |w.roots| && Points(w, Root(r), q)
  }

  /** p leads from a root or from an object of `base` along pointers. */
  ghost predicate IsPath(w: World, base: set<Obj>, p: seq<Obj>) {
    && p != []
    && (p[0] in base || FromRoots(w, p[0]))
    && forall k :: 0 <= k < |p| - 1 ==> Points(w, InHeap(p[k]), p[k + 1])
  }

  ghost predicate Reachable(w: World, base: set<Obj>, o: Obj) {
    exists p :: IsPath(w, base, p) && p[|p| - 1] == o
  }

  lemma ReachableStep(w: World, base: set<Obj>, a: Area, q: Obj)
    requires a.Root? || Reachable(w, base, a.o)
    requires Points(w, a, q)
    ensures Reachable(w, base, q)
  {
    match a
    case Root(r) => assert FromRoots(w, q); assert IsPath(w, base, [q]);
    case InHeap(o) =>
      var p :| IsPath(w, base, p) && p[|p| - 1] == o;
      var p' := p + [q];
      assert IsPath(w, base, p');
      assert p'[|p'| - 1] == q;
  }

  /** A push loses entries only when the stack is full; then it makes room by giving up an eighth of the stack's initial size
      from the top, and says so. */
  lemma PushLoses(s: S, e: Entry)
    requires WF(s)
    ensures var t := PushEntry(s, e);
      && t.stack != [] && t.stack[|t.stack| - 1] == e && t.stack[..|t.stack| - 1] <= s.stack
      && |t.stack| == |s.stack| + 1 - (if |s.stack| == s.cap then s.init / 8 else 0)
      && (|s.stack| == s.cap <==> t != s.(stack := t.stack) || (s.state == Invalid && s.tooSmall && |s.stack| == s.cap))
      && (|s.stack| == s.cap ==> t.state == Invalid && t.tooSmall)
  {}

  // -------------------------------------------------- marking with the world stopped

  function AllRoots(w: World): seq<nat> { seq(|w.roots|, i requires 0 <= i => i) }

  /** Stacks, registers and the like: with the world stopped, GC_push_roots sees all of them. */
  function OtherRoots(w: World): seq<nat> {
    if w.statics <= |w.roots| then seq(|w.roots| - w.statics, i requires 0 <= i => w.statics + i) else []
  }

  lemma RootIs(w: World, r: nat)
    requires r < |w.roots|
    ensures r < w.statics || r in OtherRoots(w)
  {
    if w.statics <= r { assert OtherRoots(w)[r - w.statics] == r; }
  }

  predicate RootsCovered(s: S) {
    forall r :: r in AllRoots(s.w) ==> Covered(s, Root(r))
  }

  /** While the world is stopped nothing gets dirty, so the invariant has no exception left once the
      roots are pushed. */
  predicate StopInv(s: S) {
    && Inv(s) && s.dirty == {} && s.rootDirty == {}
    && (s.state == RootsPushed || s.state == None ==> RootsCovered(s))
  }

  lemma InitiateStops(s: S, incremental: bool)
    requires s.state == None || s.state == Invalid
    requires Inv(s)
    requires !incremental ==> s.state == Invalid && s.dirty == {} && s.rootDirty == {}
    ensures StopInv(InitiateGc(s, incremental))
  {
    var t := InitiateGc(s, incremental);
    if s.state == None {
      forall o | o in t.marks ensures Exempt(t, o) || Covered(t, InHeap(o)) {
        if !Exempt(s, o) { CoveredSameStack(s, t, InHeap(o)); }
      }
      forall r | 0 <= r < t.w.statics ensures StaticExempt(t, r) || Covered(t, Root(r)) {
        if !StaticExempt(s, r) { CoveredSameStack(s, t, Root(r)); }
      }
    }
  }

  // ------------------------------------------------ the shapes of a GC_mark_some step

  datatype Move = Marks | Scans | Finishes | Restarts

  function MoveOf(s: S): Move
    requires s.state != None
  {
    match s.state
    case PushRescuers => if |s.stack| - 1 >= s.cap - s.init / 2 then Marks else Scans
    case PushUncollectable => if |s.stack| - 1 >= s.cap / 4 then Marks else Scans
    case RootsPushed => if s.stack != [] then Marks else Finishes
    case _ => if !s.objsMarked then Restarts else if s.stack != [] then Marks else Scans
  }

  function ScanFilter(s: S): Filter {
    match s.state case PushRescuers => OnlyGrungy case PushUncollectable => OnlyUncollectable case _ => AnyAllocated
  }

  function ScanStart(s: S, ok: bool): S {
    if s.state == Invalid && s.scan == 0 then Grow(s, ok).(state := PartiallyInvalid) else s
  }

  function ScanEnd(u: S, f: Filter, rs: seq<nat>): S {
    var t := PushNext(u, f);
    if t.scan == 0 && t.state != Invalid then RootsAndAdvance(t, rs) else t
  }

  /** GC_mark_some does one of four things, and before a scan there is always room for a block. */
  lemma Shape(s: S, rs: seq<nat>, ok: bool)
    requires Inv(s) && s.state != None
    ensures var t := MarkSome(s, rs, ok).0;
      match MoveOf(s)
      case Marks => s.stack != [] && t == MarkFromStack(s.(tooSmall := s.tooSmall || s.state == PushRescuers))
      case Finishes => s.state == RootsPushed && s.stack == [] && t == Grow(s.(state := None), ok)
      case Restarts => s.state == Invalid && !s.objsMarked && t == s.(state := PushUncollectable)
      case Scans =>
        && WF(ScanStart(s, ok)) && |ScanStart(s, ok).stack| + MaxObjs(s) <= ScanStart(s, ok).cap
        && t == ScanEnd(ScanStart(s, ok), ScanFilter(s), rs)
    ensures MarkSome(s, rs, ok).1 == MoveOf(s).Finishes?
  {
    if MoveOf(s).Scans? {
      PushNextFits(ScanStart(s, ok), ScanFilter(s));
    }
  }

  lemma ScanEndFacts(u: S, f: Filter, rs: seq<nat>)
    requires WF(u) && u.scan <= |u.w.blocks| && |u.stack| + MaxObjs(u) <= u.cap
    ensures var t := ScanEnd(u, f, rs);
      && Frame(u.(objsMarked := t.objsMarked, scan := t.scan), t)
      && (u.objsMarked ==> t.objsMarked)
      && (t.state == u.state || t.state == RootsPushed || t.state == Invalid)
      && (t.state == RootsPushed && u.state != RootsPushed ==> forall r :: r in rs ==> Covered(t, Root(r)))
  {
    PushNextFits(u, f);
    var v := PushNext(u, f);
    var all := StaticPages(v, v.w.statics) + rs;
    var p := PushRoots(v, all);
    PushRootsPushed(v, all);
    var t := ScanEnd(u, f, rs);
    if t.state == RootsPushed && u.state != RootsPushed {
      forall r | r in rs ensures Covered(t, Root(r)) {
        assert r in all;
        CoveredSameStack(p, t, Root(r));
      }
    }
  }

  /** A larger stack is asked for when a mark ends, or is started anew from an invalid state, after an overflow. */
  predicate Regrows(s: S) {
    && s.tooSmall && s.stack == []
    && (s.state == RootsPushed || (s.state == Invalid && s.objsMarked && s.scan == 0))
  }

  /** What GC_mark_some never changes, when the mark stack is made larger, and where its TRUE comes from. */
  lemma MarkSomeFrame(s: S, rs: seq<nat>, ok: bool)
    requires Inv(s) && s.state != None
    ensures var t := MarkSome(s, rs, ok).0;
      && t.w == s.w && t.dirty == s.dirty && t.grungy == s.grungy && t.rootDirty == s.rootDirty && t.rootGrungy == s.rootGrungy
      && t.init == s.init && s.marks <= t.marks
      && (s.objsMarked ==> t.objsMarked)
      && t.cap == (if Regrows(s) && ok then 2 * s.cap else s.cap)
      && (t.state == Invalid && s.state != Invalid ==> t.tooSmall)
      && (t.state == None <==> MarkSome(s, rs, ok).1)
      && (t.state == RootsPushed && s.state != RootsPushed ==> forall r :: r in rs ==> Covered(t, Root(r)))
  {
    Shape(s, rs, ok);
    match MoveOf(s)
    case Marks =>
      var u := s.(tooSmall := s.tooSmall || s.state == PushRescuers);
      SameMarking(s, u);
      MarkFromStackKeeps(u);
    case Scans => ScanEndFacts(ScanStart(s, ok), ScanFilter(s), rs);
    case _ =>
  }

  /** When the stack counts as too small: after an overflow, or when rescuers fill half of the room for a block; and until
      it is made larger. */
  lemma TooSmallIs(s: S, rs: seq<nat>, ok: bool)
    requires Inv(s) && s.state != None
    ensures var t, crowded := MarkSome(s, rs, ok).0, s.state == PushRescuers && |s.stack| > s.cap - s.init / 2;
      && (crowded ==> t.tooSmall)
      && (t.tooSmall && !s.tooSmall && !crowded ==> t.state == Invalid)
      && (s.tooSmall && !Regrows(s) ==> t.tooSmall)
      && (Regrows(s) && t.tooSmall ==> t.state == Invalid)
  {
    Shape(s, rs, ok);
    match MoveOf(s)
    case Marks =>
      var u := s.(tooSmall := s.tooSmall || s.state == PushRescuers);
      SameMarking(s, u);
      MarkFromStackKeeps(u);
    case Scans => ScanEndFacts(ScanStart(s, ok), ScanFilter(s), rs);
    case _ =>
  }

  /** Is there room enough on the stack for this call to push another block, or the roots? */
  predicate Pushes(s: S) {
    match s.state
    case PushRescuers => |s.stack| <= s.cap - s.init / 2
    case PushUncollectable => |s.stack| <= s.cap / 4
    case PartiallyInvalid => s.stack == []
    case Invalid => s.objsMarked && s.stack == []
    case _ => false
  }

  /** The blocks that are to be pushed: those with dirty pages while rescuers are looked for, uncollectable ones at the start
      of a full mark, all after an overflow. */
  predicate Due(s: S, b: nat)
    requires b < |s.w.blocks|
  {
    && s.w.blocks[b].kind != Free
    && (s.state == PushRescuers ==> b in s.grungy) && (s.state == PushUncollectable ==> s.w.blocks[b].kind == Uncollectable)
  }

  /** What a call of GC_mark_some that pushes does: it goes on to the next block that is due and pushes its marked objects,
      all of them; or to the roots if there is none.  A mark that starts with nothing marked turns to uncollectable objects. */
  lemma Turn(s: S, rs: seq<nat>, ok: bool)
    requires Inv(s) && s.state != None
    ensures var t := MarkSome(s, rs, ok).0;
      && (!Pushes(s) ==> t.scan == s.scan)
      && (s.state == Invalid && !s.objsMarked ==> t.state == PushUncollectable && t.marks == s.marks && t.stack == s.stack)
      && (Pushes(s) && t.scan != 0 ==>
            && s.scan < t.scan <= |s.w.blocks| && Due(s, t.scan - 1) && (forall b :: s.scan <= b < t.scan - 1 ==> !Due(s, b))
            && t.marks == s.marks && forall o :: o in s.marks && o.blk == t.scan - 1 && Scanned(s.w, o) ==> Entry(InHeap(o), 0) in t.stack)
      && (Pushes(s) && t.scan == 0 ==>
            (t.state == RootsPushed || t.state == Invalid) && forall b :: s.scan <= b < |s.w.blocks| ==> !Due(s, b))
  {
    hide PushNext, NextChosen, RootsAndAdvance, Covered, MarkFrom;
    Shape(s, rs, ok);
    match MoveOf(s)
    case Marks =>
      var u := s.(tooSmall := s.tooSmall || s.state == PushRescuers);
      SameMarking(s, u);
      MarkFromStackKeeps(u);
    case Scans =>
      var u, f := ScanStart(s, ok), ScanFilter(s);
      PushNextTurn(u, f);
      forall b: nat | b < |s.w.blocks| ensures Due(s, b) <==> Chosen(u, f, b) {}
      RootsScan(PushNext(u, f), rs);
    case _ =>
  }

  lemma RootsScan(s: S, rs: seq<nat>)
    ensures var t := RootsAndAdvance(s, rs); t.scan == s.scan && (t.state == RootsPushed || t.state == Invalid)
  {
    PushRootsPushed(s, StaticPages(s, s.w.statics) + rs);
  }

  lemma PushNextTurn(u: S, f: Filter)
    requires WF(u) && u.scan <= |u.w.blocks| && |u.stack| + MaxObjs(u) <= u.cap
    ensures var t, b := PushNext(u, f), NextChosen(u, f, u.scan);
      && u.scan <= b <= |u.w.blocks| && (forall k :: u.scan <= k < b ==> !Chosen(u, f, k)) && t.state == u.state && t.marks == u.marks
      && (b < |u.w.blocks| ==> Chosen(u, f, b) && t.scan == b + 1)
      && (b < |u.w.blocks| ==>
            forall o :: o in u.marks && o.blk == b && Scanned(u.w, o) ==> Entry(InHeap(o), 0) in t.stack)
      && (b == |u.w.blocks| ==> t.scan == 0)
  {
    NextChosenFirst(u, f, u.scan);
    var b := NextChosen(u, f, u.scan);
    if b < |u.w.blocks| {
      PushMarkedFits(u, b);
      if ScannedKind(u.w.blocks[b].kind) && !BlockEmpty(u, b) { PushMarkedFromFits(u.(objsMarked := true), b, 0); }
    }
  }

  // -------------------------------------------------- marking with the world stopped

  lemma RootsStayCovered(s: S, t: S)
    requires t.w == s.w && t.stack == s.stack && s.marks <= t.marks && RootsCovered(s)
    ensures RootsCovered(t)
  {
    forall r | r in AllRoots(t.w) ensures Covered(t, Root(r)) { CoveredSameStack(s, t, Root(r)); }
  }

  lemma RootsCoveredWhileMarking(s: S)
    requires StopInv(s) && s.state == RootsPushed && s.stack != []
    ensures MarkFromStack(s).state == Invalid || RootsCovered(MarkFromStack(s))
  {
    var t := MarkFromStack(s);
    var u := s.(objsMarked := true);
    MarkFromStackKeeps(s);
    SameMarking(s, u);
    if t.state != Invalid {
      forall r | r in AllRoots(t.w) ensures Covered(t, Root(r)) {
        CoveredSameStack(s, u, Root(r));
        MarkFromCovers(u, PAGE_WORDS, Root(r));
      }
    }
  }

  /** A stopped call of GC_mark_some sees all roots and keeps the stronger invariant. */
  lemma MarkSomeStopped(s: S, ok: bool)
    requires StopInv(s)
    ensures StopInv(MarkSome(s, OtherRoots(s.w), ok).0)
  {
    var rs := OtherRoots(s.w);
    var t := MarkSome(s, rs, ok).0;
    MarkSomeKeeps(s, rs, ok);
    if s.state != None {
      MarkSomeFrame(s, rs, ok);
      if t.state == RootsPushed && s.state != RootsPushed {
        forall r | r in AllRoots(t.w) ensures Covered(t, Root(r)) { RootIs(t.w, r); }
      }
      Shape(s, rs, ok);
      if MoveOf(s).Finishes? { RootsStayCovered(s, t); }
      if s.state == RootsPushed && MoveOf(s).Marks? {
        RootsCoveredWhileMarking(s);
        MarkFromStackKeeps(s);
      }
    }
  }

  /** When a stopped mark has ended, everything reachable from the roots, and from any set of marked
      objects, is marked. */
  lemma StoppedMarkIsComplete(s: S, base: set<Obj>)
    requires StopInv(s) && s.state == None && base <= s.marks
    ensures forall o :: Reachable(s.w, base, o) ==> o in s.marks
  {
    forall o | Reachable(s.w, base, o) ensures o in s.marks {
      var p :| IsPath(s.w, base, p) && p[|p| - 1] == o;
      PathMarked(s, base, p);
    }
  }

  lemma {:induction false} PathMarked(s: S, base: set<Obj>, p: seq<Obj>)
    requires StopInv(s) && s.state == None && base <= s.marks && IsPath(s.w, base, p)
    ensures p[|p| - 1] in s.marks
    decreases |p|
  {
    var n := |p| - 1;
    if n == 0 {
      if p[0] !in base {
        var r: nat :| r < |s.w.roots| && Points(s.w, Root(r), p[0]);
        assert AllRoots(s.w)[r] == r;
        CoveredTargetMarked(s, Root(r), p[0]);
      }
    } else {
      var q := p[..n];
      PathMarked(s, base, q);
      assert Covered(s, InHeap(p[n - 1]));
      CoveredTargetMarked(s, InHeap(p[n - 1]), p[n]);
    }
  }

  lemma CoveredTargetMarked(s: S, a: Area, q: Obj)
    requires s.stack == [] && Covered(s, a) && Points(s.w, a, q)
    ensures q in s.marks
  {
    var j :| 0 <= j < |Cells(s.w, a)| && Cells(s.w, a)[j] == Ref(q) && Valid(s.w, q);
    assert Done(s, Cells(s.w, a)[j]);
  }

  // ------------------------------------------------------- nothing else is marked

  /** Only what `base` and the roots lead to is marked, and what lies on the stack leads to nothing else. */
  ghost predicate OnlyReachable(s: S, base: set<Obj>) {
    && (forall o :: o in s.marks ==> Reachable(s.w, base, o))
    && forall e :: e in s.stack ==> OnlyLeads(s.w, base, e.area)
  }

  ghost predicate OnlyLeads(w: World, base: set<Obj>, a: Area) {
    forall q :: Points(w, a, q) ==> Reachable(w, base, q)
  }

  lemma LeadsOn(w: World, base: set<Obj>, a: Area)
    requires a.Root? || Reachable(w, base, a.o)
    ensures OnlyLeads(w, base, a)
  {
    forall q | Points(w, a, q) ensures Reachable(w, base, q) { ReachableStep(w, base, a, q); }
  }

  lemma PushObjOnly(s: S, base: set<Obj>, o: Obj)
    requires OnlyReachable(s, base) && OnlyLeads(s.w, base, InHeap(o))
    ensures OnlyReachable(PushObj(s, o), base)
  {
    hide Reachable, OnlyLeads;
  }

  lemma PushContentsOnly(s: S, base: set<Obj>, c: Cell)
    requires OnlyReachable(s, base)
    requires c.Ref? && Valid(s.w, c.target) ==> Reachable(s.w, base, c.target)
    ensures OnlyReachable(PushContents(s, c), base)
  {
    hide Reachable, OnlyLeads, PushObj;
    if c.Ref? && Valid(s.w, c.target) {
      LeadsOn(s.w, base, InHeap(c.target));
      PushObjOnly(s.(marks := s.marks + {c.target}), base, c.target);
    }
  }

  lemma {:induction false} PushCellsOnly(s: S, base: set<Obj>, cells: seq<Cell>)
    requires OnlyReachable(s, base)
    requires forall c :: c in cells && c.Ref? && Valid(s.w, c.target) ==> Reachable(s.w, base, c.target)
    ensures OnlyReachable(PushCells(s, cells), base)
    decreases cells
  {
    if cells != [] {
      PushContentsOnly(s, base, cells[0]);
      PushContentsPushed(s, cells[0]);
      PushCellsOnly(PushContents(s, cells[0]), base, cells[1..]);
    }
  }

  lemma AreaOnly(w: World, base: set<Obj>, a: Area)
    requires OnlyLeads(w, base, a)
    ensures forall c :: c in Cells(w, a) && c.Ref? && Valid(w, c.target) ==> Reachable(w, base, c.target)
  {
    forall c | c in Cells(w, a) && c.Ref? && Valid(w, c.target) ensures Reachable(w, base, c.target) {
      var j :| 0 <= j < |Cells(w, a)| && Cells(w, a)[j] == c;
      assert Points(w, a, c.target);
    }
  }

  lemma TopRestOnly(s: S, base: set<Obj>)
    requires s.stack != [] && OnlyReachable(s, base)
    ensures OnlyReachable(TopRest(s), base)
  {
    hide Reachable, OnlyLeads;
    assert s.stack[|s.stack| - 1] in s.stack;
  }

  lemma ScanTopOnly(s: S, base: set<Obj>)
    requires s.stack != [] && OnlyReachable(s, base)
    ensures OnlyReachable(ScanTop(s), base)
  {
    var e := s.stack[|s.stack| - 1];
    assert e in s.stack;
    AreaOnly(s.w, base, e.area);
    TopRestOnly(s, base);
    PushCellsOnly(TopRest(s), base, TopPart(s));
  }

  lemma {:induction false} MarkFromOnly(s: S, base: set<Obj>, credit: int)
    requires OnlyReachable(s, base)
    ensures OnlyReachable(MarkFrom(s, credit), base)
    decreases if credit < 0 then 0 else credit + 1, |s.stack|
  {
    if s.stack != [] && 0 <= credit {
      ScanTopOnly(s, base);
      ScanTopShorter(s);
      MarkFromOnly(ScanTop(s), base, credit - Span(s));
    }
  }

  lemma {:induction false} PushMarkedFromOnly(s: S, base: set<Obj>, b: nat, i: nat)
    requires b < |s.w.blocks| && OnlyReachable(s, base)
    ensures OnlyReachable(PushMarkedFrom(s, b, i), base)
    decreases s.w.blocks[b].objs - i
  {
    hide Reachable, OnlyLeads;
    if i < s.w.blocks[b].objs {
      if Obj(b, i) in s.marks {
        LeadsOn(s.w, base, InHeap(Obj(b, i)));
        PushObjOnly(s, base, Obj(b, i));
      }
      PushMarkedFromOnly(if Obj(b, i) in s.marks then PushObj(s, Obj(b, i)) else s, base, b, i + 1);
    }
  }

  lemma {:induction false} PushRootsOnly(s: S, base: set<Obj>, rs: seq<nat>)
    requires OnlyReachable(s, base)
    ensures OnlyReachable(PushRoots(s, rs), base)
    decreases rs
  {
    hide Reachable, OnlyLeads;
    if rs != [] {
      LeadsOn(s.w, base, Root(rs[0]));
      AreaOnly(s.w, base, Root(rs[0]));
      PushCellsOnly(s, base, Cells(s.w, Root(rs[0])));
      assert OnlyReachable(PushRoot(s, rs[0]), base);
      PushRootsOnly(PushRoot(s, rs[0]), base, rs[1..]);
    }
  }

  /** No call of GC_mark_some marks anything that is not reachable. */
  lemma MarkSomeOnly(s: S, base: set<Obj>, rs: seq<nat>, ok: bool)
    requires Inv(s) && OnlyReachable(s, base)
    ensures OnlyReachable(MarkSome(s, rs, ok).0, base)
  {
    hide MarkFrom, ScanEnd, Covered, Reachable, OnlyLeads;
    if s.state == None { return; }
    Shape(s, rs, ok);
    match MoveOf(s)
    case Marks =>
      var u := s.(tooSmall := s.tooSmall || s.state == PushRescuers, objsMarked := true);
      MarkFromOnly(u, base, PAGE_WORDS);
    case Scans =>
      var u := ScanStart(s, ok);
      assert OnlyReachable(u, base);
      ScanEndOnly(u, base, ScanFilter(s), rs);
    case _ =>
  }

  lemma ScanEndOnly(u: S, base: set<Obj>, f: Filter, rs: seq<nat>)
    requires OnlyReachable(u, base) && u.scan <= |u.w.blocks|
    ensures OnlyReachable(ScanEnd(u, f, rs), base)
  {
    hide Reachable, OnlyLeads, PushRoots, StaticPages;
    var v := PushNext(u, f);
    PushNextOnly(u, base, f);
    PushRootsOnly(v, base, StaticPages(v, v.w.statics) + rs);
  }

  lemma PushNextOnly(u: S, base: set<Obj>, f: Filter)
    requires OnlyReachable(u, base) && u.scan <= |u.w.blocks|
    ensures OnlyReachable(PushNext(u, f), base)
  {
    hide Reachable, OnlyLeads;
    NextChosenFirst(u, f, u.scan);
    var b := NextChosen(u, f, u.scan);
    if b < |u.w.blocks| { PushMarkedFromOnly(u.(objsMarked := true), base, b, 0); }
  }

  // -------------------------------------------------------------------- termination

  function Objects(w: World): set<Obj> {
    set b: nat, i: nat | b < |w.blocks| && i < w.blocks[b].objs :: Obj(b, i)
  }

  function Unmarked(s: S): set<Obj> { Objects(s.w) - s.marks }

  /** How far the state is from MS_NONE when nothing new gets marked. */
  function Rank(s: S): nat {
    match s.state
    case None => 0
    case RootsPushed => 1
    case PartiallyInvalid => 2
    case Invalid => if !s.objsMarked then 6 else if s.scan == 0 then 3 else 4
    case _ => 5
  }

  function BlocksLeft(s: S): nat {
    if s.scan <= |s.w.blocks| then |s.w.blocks| - s.scan else 0
  }

  /** The words still to be considered on the mark stack, plus one for every entry. */
  function Work(w: World, st: seq<Entry>): nat {
    if st == [] then 0
    else
      var e := st[|st| - 1];
      var n := |Cells(w, e.area)|;
      Work(w, st[..|st| - 1]) + 1 + if e.lo <= n then n - e.lo else 0
  }

  lemma WorkPush(w: World, st: seq<Entry>, e: Entry)
    ensures var n := |Cells(w, e.area)|;
      Work(w, st + [e]) == Work(w, st) + 1 + if e.lo <= n then n - e.lo else 0
  {
    assert (st + [e])[..|st|] == st;
  }

  lemma {:induction false} PushCellsIdle(s: S, cells: seq<Cell>)
    requires PushCells(s, cells).marks == s.marks
    ensures PushCells(s, cells) == s
    decreases cells
  {
    if cells != [] {
      PushContentsPushed(s, cells[0]);
      PushCellsPushed(PushContents(s, cells[0]), cells[1..]);
      PushCellsIdle(s, cells[1..]);
    }
  }

  /** A turn of GC_mark_from's loop that marks nothing leaves less on the stack, and overflows nothing. */
  lemma ScanTopWork(s: S)
    requires s.stack != [] && ScanTop(s).marks == s.marks
    ensures ScanTop(s) == s.(stack := ScanTop(s).stack) && Work(s.w, ScanTop(s).stack) < Work(s.w, s.stack)
  {
    var n := |s.stack| - 1;
    PushCellsIdle(TopRest(s), TopPart(s));
    WorkPush(s.w, s.stack[..n], Entry(s.stack[n].area, s.stack[n].lo + Span(s)));
  }

  lemma {:induction false} MarkFromWork(s: S, credit: int)
    requires MarkFrom(s, credit).marks == s.marks
    ensures var t := MarkFrom(s, credit);
      && t == s.(stack := t.stack) && Work(s.w, t.stack) <= Work(s.w, s.stack)
      && (s.stack != [] && 0 <= credit ==> Work(s.w, t.stack) < Work(s.w, s.stack))
    decreases if credit < 0 then 0 else credit + 1, |s.stack|
  {
    if s.stack != [] && 0 <= credit {
      ScanTopShorter(s);
      MarkFromMono(ScanTop(s), credit - Span(s));
      ScanTopMono(s);
      ScanTopWork(s);
      MarkFromWork(ScanTop(s), credit - Span(s));
    }
  }

  lemma ScanTopMono(s: S)
    requires s.stack != []
    ensures s.marks <= ScanTop(s).marks
  {
    PushCellsPushed(TopRest(s), TopPart(s));
  }

  lemma {:induction false} MarkFromMono(s: S, credit: int)
    ensures s.marks <= MarkFrom(s, credit).marks
    decreases if credit < 0 then 0 else credit + 1, |s.stack|
  {
    if s.stack != [] && 0 <= credit {
      ScanTopMono(s);
      ScanTopShorter(s);
      MarkFromMono(ScanTop(s), credit - Span(s));
    }
  }

  /** t is nearer to the end of the mark than s. */
  predicate Nearer(t: S, s: S) {
    || Unmarked(t) < Unmarked(s)
    || (Unmarked(t) == Unmarked(s) && Rank(t) < Rank(s))
    || (Unmarked(t) == Unmarked(s) && Rank(t) == Rank(s) && BlocksLeft(t) < BlocksLeft(s))
    || (Unmarked(t) == Unmarked(s) && Rank(t) == Rank(s) && BlocksLeft(t) == BlocksLeft(s)
        && Work(t.w, t.stack) < Work(s.w, s.stack))
  }

  lemma FewerUnmarked(s: S, t: S)
    requires WF(s) && WF(t) && t.w == s.w && s.marks < t.marks
    ensures Unmarked(t) < Unmarked(s)
  {
    var o :| o in t.marks && o !in s.marks;
    assert o == Obj(o.blk, o.idx) && o in Objects(s.w);
    assert o in Unmarked(s) && o !in Unmarked(t);
  }

  /** Every call of GC_mark_some makes progress: overflows included, for an overflow needs a new mark. */
  lemma MarkSomeProgress(s: S, rs: seq<nat>, ok: bool)
    requires Inv(s) && s.state != None
    ensures Nearer(MarkSome(s, rs, ok).0, s)
  {
    var t := MarkSome(s, rs, ok).0;
    MarkSomeKeeps(s, rs, ok);
    MarkSomeFrame(s, rs, ok);
    if t.marks != s.marks {
      FewerUnmarked(s, t);
    } else {
      Shape(s, rs, ok);
      match MoveOf(s)
      case Marks => MarkingProgress(s, rs, ok);
      case Scans => ScanProgress(s, rs, ok);
      case _ =>
    }
  }

  lemma MarkingProgress(s: S, rs: seq<nat>, ok: bool)
    requires Inv(s) && s.state != None && MoveOf(s).Marks?
    requires MarkSome(s, rs, ok).0.marks == s.marks
    ensures Nearer(MarkSome(s, rs, ok).0, s)
  {
    Shape(s, rs, ok);
    MarkFromWork(s.(tooSmall := s.tooSmall || s.state == PushRescuers, objsMarked := true), PAGE_WORDS);
  }

  lemma ScanProgress(s: S, rs: seq<nat>, ok: bool)
    requires Inv(s) && s.state != None && MoveOf(s).Scans?
    requires MarkSome(s, rs, ok).0.marks == s.marks
    ensures Nearer(MarkSome(s, rs, ok).0, s)
  {
    hide WF, MarkedCovered, StaticsCovered, Untouched, MarkSome, PushNext, PushRoots, StaticPages, Work, Unmarked;
    Shape(s, rs, ok);
    var u := ScanStart(s, ok);
    var f := ScanFilter(s);
    PushNextFits(u, f);
    var v := PushNext(u, f);
    PushRootsPushed(v, StaticPages(v, v.w.statics) + rs);
    SameUnmarked(s, MarkSome(s, rs, ok).0);
  }

  lemma SameUnmarked(s: S, t: S)
    requires t.w == s.w && t.marks == s.marks
    ensures Unmarked(t) == Unmarked(s)
  {}

  // ------------------------------------------------------------- whole collections

  /** Calling GC_mark_some until it reports the end; `ok(i)` tells whether the stack could be enlarged at
      the i-th call.  That this function is defined is the termination theorem. */
  function MarkAll(s: S, ok: nat -> bool, i: nat): S
    requires StopInv(s)
    decreases Unmarked(s), Rank(s), BlocksLeft(s), Work(s.w, s.stack)
  {
    if s.state == None then s
    else
      var t := MarkSome(s, OtherRoots(s.w), ok(i)).0;
      assert StopInv(t) by { MarkSomeStopped(s, ok(i)); }
      assert Nearer(t, s) by { MarkSomeProgress(s, OtherRoots(s.w), ok(i)); }
      MarkAll(t, ok, i + 1)
  }

  lemma {:induction false} MarkAllEnds(s: S, base: set<Obj>, ok: nat -> bool, i: nat)
    requires StopInv(s)
    ensures var t := MarkAll(s, ok, i);
      && StopInv(t) && t.state == None && t.w == s.w && s.marks <= t.marks && s.cap <= t.cap
      && (OnlyReachable(s, base) ==> OnlyReachable(t, base))
    decreases Unmarked(s), Rank(s), BlocksLeft(s), Work(s.w, s.stack)
  {
    if s.state != None {
      var t := MarkSome(s, OtherRoots(s.w), ok(i)).0;
      MarkSomeStopped(s, ok(i));
      MarkSomeProgress(s, OtherRoots(s.w), ok(i));
      MarkSomeFrame(s, OtherRoots(s.w), ok(i));
      if OnlyReachable(s, base) { MarkSomeOnly(s, base, OtherRoots(s.w), ok(i)); }
      MarkAllEnds(t, base, ok, i + 1);
    }
  }

  /** GC_clear_marks on an empty stack establishes the invariant; exactly the marked uncollectable objects stay marked. */
  lemma ClearMarksKeeps(s: S)
    requires WF(s) && s.stack == []
    ensures Inv(ClearMarks(s))
    ensures forall o :: o in ClearMarks(s).marks <==> o in s.marks && IsUncollectable(s.w.blocks[o.blk].kind)
  {}

  /** A full collection in a stopped world: from GC_clear_marks on, whatever overflows on the way, the
      marked objects are in the end exactly those reachable from the roots and from the uncollectable
      objects that were marked before. */
  lemma FullCollectionIsExact(s: S, incremental: bool, ok: nat -> bool, base: set<Obj>)
    requires WF(s) && s.stack == [] && (!incremental ==> s.dirty == {} && s.rootDirty == {})
    requires base == set o | o in s.marks && IsUncollectable(s.w.blocks[o.blk].kind)
    ensures var start := InitiateGc(ClearMarks(s), incremental);
      && StopInv(start)
      && MarkAll(start, ok, 0).state == None
      && forall o :: o in MarkAll(start, ok, 0).marks <==> Reachable(s.w, base, o)
  {
    ClearMarksKeeps(s);
    assert base == ClearMarks(s).marks;
    var start := InitiateGc(ClearMarks(s), incremental);
    InitiateStops(ClearMarks(s), incremental);
    forall o | o in base ensures Reachable(s.w, base, o) { assert IsPath(s.w, base, [o]); assert [o][|[o]| - 1] == o; }
    assert OnlyReachable(start, base);
    MarkAllEnds(start, base, ok, 0);
    StoppedMarkIsComplete(MarkAll(start, ok, 0), base);
  }
}
