/** GC_finalize of gc/finalize.c on values: disappearing links disappear, objects that only finalizers can still
    see are queued.  It uses the marker of MarkModel, with mark stack overflows and all. */
module FinalizeModel {
  import opened MarkModel
  import opened MarkInvariant
  import opened MarkTheorems

  /** Where a disappearing link is stored: in a heap object, in a root area, or somewhere the collector does
      not look at. */
  datatype Loc = InObject(o: Obj, j: nat) | InRoot(r: nat, j: nat) | Elsewhere(id: nat)

  datatype Link = Link(loc: Loc, obj: Obj)

  /** The mark state, the hash chains of short links, long links and finalizable objects, and the queue
      finalize_now. */
  datatype Fin = Fin(s: S, dl: seq<seq<Link>>, ll: seq<seq<Link>>, fo: seq<seq<Obj>>, now: seq<Obj>)

  // ------------------------------------------------------------------------------ links

  /** A link is set to NULL. */
  function ClearLoc(w: World, loc: Loc): World {
    match loc
    case InObject(o, j) => if o in w.mem && j < |w.mem[o]| then w.(mem := w.mem[o := w.mem[o][j := Data]]) else w
    case InRoot(r, j) => if r < |w.roots| && j < |w.roots[r]| then w.(roots := w.roots[r := w.roots[r][j := Data]]) else w
    case Elsewhere(_) => w
  }

  function ReadLoc(w: World, loc: Loc): Cell {
    match loc
    case InObject(o, j) => if o in w.mem && j < |w.mem[o]| then w.mem[o][j] else Data
    case InRoot(r, j) => if r < |w.roots| && j < |w.roots[r]| then w.roots[r][j] else Data
    case Elsewhere(_) => Data
  }

  /** Does an entry stay in its table?  The pass over dangling entries asks about the object that holds the link,
      the other one about the object linked to. */
  predicate Stays(marks: set<Obj>, l: Link, dangling: bool) {
    if dangling then !l.loc.InObject? || l.loc.o in marks else l.obj in marks
  }

  /** What GC_make_disappearing_links_disappear leaves of a chain. */
  function Kept(marks: set<Obj>, c: seq<Link>, dangling: bool): seq<Link> {
    if c == [] then [] else (if Stays(marks, c[0], dangling) then [c[0]] else []) + Kept(marks, c[1..], dangling)
  }

  /** What it does to the links of a chain. */
  function Cleared(w: World, marks: set<Obj>, c: seq<Link>): World
    decreases |c|
  {
    if c == [] then w
    else Cleared(if Stays(marks, c[0], false) then w else ClearLoc(w, c[0].loc), marks, c[1..])
  }

  function KeptTable(marks: set<Obj>, t: seq<seq<Link>>, dangling: bool): seq<seq<Link>> {
    seq(|t|, i requires 0 <= i < |t| => Kept(marks, t[i], dangling))
  }

  function ClearedTable(w: World, marks: set<Obj>, t: seq<seq<Link>>, i: nat): World
    decreases |t| - i
  {
    if i >= |t| then w else ClearedTable(Cleared(w, marks, t[i]), marks, t, i + 1)
  }

  // ---------------------------------------------------------------------------- marking

  /** The loop that empties the mark stack; it ends since each round marks something or leaves less to scan. */
  function Drain(s: S): S
    requires WF(s)
    decreases Unmarked(s), Work(s.w, s.stack)
  {
    if s.stack == [] then s
    else
      DrainProgress(s);
      Drain(MarkFromStack(s))
  }

  lemma DrainProgress(s: S)
    requires WF(s) && s.stack != []
    ensures var t := MarkFromStack(s);
      WF(t) && (Unmarked(t) < Unmarked(s) || (Unmarked(t) == Unmarked(s) && Work(t.w, t.stack) < Work(s.w, s.stack)))
  {
    var u := s.(objsMarked := true);
    MarkFromWf(u, PAGE_WORDS);
    var t := MarkFrom(u, PAGE_WORDS);
    MarkFromMono(u, PAGE_WORDS);
    if t.marks == s.marks { MarkFromWork(u, PAGE_WORDS); } else { FewerUnmarked(u, t); }
  }

  lemma {:induction false} MarkFromWf(s: S, credit: int)
    requires WF(s)
    ensures WF(MarkFrom(s, credit)) && Frame(s, MarkFrom(s, credit))
    decreases if credit < 0 then 0 else credit + 1, |s.stack|
  {
    if s.stack != [] && 0 <= credit {
      PushCellsPushed(TopRest(s), TopPart(s));
      ScanTopShorter(s);
      MarkFromWf(ScanTop(s), credit - Span(s));
    }
  }

  /** A mark is complete: nothing is left to do, and every pointer of a marked object leads to a marked one. */
  predicate Complete(s: S) { StopInv(s) && s.state == None }

  /** The marker as it would be if nothing had been written since the world was restarted. */
  function Clean(s: S): S { s.(dirty := {}, rootDirty := {}) }

  /** Whether the mark stack can be enlarged at the i-th step, should marking have to be restarted for o. */
  function OkFor(ok: (Obj, nat) -> bool, o: Obj): nat -> bool { (i: nat) => ok(o, i) }

  /** GC_MARK_FO: what the object points to is marked, not the object itself.  If the mark stack overflows, the
      object is marked and marking is started again. */
  ghost function MarkFo(s: S, o: Obj, ok: (Obj, nat) -> bool): S
    requires Complete(s) && Valid(s.w, o)
  {
    MarkFoReady(s, o);
    var t := Drain(PushObj(s, o));
    if t.state == None then t else MarkAll(t.(marks := t.marks + {o}), OkFor(ok, o), 0)
  }

  /** The pass over one chain of finalizable objects that marks from them. */
  ghost function MarkChain(s: S, c: seq<Obj>, ok: (Obj, nat) -> bool): S
    requires Complete(s) && ChainValid(s.w, c)
    decreases |c|
  {
    if c == [] then s
    else if c[0] in s.marks then MarkChain(s, c[1..], ok)
    else
      MarkFoCompletes(s, c[0], ok);
      MarkChain(MarkFo(s, c[0], ok), c[1..], ok)
  }

  ghost predicate ChainValid(w: World, c: seq<Obj>) { forall o :: o in c ==> Valid(w, o) }

  ghost predicate AllValid(w: World, t: seq<seq<Obj>>) {
    forall i :: 0 <= i < |t| ==> ChainValid(w, t[i])
  }

  ghost function MarkTable(s: S, t: seq<seq<Obj>>, i: nat, ok: (Obj, nat) -> bool): S
    requires Complete(s) && AllValid(s.w, t)
    decreases |t| - i
  {
    if i >= |t| then s
    else
      MarkChainCompletes(s, t[i], ok);
      MarkTable(MarkChain(s, t[i], ok), t, i + 1, ok)
  }

  // --------------------------------------------------------------------------- queueing

  /** The pass over one chain that queues the objects that are still unmarked, marking them. */
  function Enqueue(marks: set<Obj>, c: seq<Obj>, now: seq<Obj>): (set<Obj>, seq<Obj>, seq<Obj>)
    decreases |c|
  {
    if c == [] then (marks, [], now)
    else if c[0] in marks then
      var (m, kept, q) := Enqueue(marks, c[1..], now);
      (m, [c[0]] + kept, q)
    else Enqueue(marks + {c[0]}, c[1..], [c[0]] + now)
  }

  function EnqueueTable(marks: set<Obj>, t: seq<seq<Obj>>, now: seq<Obj>): (r: (set<Obj>, seq<seq<Obj>>, seq<Obj>))
    ensures |r.1| == |t|
    decreases |t|
  {
    if t == [] then (marks, [], now)
    else
      var (m, kept, q) := Enqueue(marks, t[0], now);
      var (m', rest, q') := EnqueueTable(m, t[1..], q);
      (m', [kept] + rest, q')
  }

  // ------------------------------------------------------------------------- GC_finalize

  /** What GC_finalize may rely on: a mark has been completed, pointers of marked objects still lead to marked ones
      although the world runs again and pages may be dirty (see WritesKeepComplete), and finalizable objects are heap
      objects. */
  ghost predicate Ready(f: Fin) { Complete(Clean(f.s)) && AllValid(f.s.w, f.fo) }

  /** After the short links have been dealt with. */
  function Unlinked(f: Fin): S { f.s.(w := ClearedTable(f.s.w, f.s.marks, f.dl, 0)) }

  /** After marking from the finalizable objects. */
  ghost function Revived(f: Fin, ok: (Obj, nat) -> bool): S
    requires Ready(f)
  {
    UnlinkedComplete(f);
    MarkTable(Clean(Unlinked(f)), f.fo, 0, ok)
  }

  ghost function Finalize(f: Fin, ok: (Obj, nat) -> bool): Fin
    requires Ready(f)
  {
    var s := Revived(f, ok);
    var (marks, fo, now) := EnqueueTable(s.marks, f.fo, f.now);
    var dl := KeptTable(marks, KeptTable(f.s.marks, f.dl, false), true);
    var ll := KeptTable(marks, KeptTable(marks, f.ll, false), true);
    Fin(s.(w := ClearedTable(s.w, marks, f.ll, 0), marks := marks, dirty := f.s.dirty, rootDirty := f.s.rootDirty),
        dl, ll, fo, now)
  }

  // ---------------------------------------------------------------------- well-formedness

  /** Clearing a link takes away at most one pointer. */
  ghost predicate Fewer(w: World, t: World) {
    && t.blocks == w.blocks && t.mem.Keys == w.mem.Keys && |t.roots| == |w.roots| && t.statics == w.statics
    && forall a :: |Cells(t, a)| == |Cells(w, a)| && forall j :: 0 <= j < |Cells(t, a)| ==> Cells(t, a)[j] == Data || Cells(t, a)[j] == Cells(w, a)[j]
  }

  lemma ClearLocFewer(w: World, loc: Loc)
    ensures Fewer(w, ClearLoc(w, loc))
  {
    var t := ClearLoc(w, loc);
    forall a ensures |Cells(t, a)| == |Cells(w, a)| && forall j :: 0 <= j < |Cells(t, a)| ==> Cells(t, a)[j] == Data || Cells(t, a)[j] == Cells(w, a)[j] {}
  }

  lemma FewerTrans(w: World, t: World, u: World)
    requires Fewer(w, t) && Fewer(t, u)
    ensures Fewer(w, u)
  {}

  lemma {:induction false} ClearedFewer(w: World, marks: set<Obj>, c: seq<Link>)
    ensures Fewer(w, Cleared(w, marks, c))
    decreases |c|
  {
    if c != [] {
      var t := if Stays(marks, c[0], false) then w else ClearLoc(w, c[0].loc);
      ClearLocFewer(w, c[0].loc);
      ClearedFewer(t, marks, c[1..]);
      FewerTrans(w, t, Cleared(w, marks, c));
    }
  }

  lemma {:induction false} ClearedTableFewer(w: World, marks: set<Obj>, t: seq<seq<Link>>, i: nat)
    ensures Fewer(w, ClearedTable(w, marks, t, i))
    decreases |t| - i
  {
    if i < |t| {
      var u := Cleared(w, marks, t[i]);
      ClearedFewer(w, marks, t[i]);
      ClearedTableFewer(u, marks, t, i + 1);
      FewerTrans(w, u, ClearedTable(w, marks, t, i));
    }
  }

  lemma FewerCovered(s: S, w: World, a: Area)
    requires Fewer(s.w, w) && Covered(s, a)
    ensures Covered(s.(w := w), a)
  {
    var t := s.(w := w);
    forall j | 0 <= j < |Cells(w, a)| ensures Done(t, Cells(w, a)[j]) || OnStack(t, a, j) {
      assert Done(s, Cells(s.w, a)[j]) || OnStack(s, a, j);
    }
  }

  /** A mark is complete exactly when nothing is left to do and marked objects and roots are covered. */
  lemma CompleteIs(s: S)
    requires WF(s) && s.scan <= |s.w.blocks| && s.stack == [] && s.state == None && s.dirty == {} && s.rootDirty == {}
    ensures Complete(s) <==> (forall o :: o in s.marks ==> Covered(s, InHeap(o))) && forall r: nat :: Covered(s, Root(r))
  {
    if Complete(s) {
      forall o | o in s.marks ensures Covered(s, InHeap(o)) { assert !Exempt(s, o); }
      forall r: nat ensures Covered(s, Root(r)) {
        if r < |s.w.roots| { assert AllRoots(s.w)[r] == r; }
      }
    }
  }

  lemma FewerComplete(s: S, w: World)
    requires Complete(s) && Fewer(s.w, w)
    ensures Complete(s.(w := w))
  {
    var t := s.(w := w);
    CompleteIs(s);
    CompleteIs(t);
    forall o | o in t.marks ensures Covered(t, InHeap(o)) { FewerCovered(s, w, InHeap(o)); }
    forall r: nat ensures Covered(t, Root(r)) { FewerCovered(s, w, Root(r)); }
  }

  /** What the program may have done to the heap since the world was restarted: it can only store pointers to what it
      could reach, and that is marked. */
  ghost predicate Written(w: World, v: World, marks: set<Obj>) {
    && v.blocks == w.blocks && |v.roots| == |w.roots| && v.statics == w.statics
    && forall a, j :: 0 <= j < |Cells(v, a)| ==>
        (j < |Cells(w, a)| && Cells(v, a)[j] == Cells(w, a)[j]) || (Cells(v, a)[j].Ref? ==> Cells(v, a)[j].target in marks)
  }

  /** Such writes set dirty bits and do not reopen the mark: the state GC_finalize finds is Ready. */
  lemma WritesKeepComplete(s: S, t: S)
    requires Complete(Clean(s)) && Written(s.w, t.w, s.marks) && t == s.(w := t.w, dirty := t.dirty, rootDirty := t.rootDirty)
    ensures Complete(Clean(t))
  {
    var a, b := Clean(s), Clean(t);
    CompleteIs(a);
    CompleteIs(b);
    forall o | o in b.marks ensures Covered(b, InHeap(o)) { WrittenCovered(a, b, InHeap(o)); }
    forall r: nat ensures Covered(b, Root(r)) { WrittenCovered(a, b, Root(r)); }
  }

  lemma WrittenCovered(s: S, t: S, a: Area)
    requires s.stack == [] && Covered(s, a) && Written(s.w, t.w, s.marks) && t == s.(w := t.w)
    ensures Covered(t, a)
  {
    forall j | 0 <= j < |Cells(t.w, a)| ensures Done(t, Cells(t.w, a)[j]) {
      if j < |Cells(s.w, a)| { assert Done(s, Cells(s.w, a)[j]); }
    }
  }

  lemma UnlinkedComplete(f: Fin)
    requires Ready(f)
    ensures Complete(Clean(Unlinked(f))) && AllValid(Unlinked(f).w, f.fo) && Fewer(f.s.w, Unlinked(f).w)
  {
    ClearedTableFewer(f.s.w, f.s.marks, f.dl, 0);
    FewerComplete(Clean(f.s), Unlinked(f).w);
    forall i | 0 <= i < |f.fo| ensures ChainValid(Unlinked(f).w, f.fo[i]) { assert ChainValid(f.s.w, f.fo[i]); }
  }

  // --------------------------------------------------------------------- marking from one

  lemma MarkFoReady(s: S, o: Obj)
    requires Complete(s) && Valid(s.w, o)
    ensures WF(PushObj(s, o))
    ensures var t := Drain(PushObj(s, o)); t.state != None ==> StopInv(t.(marks := t.marks + {o}))
  {
    PushOne(s, o);
    DrainKeeps(PushObj(s, o));
  }

  /** All that the objects in question point to is marked. */
  ghost predicate TargetsMarked(s: S, o: Obj) { forall q :: Points(s.w, InHeap(o), q) ==> q in s.marks }

  lemma {:induction false} DrainKeeps(s: S)
    requires WF(s) && MarkedCovered(s) && (s.state == None || s.state == Invalid) && s.dirty == {} && s.rootDirty == {}
    requires s.scan <= |s.w.blocks|
    ensures var t := Drain(s);
      && WF(t) && MarkedCovered(t) && t.stack == [] && t.scan <= |t.w.blocks| && t.dirty == {} && t.rootDirty == {}
      && (t.state == s.state || t.state == Invalid) && t.w == s.w && s.marks <= t.marks
      && t == s.(marks := t.marks, stack := t.stack, state := t.state, tooSmall := t.tooSmall, objsMarked := t.objsMarked)
      && (s.stack != [] ==> t.objsMarked)
    decreases Unmarked(s), Work(s.w, s.stack)
  {
    if s.stack != [] {
      DrainProgress(s);
      var u := s.(objsMarked := true);
      SameMarking(s, u);
      MarkFromKeeps(u, PAGE_WORDS);
      DrainKeeps(MarkFromStack(s));
    }
  }

  lemma {:induction false} DrainCovers(s: S, a: Area)
    requires WF(s) && MarkedCovered(s) && s.state == None && s.dirty == {} && s.rootDirty == {}
    requires s.scan <= |s.w.blocks| && Covered(s, a)
    ensures Drain(s).state == Invalid || Covered(Drain(s), a)
    decreases Unmarked(s), Work(s.w, s.stack)
  {
    if s.stack != [] {
      DrainProgress(s);
      var u := s.(objsMarked := true);
      SameMarking(s, u);
      CoveredSameStack(s, u, a);
      MarkFromKeeps(u, PAGE_WORDS);
      MarkFromCovers(u, PAGE_WORDS, a);
      var t := MarkFromStack(s);
      if t.state == Invalid { DrainKeeps(t); } else { DrainCovers(t, a); }
    }
  }

  lemma CompleteTargets(s: S, o: Obj)
    requires Complete(s) && o in s.marks
    ensures TargetsMarked(s, o)
  {
    forall q | Points(s.w, InHeap(o), q) ensures q in s.marks { CoveredTargetMarked(s, InHeap(o), q); }
  }

  lemma PushOne(s: S, o: Obj)
    requires Complete(s) && Valid(s.w, o)
    ensures var u := PushObj(s, o);
      && WF(u) && MarkedCovered(u) && Covered(u, InHeap(o)) && u == s.(stack := u.stack)
      && (u.stack == [] || u.stack == [Entry(InHeap(o), 0)])
  {
    var u := PushObj(s, o);
    forall x | x in u.marks ensures Covered(u, InHeap(x)) { StillDone(s, u, InHeap(x)); }
    if Scanned(s.w, o) {
      assert u.stack[0] == Entry(InHeap(o), 0);
      forall j | 0 <= j < |Cells(u.w, InHeap(o))| ensures OnStack(u, InHeap(o), j) {}
    }
  }

  /** What is covered without a mark stack stays so as more gets marked. */
  lemma StillDone(s: S, t: S, a: Area)
    requires Covered(s, a) && s.stack == [] && t.w == s.w && s.marks <= t.marks
    ensures Covered(t, a)
  {
    forall j | 0 <= j < |Cells(t.w, a)| ensures Done(t, Cells(t.w, a)[j]) { assert Done(s, Cells(s.w, a)[j]); }
  }

  lemma DrainedComplete(s: S, t: S)
    requires Complete(s) && t.w == s.w && s.marks <= t.marks
    requires WF(t) && t.scan <= |t.w.blocks| && t.stack == [] && t.state == None && t.dirty == {} && t.rootDirty == {}
    requires MarkedCovered(t)
    ensures Complete(t)
  {
    CompleteIs(s);
    CompleteIs(t);
    forall o | o in t.marks ensures Covered(t, InHeap(o)) { assert !Exempt(t, o); }
    forall r: nat ensures Covered(t, Root(r)) { StillDone(s, t, Root(r)); }
  }

  lemma MarkFoCompletes(s: S, o: Obj, ok: (Obj, nat) -> bool)
    requires Complete(s) && Valid(s.w, o)
    ensures var t := MarkFo(s, o, ok);
      Complete(t) && t.w == s.w && s.marks <= t.marks && TargetsMarked(t, o)
  {
    hide WF, MarkedCovered, Covered, Drain, Work, Unmarked, PushObj, MarkAll;
    MarkFoReady(s, o);
    PushOne(s, o);
    var u := PushObj(s, o);
    var t := Drain(u);
    DrainKeeps(u);
    if t.state == None {
      DrainCovers(u, InHeap(o));
      DrainedComplete(s, t);
      forall q | Points(t.w, InHeap(o), q) ensures q in t.marks { CoveredTargetMarked(t, InHeap(o), q); }
    } else {
      var t1 := t.(marks := t.marks + {o});
      MarkAllEnds(t1, {}, OkFor(ok, o), 0);
      CompleteTargets(MarkAll(t1, OkFor(ok, o), 0), o);
    }
  }

  /** The effect of a marking pass: marking is complete again, and so is it below all objects in question. */
  ghost predicate Passed(s: S, t: S, os: set<Obj>) {
    Complete(t) && t.w == s.w && s.marks <= t.marks && forall o :: o in os ==> TargetsMarked(t, o)
  }

  ghost function Elems(c: seq<Obj>): set<Obj> { set o | o in c }

  lemma {:induction false} MarkChainCompletes(s: S, c: seq<Obj>, ok: (Obj, nat) -> bool)
    requires Complete(s) && ChainValid(s.w, c)
    ensures Passed(s, MarkChain(s, c, ok), Elems(c))
    decreases |c|
  {
    if c != [] {
      var t := if c[0] in s.marks then s else MarkFo(s, c[0], ok);
      if c[0] in s.marks { CompleteTargets(s, c[0]); } else { MarkFoCompletes(s, c[0], ok); }
      MarkChainCompletes(t, c[1..], ok);
      var u := MarkChain(s, c, ok);
      forall o | o in Elems(c) ensures TargetsMarked(u, o) {
        if o != c[0] { assert o in Elems(c[1..]); }
      }
    }
  }

  lemma {:induction false} MarkTableCompletes(s: S, t: seq<seq<Obj>>, i: nat, ok: (Obj, nat) -> bool)
    requires Complete(s) && AllValid(s.w, t)
    ensures var u := MarkTable(s, t, i, ok);
      && Complete(u) && u.w == s.w && s.marks <= u.marks
      && forall k, o :: i <= k < |t| && o in t[k] ==> TargetsMarked(u, o)
    decreases |t| - i
  {
    if i < |t| {
      var v := MarkChain(s, t[i], ok);
      MarkChainCompletes(s, t[i], ok);
      MarkTableCompletes(v, t, i + 1, ok);
      var u := MarkTable(s, t, i, ok);
      forall k, o | i <= k < |t| && o in t[k] ensures TargetsMarked(u, o) {
        if k == i { assert o in Elems(t[i]); assert TargetsMarked(v, o); }
      }
    }
  }
}
