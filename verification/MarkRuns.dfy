/** Whole runs of the collector: marking steps with the world running or stopped, arbitrary writes by the
    mutator in between, stopped phases that are given up, partial and full collections in any order. */
module MarkRuns {
  import opened MarkModel
  import opened MarkInvariant
  import opened MarkTheorems

  /** What the program may do to the heap between two marking steps.  Objects and areas keep their sizes (what is not in
      use of a stack counts as data).  With dirty bits kept, the block of every object whose words change gets dirty, and
      so does a page of static data that changes; an uncollectable object that is newly allocated is marked at once, in a
      dirty block.  Other roots change without notice. */
  ghost predicate MutatorStep(s: S, t: S, incremental: bool) {
    && t == s.(w := t.w, dirty := t.dirty, rootDirty := t.rootDirty, marks := t.marks)
    && t.w.blocks == s.w.blocks && t.w.statics == s.w.statics && SameSizes(s.w, t.w)
    && s.marks <= t.marks
    && (forall o :: o in t.marks && o !in s.marks ==> Valid(s.w, o) && IsUncollectable(s.w.blocks[o.blk].kind))
    && if incremental then
         && s.dirty <= t.dirty && s.rootDirty <= t.rootDirty
         && (forall o :: o in t.marks && o !in s.marks ==> o.blk in t.dirty)
         && (forall o: Obj {:trigger Cells(t.w, InHeap(o))} ::
               o.blk !in t.dirty ==> Cells(t.w, InHeap(o)) == Cells(s.w, InHeap(o)))
         && (forall r: nat {:trigger Cells(t.w, Root(r))} ::
               r < t.w.statics && r !in t.rootDirty ==> Cells(t.w, Root(r)) == Cells(s.w, Root(r)))
       else t.dirty == s.dirty && t.rootDirty == s.rootDirty
  }

  ghost predicate SameSizes(w: World, v: World) {
    |v.roots| == |w.roots| && forall a: Area {:trigger Cells(v, a)} :: |Cells(v, a)| == |Cells(w, a)|
  }

  /** An area whose words are what they were is still covered. */
  lemma SameCovered(s: S, t: S, a: Area)
    requires Covered(s, a) && Cells(t.w, a) == Cells(s.w, a) && t.stack == s.stack && s.marks <= t.marks && t.w.blocks == s.w.blocks
    ensures Covered(t, a)
  {
    forall j | 0 <= j < |Cells(t.w, a)| ensures Done(t, Cells(t.w, a)[j]) || OnStack(t, a, j) {
      assert Done(s, Cells(s.w, a)[j]) || OnStack(s, a, j);
    }
  }

  lemma MutatorKeeps(s: S, t: S)
    requires Inv(s) && MutatorStep(s, t, true)
    ensures Inv(t)
  {
    forall o | o in t.marks ensures Exempt(t, o) || Covered(t, InHeap(o)) {
      if o.blk !in t.dirty && !Exempt(s, o) { SameCovered(s, t, InHeap(o)); }
    }
    forall r | 0 <= r < t.w.statics ensures StaticExempt(t, r) || Covered(t, Root(r)) {
      if r !in t.rootDirty && !StaticExempt(s, r) { SameCovered(s, t, Root(r)); }
    }
  }

  // ------------------------------------------------------------- progress in spite of the program

  /** t is nearer to the end of the mark than s, or just as near. */
  predicate NotFarther(t: S, s: S) {
    || Nearer(t, s)
    || (Unmarked(t) == Unmarked(s) && Rank(t) == Rank(s) && BlocksLeft(t) == BlocksLeft(s)
        && Work(t.w, t.stack) == Work(s.w, s.stack))
  }

  lemma {:induction false} SameWork(w: World, v: World, st: seq<Entry>)
    requires SameSizes(w, v)
    ensures Work(v, st) == Work(w, st)
  {
    if st != [] {
      SameWork(w, v, st[..|st| - 1]);
      assert |Cells(v, st[|st| - 1].area)| == |Cells(w, st[|st| - 1].area)|;
    }
  }

  /** Whatever the program does, the mark does not get farther from its end. */
  lemma MutatorNotFarther(s: S, t: S, incremental: bool)
    requires MutatorStep(s, t, incremental)
    ensures NotFarther(t, s)
  {
    SameWork(s.w, t.w, s.stack);
    assert Objects(t.w) == Objects(s.w);
    assert Unmarked(t) <= Unmarked(s);
  }

  lemma NearerTrans(s: S, t: S, u: S)
    requires NotFarther(t, s) && NotFarther(u, t)
    ensures NotFarther(u, s) && (Nearer(t, s) || Nearer(u, t) ==> Nearer(u, s))
  {
    hide Unmarked, Rank, BlocksLeft, Work;
  }

  /** Without dirty bits the invariant survives a write only while the marks are declared invalid. */
  lemma MutatorKeepsInvalid(s: S, t: S, incremental: bool)
    requires Inv(s) && s.state == Invalid && MutatorStep(s, t, incremental)
    ensures Inv(t) && t.state == Invalid
  {}

  datatype Phase = Running | Cleared | Stopped | Completed

  /** The collector as a whole.  `Cleared` is the stretch between GC_clear_marks and STOP_WORLD, `Completed`
      the one between the end of a stopped mark and GC_finish_collection; `snap` is the heap as it was
      when the last stopped mark ended. */
  datatype C = C(m: S, phase: Phase, incremental: bool, snap: World)

  /** Before there are objects, no static data refers to one. */
  predicate Init(c: C) {
    && WF(c.m) && c.m.marks == {} && c.m.stack == [] && c.m.state == None && c.m.scan == 0 && StaticsCovered(c.m)
    && c.phase == Running && (!c.incremental ==> c.m.dirty == {} && c.m.rootDirty == {})
  }

  ghost predicate Mutate(c: C, d: C) {
    c.phase != Stopped && d == c.(m := d.m) && MutatorStep(c.m, d.m, c.incremental)
  }

  /** GC_clear_marks, in GC_maybe_gc after a finished mark or in GC_try_to_collect_inner after flushing. */
  predicate Clear(c: C, d: C) {
    && c.phase == Running
    && (d == c.(m := ClearMarks(Invalidate(c.m)), phase := Cleared)
        || (c.incremental && c.m.state == None && d == c.(m := ClearMarks(c.m), phase := Cleared)))
  }

  /** GC_mark_some from GC_collect_a_little_inner: the world runs, and some roots besides static data may not be seen. */
  ghost predicate MarkRunning(c: C, d: C) {
    && c.phase == Running && c.incremental && c.m.state != None
    && exists rs, ok :: d == c.(m := MarkSome(c.m, rs, ok).0)
  }

  /** STOP_WORLD and GC_initiate_gc in GC_stopped_mark. */
  predicate Stop(c: C, d: C) {
    && (c.phase == Cleared || (c.phase == Running && c.incremental))
    && (c.m.state == None || (c.phase == Cleared && c.m.state == Invalid))
    && d == c.(m := InitiateGc(c.m, c.incremental), phase := Stopped)
  }

  ghost predicate MarkStopped(c: C, d: C) {
    && c.phase == Stopped && c.m.state != None
    && exists ok :: d == c.(m := MarkSome(c.m, OtherRoots(c.m.w), ok).0)
  }

  predicate Complete(c: C, d: C) {
    c.phase == Stopped && c.m.state == None && d == c.(phase := Completed, snap := c.m.w)
  }

  /** The stop function ended a stopped mark early. */
  predicate Abandon(c: C, d: C) {
    && c.phase == Stopped && c.m.state != None
    && d == c.(m := if c.incremental then c.m else Invalidate(c.m), phase := Running)
  }

  /** GC_finish_collection. */
  predicate Finish(c: C, d: C) {
    c.phase == Completed && d == c.(phase := Running)
  }

  ghost predicate Next(c: C, d: C) {
    || Mutate(c, d) || Clear(c, d) || MarkRunning(c, d) || Stop(c, d) || MarkStopped(c, d)
    || Complete(c, d) || Abandon(c, d) || Finish(c, d)
  }

  /** Everything that could be reached when the stopped mark ended is marked. */
  ghost predicate AllReachableMarked(c: C) {
    forall o :: Reachable(c.snap, c.m.marks, o) ==> o in c.m.marks
  }

  ghost predicate RunInv(c: C) {
    && WF(c.m)
    && (!c.incremental ==> c.m.dirty == {} && c.m.rootDirty == {})
    && (c.incremental && c.phase != Stopped ==> Inv(c.m))
    && match c.phase
       case Running => true
       case Cleared => Inv(c.m) && c.m.state == Invalid
       case Stopped => StopInv(c.m)
       case Completed => c.m.state == None && forall o :: Reachable(c.snap, {}, o) ==> o in c.m.marks
  }

  lemma InvalidateKeepsWF(s: S)
    requires WF(s)
    ensures WF(Invalidate(s)) && Inv(ClearMarks(Invalidate(s)))
  {
    ClearMarksKeeps(Invalidate(s));
  }

  lemma NextKeeps(c: C, d: C)
    requires RunInv(c) && Next(c, d)
    ensures RunInv(d)
  {
    if Mutate(c, d) {
      if c.incremental { MutatorKeeps(c.m, d.m); }
      if c.phase == Cleared { MutatorKeepsInvalid(c.m, d.m, c.incremental); }
    } else if Clear(c, d) {
      InvalidateKeepsWF(c.m);
      if c.m.stack == [] { ClearMarksKeeps(c.m); }
    } else if MarkRunning(c, d) {
      var rs, ok :| d == c.(m := MarkSome(c.m, rs, ok).0);
      MarkSomeKeeps(c.m, rs, ok);
    } else if Stop(c, d) {
      InitiateStops(c.m, c.incremental);
    } else if MarkStopped(c, d) {
      var ok :| d == c.(m := MarkSome(c.m, OtherRoots(c.m.w), ok).0);
      MarkSomeStopped(c.m, ok);
    } else if Complete(c, d) {
      StoppedMarkIsComplete(c.m, {});
    }
  }

  ghost predicate IsRun(run: seq<C>) {
    && run != [] && Init(run[0])
    && forall i :: 0 <= i < |run| - 1 ==> Next(run[i], run[i + 1])
  }

  lemma {:induction false} RunKeeps(run: seq<C>, i: nat)
    requires IsRun(run) && i < |run|
    ensures RunInv(run[i])
  {
    if i > 0 {
      RunKeeps(run, i - 1);
      assert Next(run[i - 1], run[i - 1 + 1]);
      NextKeeps(run[i - 1], run[i]);
    }
  }

  /** Over every run: when GC_finish_collection is about to run, whatever the mutator wrote and however often
      stopped marks were given up before, every object that was reachable when the world was restarted is
      marked. */
  lemma FinishedCollectionIsSound(run: seq<C>, i: nat, o: Obj)
    requires IsRun(run) && i < |run| && run[i].phase == Completed
    requires Reachable(run[i].snap, {}, o)
    ensures o in run[i].m.marks
  {
    RunKeeps(run, i);
  }

  lemma CompletedRunIsSound(run: seq<C>, c: C)
    requires IsRun(run) && run[|run| - 1] == c && c.phase == Completed
    ensures forall o :: Reachable(c.snap, {}, o) ==> o in c.m.marks
  {
    RunKeeps(run, |run| - 1);
  }

  /** At the moment a stopped mark ends, marked objects lead to marked objects only. */
  lemma CompletedMarksAreClosed(run: seq<C>, i: nat)
    requires IsRun(run) && i + 1 < |run| && Complete(run[i], run[i + 1])
    ensures AllReachableMarked(run[i + 1])
  {
    RunKeeps(run, i);
    StoppedMarkIsComplete(run[i].m, run[i].m.marks);
  }

  /** In incremental mode the invariant of gc_pmark.h holds at every point of every run. */
  lemma IncrementalInvariant(run: seq<C>, i: nat)
    requires IsRun(run) && i < |run| && run[0].incremental
    ensures Inv(run[i].m)
  {
    RunKeeps(run, i);
    ModeFixed(run, i);
  }

  /** A partial collection begins: what was marked stays marked, nothing is on the stack, and rescuers are looked for from the
      start of the heap on the pages that have become dirty since the last collection began. */
  lemma PartialStarts(run: seq<C>, c: nat)
    requires IsRun(run) && c + 1 < |run| && run[0].incremental && Stop(run[c], run[c + 1]) && run[c].m.state == None
    ensures var s, t := run[c].m, run[c + 1].m;
      && t.state == PushRescuers && t.scan == 0 && t.stack == [] && t.marks == s.marks && t.w == s.w
      && t.grungy == s.dirty && t.rootGrungy == s.rootDirty && t.dirty == {} && t.rootDirty == {}
  {
    ModeFixed(run, c);
    RunKeeps(run, c);
  }

  lemma {:induction false} GrungyStays(run: seq<C>, c: nat, j: nat)
    requires IsRun(run) && c < j < |run| && run[0].incremental && Stop(run[c], run[c + 1]) && run[c].m.state == None
    requires forall k :: c < k <= j ==> run[k].m.state == PushRescuers
    ensures run[j].m.grungy == run[c].m.dirty && run[j].m.rootGrungy == run[c].m.rootDirty
    decreases j
  {
    hide Next, Init, RunInv;
    if j == c + 1 { PartialStarts(run, c); }
    else {
      GrungyStays(run, c, j - 1);
      RunKeeps(run, j - 1);
      ModeFixed(run, j - 1);
      assert Next(run[j - 1], run[j - 1 + 1]);
      GrungyKept(run[j - 1], run[j]);
    }
  }

  lemma GrungyKept(c: C, d: C)
    requires RunInv(c) && Next(c, d) && c.incremental && c.m.state == PushRescuers && d.m.state == PushRescuers
    ensures d.m.grungy == c.m.grungy && d.m.rootGrungy == c.m.rootGrungy
  {
    if MarkRunning(c, d) {
      var rs, ok :| d == c.(m := MarkSome(c.m, rs, ok).0);
      MarkSomeFrame(c.m, rs, ok);
    } else if MarkStopped(c, d) {
      var ok :| d == c.(m := MarkSome(c.m, OtherRoots(c.m.w), ok).0);
      MarkSomeFrame(c.m, OtherRoots(c.m.w), ok);
    }
  }

  /** A partial collection looks for rescuers only where the program has written since the last collection began: every block
      it pushes until it goes on to the roots was dirty when it began. */
  lemma RescuersAreDirty(run: seq<C>, c: nat, j: nat, rs: seq<nat>, ok: bool)
    requires IsRun(run) && c < j < |run| && run[0].incremental && Stop(run[c], run[c + 1]) && run[c].m.state == None
    requires forall k :: c < k <= j ==> run[k].m.state == PushRescuers
    ensures var s, t := run[j].m, MarkSome(run[j].m, rs, ok).0;
      t.scan != s.scan && t.scan != 0 ==> t.scan - 1 in run[c].m.dirty && t.marks == s.marks
  {
    RunKeeps(run, j);
    ModeFixed(run, j);
    GrungyStays(run, c, j);
    Turn(run[j].m, rs, ok);
  }

  lemma {:induction false} ModeFixed(run: seq<C>, i: nat)
    requires IsRun(run) && i < |run|
    ensures run[i].incremental == run[0].incremental
  {
    if i > 0 {
      ModeFixed(run, i - 1);
      assert Next(run[i - 1], run[i - 1 + 1]);
    }
  }
}
