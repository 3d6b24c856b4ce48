/** The part of gc/alloc.c that decides when to mark, when to stop the world, and when a collection may
    finish.  Each method records what it did as a step of MarkRuns, so that everything proved about runs
    holds of the collector, whatever the sequence of calls. */
module CollectorDriver {
  import opened MarkModel
  import opened MarkInvariant
  import opened MarkTheorems
  import opened MarkRuns
  import opened MarkerObject

  /** The first k questions of the stopped mark are answered with no. */
  ghost predicate GoesOn(timedOut: (nat, nat) -> bool, mark: nat, k: nat) {
    forall j: nat :: j < k ==> !timedOut(mark, j)
  }

  class Collector {
    const incremental: bool
    const unlimited: bool          // GC_time_limit == GC_TIME_UNLIMITED
    const rate: nat                // GC_rate, which GC_set_rate keeps positive
    const maxPriorAttempts: nat    // max_prior_attempts
    const fullFreq: nat            // GC_full_freq
    const timedOut: (nat, nat) -> bool  // the answers of the stop function in use: to question i of stopped mark n
    var dontGc: bool
    var needFullGc: bool
    const m: Marker
    var nAttempts: nat
    var deficit: nat
    var nPartialGcs: nat
    var isFullGc: bool
    var gcNo: nat
    var stoppedMarks: nat          // how many there have been
    ghost var phase: Phase
    ghost var snap: World          // the heap when the last stopped mark ended
    ghost var atStop: set<Obj>     // the objects that were marked when the world was last stopped
    ghost var run: seq<C>

    ghost function Now(): C
      reads this, m, m.stack
      requires m.Valid()
    {
      C(m.View(), phase, incremental, snap)
    }

    /** The collector is where some run of the model leads. */
    ghost predicate Valid()
      reads this, m, m.stack
    {
      m.Valid() && IsRun(run) && run[|run| - 1] == Now() && 0 < rate
    }

    constructor (w: World, initialSize: nat, incremental: bool, unlimited: bool, rate: nat, attempts: nat, freq: nat,
                 timedOut: (nat, nat) -> bool)
      requires 16 <= initialSize && 0 < rate && forall b :: 0 <= b < |w.blocks| ==> w.blocks[b].objs <= initialSize / 2
      requires forall r, c :: 0 <= r < w.statics && c in Cells(w, Root(r)) ==> c.Ref? ==> !MarkModel.Valid(w, c.target)
      ensures Valid() && fresh(m) && fresh(m.stack) && phase == Running
    {
      this.incremental, this.unlimited, this.rate := incremental, unlimited, rate;
      maxPriorAttempts, fullFreq, this.timedOut, stoppedMarks := attempts, freq, timedOut, 0;
      dontGc, needFullGc, isFullGc := false, false, false;
      nAttempts, deficit, nPartialGcs, gcNo := 0, 0, 0, 0;
      m := new Marker(w, initialSize);
      phase, snap, atStop := Running, w, {};
      new;
      run := [Now()];
    }

    /** Append the present state to the run. */
    ghost method Record()
      requires m.Valid() && 0 < rate && IsRun(run) && Next(run[|run| - 1], Now())
      modifies this`run
      ensures Valid() && run == old(run) + [Now()]
    {
      ghost var r := run + [Now()];
      forall i | 0 <= i < |r| - 1 ensures Next(r[i], r[i + 1]) {
        if i < |run| - 1 { assert r[i] == run[i] && r[i + 1] == run[i + 1]; }
      }
      run := r;
    }

    /** The marked objects that GC_clear_marks leaves marked. */
    ghost predicate UncollectableMarked(o: Obj)
      reads m
    {
      o in m.marks && o.blk < |m.world.blocks| && IsUncollectable(m.world.blocks[o.blk].kind)
    }

    /** The mark that has ended is exact: marked is what can be reached, in the heap as it was then, from the roots and
        from what was marked when the world was stopped. */
    ghost predicate Exact()
      reads this, m
    {
      snap == m.world && forall o :: o in m.marks <==> Reachable(snap, atStop, o)
    }

    /** Only uncollectable objects were marked when the world was stopped: the collection is a full one. */
    ghost predicate Full()
      reads this, m
    {
      forall o :: o in atStop ==> o.blk < |m.world.blocks| && IsUncollectable(m.world.blocks[o.blk].kind)
    }

    /** The program runs for a while: it may write to any object and change any root.  Nothing else is
        known to the callers of this method. */
    method Mutate()
      requires Valid() && phase != Stopped
      modifies m`world, m`marks, m`dirty, m`rootDirty, this`run
      ensures Valid() && MarkRuns.Mutate(old(Now()), Now()) && old(run) < run && |run| == |old(run)| + 1
    {
      Record();
    }

    /** A stop function elsewhere: it may say anything, except that GC_never_stop_func says no. */
    method StopFunc(never: bool) returns (stop: bool)
      ensures never ==> !stop
    {
      if never { stop := false; } else { stop := *; }
    }

    /** An answer that depends on what is not modelled. */
    method Unknown() returns (b: bool)
    {
      b := *;
    }

    /** Which root areas besides static data a call with a NULL stack frame gets to see. */
    method SeenRoots() returns (rs: seq<nat>)
    {
      rs := *;
    }

    predicate InProgress()
      reads this, m
    {
      m.state != None
    }

    /** GC_clear_marks, and the flushing of the mark stack that precedes it in GC_try_to_collect_inner. */
    method FlushAndClear()
      requires Valid() && phase == Running
      modifies this`phase, this`run, m
      ensures Valid() && MayStop() && phase == Cleared && m.stack == old(m.stack) && old(run) < run && m.world == old(m.world)
      ensures forall o :: o in m.marks <==> old(UncollectableMarked(o))
    {
      m.InvalidateMarkState();
      m.ClearMarks();
      phase := Cleared;
      Record();
    }

    method ClearMarks()
      requires Valid() && phase == Running && incremental && m.state == None
      modifies this`phase, this`run, m
      ensures Valid() && MayStop() && phase == Cleared && m.stack == old(m.stack) && old(run) < run && m.world == old(m.world)
      ensures forall o :: o in m.marks <==> old(UncollectableMarked(o))
    {
      RunKeeps(run, |run| - 1);
      m.ClearMarks();
      phase := Cleared;
      Record();
    }

    /** GC_mark_some with the world running. */
    method MarkSomeRunning() returns (done: bool)
      requires Valid() && phase == Running && incremental && m.state != None
      modifies this`run, m, m.stack
      ensures Valid() && (m.stack == old(m.stack) || fresh(m.stack))
      ensures done == (m.state == None) && old(run) < run && |run| == |old(run)| + 1 && Nearer(m.View(), old(m.View()))
    {
      var rs := SeenRoots();
      var ok := Unknown();
      RunKeeps(run, |run| - 1);
      MarkSomeProgress(m.View(), rs, ok);
      MarkSomeFrame(m.View(), rs, ok);
      done := m.MarkSome(rs, ok);
      Record();
    }

    /** The situations in which the world is stopped for marking: the marks have just been cleared, or an
        incremental mark has ended. */
    ghost predicate MayStop()
      reads this, m
    {
      if phase == Cleared then m.state == Invalid && m.top == 0 else phase == Running && incremental && m.state == None
    }

    /** STOP_WORLD and GC_initiate_gc.  Up to then the program may have allocated uncollectable objects. */
    method StopWorld()
      requires Valid()
      requires MayStop()
      modifies this`phase, this`run, this`atStop, m, m.stack
      ensures Valid() && phase == Stopped && m.state != None && m.stack == old(m.stack)
      ensures old(run) < run && |run| == |old(run)| + 2
      ensures atStop == m.marks && Started(old(m.marks)) && OnlyReachable(m.View(), atStop)
      ensures m.world.blocks == old(m.world.blocks)
    {
      RunKeeps(run, |run| - 1);
      Mutate();
      m.InitiateGc(incremental);
      phase, atStop := Stopped, m.marks;
      OnlyThemselves(m.View());
      Record();
    }

    /** What was marked when the world was stopped: what had been marked before, and uncollectable objects. */
    ghost predicate Started(before: set<Obj>)
      reads this, m
    {
      && before <= atStop
      && forall o :: o in atStop && o !in before ==> o.blk < |m.world.blocks| && IsUncollectable(m.world.blocks[o.blk].kind)
    }

    /** GC_mark_some with the world stopped; it gets nearer to its end. */
    method MarkSomeStopped() returns (done: bool)
      requires Valid() && phase == Stopped && m.state != None
      modifies this`run, m, m.stack
      ensures Valid() && (m.stack == old(m.stack) || fresh(m.stack)) && old(run) < run && |run| == |old(run)| + 1
      ensures done == (m.state == None) && Nearer(m.View(), old(m.View()))
      ensures m.world == old(m.world) && old(m.marks) <= m.marks
      ensures old(OnlyReachable(m.View(), atStop)) ==> OnlyReachable(m.View(), atStop)
    {
      hide OnlyReachable, Inv, RootsCovered, Unmarked, Rank, BlocksLeft, Work, Nearer, MarkModel.MarkSome, MarkModel.WF;
      var grown := Unknown();
      RunKeeps(run, |run| - 1);
      if OnlyReachable(m.View(), atStop) { MarkSomeOnly(m.View(), atStop, OtherRoots(m.world), grown); }
      MarkSomeProgress(m.View(), OtherRoots(m.world), grown);
      MarkSomeFrame(m.View(), OtherRoots(m.world), grown);
      done := m.MarkSome(OtherRoots(m.world), grown);
      Record();
    }

    /** The end of a stopped mark, one way or the other. */
    method RestartWorld()
      requires Valid() && phase == Stopped
      modifies this`phase, this`snap, this`run, m`state, m`top
      ensures Valid() && old(run) < run && |run| == |old(run)| + 1
      ensures old(m.state) == None ==> phase == Completed && m.state == None && snap == m.world
      ensures old(m.state) != None ==> phase == Running && m.state != None
      ensures old(m.state) != None && !incremental ==> m.state == Invalid && m.top == 0
    {
      if m.state == None {
        phase, snap := Completed, m.world;
      } else {
        if !incremental { m.InvalidateMarkState(); }
        phase := Running;
      }
      Record();
    }

    /** The world is stopped, and marked as long as the stop function lets it. */
    method StopAndMark(never: bool) returns (ok: bool, i: nat)
      requires Valid()
      requires MayStop()
      modifies this`phase, this`run, this`atStop, m, m.stack
      ensures Valid() && (m.stack == old(m.stack) || fresh(m.stack)) && old(run) < run && phase == Stopped
      ensures ok == (m.state == None) && (never ==> ok) && |run| == |old(run)| + i + (if ok then 3 else 2)
      ensures !never ==> ok == !timedOut(stoppedMarks, i) && GoesOn(timedOut, stoppedMarks, i)
      ensures !never && timedOut(stoppedMarks, 0) ==> !ok
      ensures Started(old(m.marks)) && m.world.blocks == old(m.world.blocks)
      ensures ok ==> forall o :: o in m.marks <==> Reachable(m.world, atStop, o)
    {
      hide IsRun, OnlyReachable, Reachable, IsUncollectable, GoesOn, MarkModel.WF;
      StopWorld();
      ok, i := MarkUntil(never);
      if ok { ExactNow(run, Now(), atStop); }
    }

    /** GC_stopped_mark.  It returns TRUE only after a mark that ran to its end with the world stopped, and
        the world at that moment is kept in `snap`. */
    method StoppedMark(never: bool) returns (ok: bool)
      requires Valid()
      requires MayStop()
      modifies this`phase, this`snap, this`run, this`atStop, this`deficit, this`gcNo, this`stoppedMarks, m, m.stack
      ensures Valid() && (m.stack == old(m.stack) || fresh(m.stack)) && old(run) < run && stoppedMarks == old(stoppedMarks) + 1
      ensures never ==> ok
      // it is given up when the stop function says so, and not otherwise
      ensures !ok ==> timedOut(old(stoppedMarks), deficit) && GoesOn(timedOut, old(stoppedMarks), deficit)
      ensures !never && timedOut(old(stoppedMarks), 0) ==> !ok
      ensures ok ==> phase == Completed && m.state == None && gcNo == old(gcNo) + 1 && deficit == old(deficit)
      ensures !ok ==> phase == Running && m.state != None && gcNo == old(gcNo)
      ensures !ok && !incremental ==> m.state == Invalid && m.top == 0
      // the deficit is the number of calls of GC_mark_some: all steps but those of stopping and restarting the world
      ensures !ok ==> |run| == |old(run)| + deficit + 3
      ensures Started(old(m.marks)) && (ok ==> Exact()) && m.world.blocks == old(m.world.blocks)
    {
      hide IsRun, OnlyReachable, Reachable, IsUncollectable, GoesOn, MarkModel.WF;
      var i: nat;
      ok, i := StopAndMark(never);
      if ok { gcNo := gcNo + 1; } else { deficit := i; }
      stoppedMarks := stoppedMarks + 1;
      RestartWorld();
    }

    /** The loop of GC_stopped_mark: i calls of GC_mark_some that did not end the mark, and one more if it has ended. */
    method MarkUntil(never: bool) returns (ok: bool, i: nat)
      requires Valid() && phase == Stopped && m.state != None
      modifies this`run, m, m.stack
      ensures Valid() && (m.stack == old(m.stack) || fresh(m.stack)) && old(run) <= run
      ensures ok == (m.state == None) && (never ==> ok) && |run| == |old(run)| + i + (if ok then 1 else 0)
      ensures !never ==> ok == !timedOut(stoppedMarks, i) && GoesOn(timedOut, stoppedMarks, i)
      ensures !never && timedOut(stoppedMarks, 0) ==> !ok
      ensures m.world == old(m.world) && old(m.marks) <= m.marks
      ensures old(OnlyReachable(m.View(), atStop)) ==> OnlyReachable(m.View(), atStop)
    {
      hide IsRun, OnlyReachable, Unmarked, Rank, BlocksLeft, Work, MarkModel.WF;
      i := 0;
      ok := false;
      var stop := !never && timedOut(stoppedMarks, 0);
      while !stop
        invariant Valid() && m.state != None && old(run) <= run && |run| == |old(run)| + i
        invariant stop == (!never && timedOut(stoppedMarks, i)) && (!never ==> GoesOn(timedOut, stoppedMarks, i))
        invariant m.stack == old(m.stack) || fresh(m.stack)
        invariant m.world == old(m.world) && old(m.marks) <= m.marks
        invariant old(OnlyReachable(m.View(), atStop)) ==> OnlyReachable(m.View(), atStop)
        decreases Unmarked(m.View()), Rank(m.View()), BlocksLeft(m.View()), Work(m.world, m.View().stack), !stop
      {
        ok := MarkSomeStopped();
        if ok { return; }
        i := i + 1;
        stop := !never && timedOut(stoppedMarks, i);
      }
    }

    /** GC_finish_collection: it only ever runs when every object that was reachable when the world was
        restarted is marked. */
    method FinishCollection()
      requires Valid() && phase == Completed
      requires forall o :: Reachable(snap, {}, o) ==> o in m.marks
      modifies this`phase, this`run, this`nAttempts, this`isFullGc
      ensures Valid() && phase == Running && nAttempts == 0 && !isFullGc && old(run) < run
    {
      phase := Running;
      nAttempts := 0;
      isFullGc := false;
      Record();
    }

    /** GC_stopped_mark followed by GC_finish_collection when it succeeded. */
    method StoppedMarkAndFinish(never: bool) returns (ok: bool)
      requires Valid()
      requires MayStop()
      modifies this, m, m.stack
      ensures Valid() && (m.stack == old(m.stack) || fresh(m.stack)) && old(run) < run
      ensures phase == Running && ok == (m.state == None) && (never ==> ok) && (!never && timedOut(old(stoppedMarks), 0) ==> !ok)
      ensures gcNo == old(gcNo) + (if ok then 1 else 0) && nPartialGcs == old(nPartialGcs)
      ensures dontGc == old(dontGc) && needFullGc == old(needFullGc)
      ensures if ok then nAttempts == 0 && !isFullGc && deficit == old(deficit)
        else nAttempts == old(nAttempts) && isFullGc == old(isFullGc)
      ensures Started(old(m.marks)) && (ok ==> Exact()) && m.world.blocks == old(m.world.blocks)
    {
      ok := StoppedMark(never);
      if ok {
        CompletedRunIsSound(run, Now());
        FinishCollection();
      }
    }

    /** GC_maybe_gc's choice between a full and a partial incremental collection. */
    method ChooseKind()
      requires Valid() && phase == Running && incremental && m.state == None
      modifies this`phase, this`run, this`nPartialGcs, this`isFullGc, m
      ensures Valid() && MayStop() && m.stack == old(m.stack) && old(run) <= run
      ensures (needFullGc || old(nPartialGcs) >= fullFreq) <==> phase == Cleared
      ensures nPartialGcs == if phase == Cleared then 0 else old(nPartialGcs) + 1
      ensures isFullGc == (phase == Cleared || old(isFullGc)) && m.world == old(m.world)
      ensures forall o :: o in m.marks <==> if phase == Cleared then old(UncollectableMarked(o)) else o in old(m.marks)
    {
      if needFullGc || nPartialGcs >= fullFreq {
        ClearMarks();
        nPartialGcs := 0;
        isFullGc := true;
      } else {
        nPartialGcs := nPartialGcs + 1;
      }
    }

    /** Is the next collection to be a full one? */
    predicate FullNext()
      reads this
    {
      needFullGc || nPartialGcs >= fullFreq
    }

    /** GC_maybe_gc, where `shouldCollect` is the answer of GC_should_collect. */
    method MaybeGc(shouldCollect: bool)
      requires Valid() && phase == Running && (incremental ==> m.state == None)
      modifies this, m, m.stack
      ensures Valid() && phase == Running && (m.stack == old(m.stack) || fresh(m.stack)) && old(run) <= run
      ensures dontGc == old(dontGc) && needFullGc == old(needFullGc)
      ensures !shouldCollect ==> Now() == old(Now()) && gcNo == old(gcNo) && nAttempts == old(nAttempts)
      ensures !shouldCollect ==> nPartialGcs == old(nPartialGcs) && isFullGc == old(isFullGc) && deficit == old(deficit)
      ensures shouldCollect ==> nPartialGcs == if !incremental || old(FullNext()) then 0 else old(nPartialGcs) + 1
      ensures shouldCollect && (!incremental || unlimited) ==> gcNo == old(gcNo) + 1
      ensures incremental && !unlimited && timedOut(old(stoppedMarks), 0) ==> gcNo == old(gcNo)
      ensures shouldCollect && gcNo == old(gcNo) ==> m.state != None && isFullGc == (old(FullNext()) || old(isFullGc))
      ensures shouldCollect && gcNo == old(gcNo) ==> nAttempts == old(nAttempts) + (if isFullGc then 0 else 1)
      ensures gcNo == old(gcNo) || (gcNo == old(gcNo) + 1 && m.state == None && nAttempts == 0 && !isFullGc)
      // what a finished collection has marked: nothing stays marked for having been marked before if it was a full one
      ensures gcNo > old(gcNo) ==> Exact() && forall o :: old(UncollectableMarked(o)) ==> o in atStop
      ensures gcNo > old(gcNo) && (!incremental || old(FullNext())) ==> Full()
      ensures gcNo > old(gcNo) && incremental && !old(FullNext()) ==> Started(old(m.marks))
    {
      hide IsRun, Reachable, IsUncollectable;
      if !shouldCollect { return; }
      if !incremental {
        var _ := CollectStopped(true);
        nPartialGcs := 0;
        return;
      }
      ChooseKind();
      var ok := StoppedMarkAndFinish(unlimited);
      if !ok && !isFullGc { nAttempts := nAttempts + 1; }
    }

    /** The second half of GC_try_to_collect_inner: a full collection with the world stopped. */
    method CollectStopped(never: bool) returns (ok: bool)
      requires Valid() && phase == Running
      modifies this, m, m.stack
      ensures Valid() && phase == Running && (m.stack == old(m.stack) || fresh(m.stack)) && old(run) < run
      ensures (never ==> ok) && (!never && timedOut(old(stoppedMarks), 0) ==> !ok)
      ensures gcNo == old(gcNo) + (if ok then 1 else 0) && dontGc == old(dontGc) && needFullGc == old(needFullGc)
      ensures if ok then m.state == None && nAttempts == 0 && !isFullGc else m.state != None && isFullGc
      ensures ok ==> Exact() && Full() && forall o :: old(UncollectableMarked(o)) ==> o in atStop
    {
      hide IsRun, Reachable, IsUncollectable;
      FlushAndClear();
      isFullGc := true;
      ok := StoppedMarkAndFinish(never);
    }

    /** The marking loop of GC_collect_a_little_inner, from work unit `first` on: it stops early only when
        GC_mark_some reported the end of a mark. */
    method MarkUnits(first: nat, limit: nat) returns (i: nat)
      requires Valid() && phase == Running && incremental && m.state != None
      modifies this`run, m, m.stack
      ensures Valid() && (m.stack == old(m.stack) || fresh(m.stack)) && old(run) <= run
      ensures i < limit <==> m.state == None
      // one call of GC_mark_some for each unit, after the program has run
      ensures |run| == |old(run)| + if i < limit then 2 * (i - first) + 2 else if first < limit then 2 * (limit - first) else 0
      ensures if first < limit then Nearer(m.View(), old(m.View())) else Now() == old(Now())
    {
      hide IsRun, Unmarked, Rank, BlocksLeft, Work, Nearer, MarkModel.WF;
      i := first;
      while i < limit
        invariant Valid() && m.state != None && old(run) <= run && first <= i && (first < limit ==> i <= limit)
        invariant |run| == |old(run)| + 2 * (i - first)
        invariant if i == first then Now() == old(Now()) else first < limit && Nearer(m.View(), old(m.View()))
        invariant m.stack == old(m.stack) || fresh(m.stack)
      {
        ghost var s := m.View();
        Mutate();
        ghost var t := m.View();
        MutatorNotFarther(s, t, incremental);
        var done := MarkSomeRunning();
        NearerTrans(s, t, m.View());
        NearerTrans(old(m.View()), s, m.View());
        if done { return; }
        i := i + 1;
      }
    }

    /** The choice GC_collect_a_little_inner makes at the end of a mark: another attempt that may be cut
        short, or one that has to succeed. */
    method FinishOrRetry()
      requires Valid() && phase == Running && incremental && m.state == None
      modifies this, m, m.stack
      ensures Valid() && phase == Running && (m.stack == old(m.stack) || fresh(m.stack)) && old(run) <= run
      ensures dontGc == old(dontGc) && needFullGc == old(needFullGc)
      ensures unlimited || old(nAttempts) >= maxPriorAttempts ==> gcNo == old(gcNo) + 1
      ensures !unlimited && old(nAttempts) < maxPriorAttempts && timedOut(old(stoppedMarks), 0) ==> gcNo == old(gcNo)
      ensures if m.state == None then gcNo == old(gcNo) + 1 && nAttempts == 0 && !isFullGc && deficit == old(deficit)
        else gcNo == old(gcNo) && nAttempts == old(nAttempts) + 1 && isFullGc == old(isFullGc)
      ensures Started(old(m.marks)) && (gcNo > old(gcNo) ==> Exact())
    {
      hide IsRun, Reachable, IsUncollectable;
      if nAttempts < maxPriorAttempts && !unlimited {
        var ok := StoppedMarkAndFinish(false);
        if !ok { nAttempts := nAttempts + 1; }
      } else {
        var _ := StoppedMarkAndFinish(true);
      }
    }

    /** GC_collect_a_little_inner.  With the world running, marking goes on until GC_mark_some reports the
        end or the work units are used up; only after the end is a stopped mark tried. */
    method CollectALittleInner(n: nat, shouldCollect: bool)
      requires Valid() && phase == Running
      modifies this, m, m.stack
      ensures Valid() && phase == Running && (m.stack == old(m.stack) || fresh(m.stack)) && old(run) <= run
      ensures dontGc == old(dontGc) && (dontGc ==> gcNo == old(gcNo) && nAttempts == old(nAttempts))
      ensures gcNo == old(gcNo) || (gcNo == old(gcNo) + 1 && m.state == None && nAttempts == 0 && !isFullGc && Exact())
      // nothing in progress: perhaps a collection begins
      ensures !incremental && shouldCollect && !dontGc ==> gcNo == old(gcNo) + 1
      ensures incremental && old(m.state) == None && shouldCollect && !dontGc ==> gcNo == old(gcNo) + 1 || m.state != None
      // a collection in progress: the deficit is worked off first, and when the mark ends an attempt to finish is made
      ensures incremental && old(m.state) != None && old(deficit) >= rate * n ==>
        Now() == old(Now()) && gcNo == old(gcNo) && nAttempts == old(nAttempts) && deficit == old(deficit) - rate * n
      ensures incremental && old(m.state) != None && old(deficit) < rate * n && m.state != None && nAttempts == old(nAttempts) ==>
        Nearer(m.View(), old(m.View()))
      ensures incremental && old(m.state) != None && old(deficit) < rate * n && m.state != None && nAttempts == old(nAttempts) ==>
        |run| == |old(run)| + 2 * (rate * n - old(deficit))
      ensures incremental && old(m.state) != None && old(deficit) < rate * n && (nAttempts == old(nAttempts) || gcNo > old(gcNo)) ==>
        deficit == 0
      ensures incremental && old(m.state) != None && m.state == None ==> dontGc || gcNo == old(gcNo) + 1
      ensures incremental && old(m.state) != None && gcNo == old(gcNo) && nAttempts != old(nAttempts) ==>
        nAttempts == old(nAttempts) + 1 <= maxPriorAttempts && !unlimited && m.state != None
    {
      hide IsRun, Reachable, IsUncollectable, Nearer;
      if !incremental || !InProgress() {
        if !dontGc { MaybeGc(shouldCollect); }
        return;
      }
      var maxDeficit := rate * n;
      var i := MarkUnits(deficit, maxDeficit);
      if i < maxDeficit && !dontGc { FinishOrRetry(); }
      if deficit > 0 {
        deficit := if deficit >= maxDeficit then deficit - maxDeficit else 0;
      }
    }

    /** How many more attempts to finish a collection in progress may be cut short. */
    ghost function AttemptsLeft(): nat
      reads this
    {
      if nAttempts < maxPriorAttempts then maxPriorAttempts - nAttempts else 0
    }

    /** One turn of the loop that finishes a collection in progress. */
    method FinishTurn()
      requires Valid() && phase == Running && incremental && m.state != None && !dontGc
      modifies this, m, m.stack
      ensures Valid() && phase == Running && (m.stack == old(m.stack) || fresh(m.stack)) && old(run) <= run
      ensures dontGc == old(dontGc) && gcNo >= old(gcNo)
      ensures m.state != None ==>
        || AttemptsLeft() < old(AttemptsLeft())
        || (AttemptsLeft() == old(AttemptsLeft()) && Nearer(m.View(), old(m.View())))
        || (AttemptsLeft() == old(AttemptsLeft()) && m.View() == old(m.View()) && deficit < old(deficit))
    {
      var shouldCollect := Unknown();
      CollectALittleInner(1, shouldCollect);
    }

    /** The loop of GC_try_to_collect_inner that finishes a collection in progress.  It ends: each turn works off some of
        the deficit, or gets the mark nearer to its end whatever the program does meanwhile, or uses up an attempt. */
    method FinishInProgress(never: bool) returns (stopped: bool)
      requires Valid() && phase == Running && incremental && !dontGc
      modifies this, m, m.stack
      ensures Valid() && phase == Running && (m.stack == old(m.stack) || fresh(m.stack)) && old(run) <= run
      ensures dontGc == old(dontGc) && gcNo >= old(gcNo) && (never ==> !stopped) && (!stopped ==> m.state == None)
    {
      hide IsRun, Unmarked, Rank, BlocksLeft, Work, MarkModel.WF;
      stopped := false;
      while InProgress()
        invariant Valid() && phase == Running && old(run) <= run && gcNo >= old(gcNo) && dontGc == old(dontGc)
        invariant m.stack == old(m.stack) || fresh(m.stack)
        decreases InProgress(), AttemptsLeft(), Unmarked(m.View()), Rank(m.View()), BlocksLeft(m.View()),
          Work(m.world, m.View().stack), deficit
      {
        stopped := StopFunc(never);
        if stopped { return; }
        FinishTurn();
      }
    }

    /** GC_try_to_collect_inner */
    method TryToCollectInner(never: bool) returns (ok: bool)
      requires Valid() && phase == Running
      modifies this, m, m.stack
      ensures Valid() && phase == Running && (m.stack == old(m.stack) || fresh(m.stack)) && old(run) <= run
      ensures dontGc == old(dontGc) && (dontGc ==> !ok && Now() == old(Now()) && gcNo == old(gcNo))
      ensures ok ==> m.state == None && gcNo > old(gcNo) && nAttempts == 0 && !isFullGc
      ensures never && !dontGc ==> ok
      ensures !never && (!incremental || old(m.state) == None) && timedOut(old(stoppedMarks), 0) ==> !ok
      ensures ok ==> Exact() && Full()
    {
      var stop := StopFunc(never);
      if dontGc || stop { return false; }
      if incremental && InProgress() {
        stop := FinishInProgress(never);
        if stop { return false; }
      }
      var reclaimed := Unknown();
      if !never && !reclaimed { return false; }
      ok := CollectStopped(never);
    }
  }

  lemma ExactNow(run: seq<C>, c: C, base: set<Obj>)
    requires IsRun(run) && run[|run| - 1] == c && c.phase == Stopped && c.m.state == None
    requires base <= c.m.marks && OnlyReachable(c.m, base)
    ensures forall o :: o in c.m.marks <==> Reachable(c.m.w, base, o)
  {
    RunKeeps(run, |run| - 1);
    StoppedMarkIsComplete(c.m, base);
  }

  lemma OnlyThemselves(s: S)
    requires s.stack == []
    ensures OnlyReachable(s, s.marks)
  {
    forall o | o in s.marks ensures Reachable(s.w, s.marks, o) {
      assert IsPath(s.w, s.marks, [o]) && [o][|[o]| - 1] == o;
    }
  }
}
