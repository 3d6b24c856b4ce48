/** Runs of the parallel marker, over any number of cycles, threads and interleavings. */
module ParallelMarkTheorems {
  import opened ParallelMarkModel
  import opened ParallelMarkProofs

  ghost predicate IsRun(run: seq<P>) {
    && run != [] && Init(run[0])
    && forall i :: 0 <= i < |run| - 1 ==> Next(run[i], run[i + 1])
  }

  lemma NextKeeps(s: P, d: P)
    requires Inv(s) && Next(s, d)
    ensures Inv(d)
  {
    var t: nat :| t < |s.ts| && (d == Spurious(s, t) || (Enabled(s, t) && exists c :: d == Step(s, t, c)));
    if d == Spurious(s, t) { SpuriousKeeps(s, t); }
    else {
      var c :| d == Step(s, t, c);
      StepKeeps(s, t, c);
    }
  }

  lemma {:induction false} RunInv(run: seq<P>, i: nat)
    requires IsRun(run) && i < |run|
    ensures Inv(run[i])
  {
    if i == 0 { InitInv(run[0]); }
    else {
      RunInv(run, i - 1);
      assert Next(run[i - 1], run[i - 1 + 1]);
      NextKeeps(run[i - 1], run[i]);
    }
  }

  /** Some thread passes its exit test and leaves GC_mark_local. */
  predicate Leaves(s: P, d: P) {
    exists t :: 0 <= t < |s.ts| && s.ts[t].pc.ExitTest? && MayExit(s) && d == ExitStep(s, t)
  }

  /** A new cycle begins. */
  predicate Starts(s: P, d: P) {
    0 < |s.ts| && 0 < |d.ts| && s.ts[0].pc.Rest? && d.ts[0].pc.Enter?
  }

  lemma ExitedStays(s: P, d: P)
    requires 0 < |s.ts| && Next(s, d) && s.exited && !Starts(s, d)
    ensures d.exited
  {
    var t: nat :| t < |s.ts| && (d == Spurious(s, t) || (Enabled(s, t) && exists c :: d == Step(s, t, c)));
    if d != Spurious(s, t) {
      var c :| d == Step(s, t, c);
      StepExited(s, t, c);
    }
  }

  lemma StepExited(s: P, t: nat, c: Choice)
    requires t < |s.ts| && s.exited
    ensures Step(s, t, c).exited || (s.ts[0].pc.Rest? && 0 < |Step(s, t, c).ts| && Step(s, t, c).ts[0].pc.Enter?)
  {
    if s.ts[t].pc.Rest? { }
    else if OutsidePc(s.ts[t].pc) { OutsideExited(s, t, c); }
    else if LoopPc(s.ts[t].pc) { LoopExited(s, t, c); }
    else { WorkExited(s, t, c); }
  }

  lemma OutsideExited(s: P, t: nat, c: Choice)
    requires t < |s.ts| && OutsidePc(s.ts[t].pc)
    ensures Step(s, t, c).exited == s.exited
  {}

  lemma LoopExited(s: P, t: nat, c: Choice)
    requires t < |s.ts| && LoopPc(s.ts[t].pc)
    ensures Step(s, t, c).exited == s.exited
  {}

  lemma WorkExited(s: P, t: nat, c: Choice)
    requires t < |s.ts| && !s.ts[t].pc.Rest? && !OutsidePc(s.ts[t].pc) && !LoopPc(s.ts[t].pc)
    ensures Step(s, t, c).exited || !s.exited
  {
    match s.ts[t].pc
    case ExitTest => assert ExitStep(s, t).exited || !s.exited;
    case Mark => if s.ts[t].local != [] { assert LocalStep(s, t, c).exited == s.exited; }
    case Recheck => assert RecheckStep(s, t).exited == s.exited;
    case WantReturn(_) => assert ReturnStack(s, t).exited == s.exited;
    case _ =>
  }

  lemma {:induction false} ExitedFrom(run: seq<P>, i: nat, j: nat)
    requires IsRun(run) && i <= j < |run| && run[i].exited
    requires forall k :: i <= k < j ==> !Starts(run[k], run[k + 1])
    ensures run[j].exited
    decreases j - i
  {
    if i < j {
      RunInv(run, i);
      assert Next(run[i], run[i + 1]);
      ExitedStays(run[i], run[i + 1]);
      ExitedFrom(run, i + 1, j);
    }
  }

  /** Exit safety.  Once some helper has left GC_mark_local there is no work left anywhere (every shared
      entry has been taken, no thread holds an entry), and that stays so until the next cycle starts, even
      if late helpers still come in and raise GC_active_count. */
  lemma ExitMeansNoWork(run: seq<P>, i: nat, j: nat)
    requires IsRun(run) && i < j < |run| && Leaves(run[i], run[i + 1])
    requires forall k :: i < k < j ==> !Starts(run[k], run[k + 1])
    ensures NoWork(run[j])
  {
    ExitedFrom(run, i + 1, j);
    RunInv(run, j);
  }

  /** When GC_do_parallel_mark is done with its own share, everything marked leads to marked objects,
      unless entries were dropped, in which case the mark state says so; and the stack is used up, as
      GC_mark_some asserts. */
  lemma ParallelMarkIsComplete(run: seq<P>, i: nat)
    requires IsRun(run) && i < |run| && 0 < |run[i].ts| && StarterPc(run[i].ts[0].pc)
    ensures NoWork(run[i]) && run[i].fn >= |run[i].stack|
    ensures run[i].invalid || forall o, j :: o in run[i].marks && 0 <= j < |Targets(run[i].mem, o)|
                                ==> Targets(run[i].mem, o)[j] in run[i].marks
  {
    RunInv(run, i);
    var s := run[i];
    if !s.invalid {
      forall o, j | o in s.marks && 0 <= j < |Targets(s.mem, o)| ensures Targets(s.mem, o)[j] in s.marks {
        if Pending(s, o, j) {
          var e: Entry :| e.o == o && e.lo <= j && (OnShared(s, e) || InHands(s, e));
          NothingPending(s, e);
        }
      }
    }
  }

  lemma NothingPending(s: P, e: Entry)
    requires NoWork(s)
    ensures !OnShared(s, e) && !InHands(s, e)
  {}

  /** Everything below GC_first_nonempty is consumed, and GC_first_nonempty is at most one past the top;
      so is every helper's my_first_nonempty while it looks for work. */
  lemma FirstNonempty(run: seq<P>, i: nat)
    requires IsRun(run) && i < |run|
    ensures Consumed(run[i].stack, run[i].fn)
    ensures forall t :: 0 <= t < |run[i].ts| && (run[i].ts[t].pc.LoopTop? || run[i].ts[t].pc.ReadTop? || run[i].ts[t].pc.Mark?)
              ==> Consumed(run[i].stack, run[i].ts[t].myFn)
  {
    RunInv(run, i);
  }

  lemma SomeoneCan(s: P) returns (t: nat)
    requires Inv(s) && 0 < |s.ts| && !s.ts[0].pc.Rest?
    ensures t < |s.ts| && Enabled(s, t)
  {
    if !LockFree(s) {
      t :| 0 <= t < |s.ts| && HoldsLock(s.ts[t].pc);
    } else {
      t := 0;
      if s.ts[t].pc == StarterWait(false) { t := CountSome(s.ts, IsInside); }
      if s.ts[t].pc == IdleWait(false) { t := CountSome(s.ts, IsActive); }
    }
  }

  /** No deadlock: as long as a parallel mark is going on, some thread can take a step. */
  lemma NoDeadlock(run: seq<P>, i: nat) returns (t: nat)
    requires IsRun(run) && i < |run| && 0 < |run[i].ts| && !run[i].ts[0].pc.Rest?
    ensures t < |run[i].ts| && Enabled(run[i], t)
  {
    RunInv(run, i);
    t := SomeoneCan(run[i]);
  }

  /** Nobody misses a wake-up: whoever waits un-notified has something to wait for. */
  lemma NoLostWakeup(run: seq<P>, i: nat, t: nat)
    requires IsRun(run) && i < |run| && t < |run[i].ts|
    ensures run[i].ts[t].pc == IdleWait(false) ==> exists u :: 0 <= u < |run[i].ts| && Active(run[i].ts[u].pc)
    ensures run[i].ts[t].pc == StarterWait(false) ==> exists u :: 0 <= u < |run[i].ts| && Inside(run[i].ts[u].pc)
  {
    RunInv(run, i);
    if run[i].ts[t].pc == IdleWait(false) { var u := CountSome(run[i].ts, IsActive); }
    if run[i].ts[t].pc == StarterWait(false) { var u := CountSome(run[i].ts, IsInside); }
  }

  /** The counters count, and the abort at the start of GC_do_parallel_mark is never taken. */
  lemma CountersAreExact(run: seq<P>, i: nat)
    requires IsRun(run) && i < |run|
    ensures run[i].helperCount == Count(run[i].ts, IsInside) && run[i].activeCount == Count(run[i].ts, IsActive)
    ensures 0 < |run[i].ts| && (run[i].ts[0].pc.Rest? ==> !BadStart(run[i]))
  {
    RunInv(run, i);
    if run[i].ts[0].pc.Rest? { NeverBadStart(run[i]); }
  }
}
