/** Marks one after the other: how they are numbered and who helps with them; and how threads share work out. */
module ParallelMarkRounds {
  import opened ParallelMarkModel
  import opened ParallelMarkProofs
  import opened ParallelMarkTheorems
  import opened ParallelMarkLock

  // ------------------------------------------------------------------------- mark numbers

  /** GC_do_parallel_mark is done with a mark: nobody is inside any more. */
  predicate Ends(s: P, d: P) {
    0 < |s.ts| && 0 < |d.ts| && s.ts[0].pc.LeftTest? && d.ts[0].pc.Finished?
  }

  function MarksDone(run: seq<P>, i: nat): nat
    requires i < |run|
  {
    if i == 0 then 0 else MarksDone(run, i - 1) + if Ends(run[i - 1], run[i]) then 1 else 0
  }

  lemma StarterNumbers(s: P, c: Choice)
    requires Shape(s) && s.ts[0].pc.LeftTest?
    ensures var d := Step(s, 0, c);
      0 < |d.ts| && d.ts[0].pc.Finished? == (d.markNo != s.markNo) && (d.markNo == s.markNo || d.markNo == s.markNo + 1)
  {}

  lemma NumberStep(s: P, d: P, t: nat, c: Choice)
    requires Inv(s) && t < |s.ts| && Enabled(s, t) && d == Step(s, t, c)
    ensures d.markNo == s.markNo + if Ends(s, d) then 1 else 0
  {
    hide Shape, Colored, Step, Enabled, LockFree, HoldsLock, Inside, Done;
    InvShape(s);
    OnlyStarter(s, t);
    if s.ts[0].pc.LeftTest? && t == 0 { StarterNumbers(s, c); }
    else if d != s { StepMoves(s, d, t, c); }
  }

  lemma InvShape(s: P)
    requires Inv(s)
    ensures Shape(s) && 0 < |s.ts|
  {}

  lemma NumberNext(s: P, d: P)
    requires Inv(s) && Next(s, d)
    ensures d.markNo == s.markNo + if Ends(s, d) then 1 else 0
  {
    hide Inv, Step, Enabled;
    var t: nat :| t < |s.ts| && (d == Spurious(s, t) || (Enabled(s, t) && exists c :: d == Step(s, t, c)));
    if d != Spurious(s, t) {
      var c :| d == Step(s, t, c);
      NumberStep(s, d, t, c);
    }
  }

  /** GC_mark_no counts the marks that have been completed. */
  lemma {:induction false} MarkNumber(run: seq<P>, i: nat)
    requires IsRun(run) && i < |run|
    ensures run[i].markNo == run[0].markNo + MarksDone(run, i)
  {
    hide Inv, Next, Init, Ends;
    if i > 0 {
      MarkNumber(run, i - 1);
      RunInv(run, i - 1);
      assert Next(run[i - 1], run[i - 1 + 1]);
      NumberNext(run[i - 1], run[i]);
    }
  }

  // ------------------------------------------------------------------------------ helping

  /** What a helper in its loop does: it catches up with the mark number if it is behind, waits if it is ahead or no help is
      wanted, and otherwise helps, unless there are helpers enough. */
  lemma HelperChooses(s: P, t: nat, c: Choice)
    requires t < |s.ts| && s.ts[t].pc.HelpTest?
    ensures var d, no := Step(s, t, c), s.ts[t].no;
      && t < |d.ts|
      && (no < s.markNo ==> d.ts[t].pc.HelpTest? && d.ts[t].no == s.markNo && d.helperCount == s.helperCount)
      && (no > s.markNo || (no == s.markNo && !s.helpWanted) ==> d.ts[t] == s.ts[t].(pc := HelpWait(false)))
      && (no == s.markNo && s.helpWanted && s.helperCount <= s.markersM1 ==>
            d.ts[t] == s.ts[t].(pc := Enter) && d.helperCount == s.helperCount + 1)
      && (no == s.markNo && s.helpWanted && s.helperCount > s.markersM1 ==>
            d.ts[t] == s.ts[t].(no := no + 1) && d.helperCount == s.helperCount)
  {}

  /** A helper that is ahead of the mark number. */
  predicate Past(s: P, t: nat) {
    0 < t < |s.ts| && !Inside(s.ts[t].pc) && s.ts[t].no > s.markNo
  }

  lemma PastStays(s: P, d: P, t: nat, u: nat, c: Choice)
    requires Inv(s) && Past(s, t) && u < |s.ts| && Enabled(s, u) && d == Step(s, u, c) && d.markNo == s.markNo
    ensures Past(d, t)
  {
    hide Shape, Colored, Enabled, LockFree, HoldsLock, Done, Step, Inside;
    InvShape(s);
    if d == s { return; }
    StepMoves(s, d, u, c);
    if u == t { AheadWaits(s, t, c); }
    else { WokenSame(s.ts[t]); }
  }

  /** Outside GC_mark_local a helper has nothing to do for a mark that it is ahead of. */
  lemma AheadWaits(s: P, t: nat, c: Choice)
    requires Shape(s) && Past(s, t)
    ensures var d := Step(s, t, c); t < |d.ts| && d.ts[t].no == s.ts[t].no && !Inside(d.ts[t].pc)
  {
    assert s.ts[t].pc.HelpTest? || s.ts[t].pc.HelpWait?;
  }

  lemma {:induction false} PastUntilDone(run: seq<P>, i: nat, j: nat, t: nat)
    requires IsRun(run) && i <= j < |run| && Past(run[i], t) && run[j].markNo == run[i].markNo
    ensures Past(run[j], t)
    decreases j
  {
    hide Inv, Next, Init, Past, Ends;
    if i < j {
      NumbersGrow(run, i, j - 1);
      NumbersGrow(run, j - 1, j);
      PastUntilDone(run, i, j - 1, t);
      RunInv(run, j - 1);
      assert Next(run[j - 1], run[j - 1 + 1]);
      PastNext(run[j - 1], run[j], t);
    }
  }

  lemma PastNext(s: P, d: P, t: nat)
    requires Inv(s) && Next(s, d) && Past(s, t) && d.markNo == s.markNo
    ensures Past(d, t)
  {
    hide Inv, Step, Enabled, Inside;
    var u: nat :| u < |s.ts| && (d == Spurious(s, u) || (Enabled(s, u) && exists c :: d == Step(s, u, c)));
    if d == Spurious(s, u) { WokenSame(s.ts[u]); }
    else {
      var c :| d == Step(s, u, c);
      PastStays(s, d, t, u, c);
    }
  }

  lemma {:induction false} NumbersGrow(run: seq<P>, i: nat, j: nat)
    requires IsRun(run) && i <= j < |run|
    ensures run[i].markNo <= run[j].markNo
    decreases j
  {
    hide Inv, Next, Init, Ends;
    if i < j {
      NumbersGrow(run, i, j - 1);
      RunInv(run, j - 1);
      assert Next(run[j - 1], run[j - 1 + 1]);
      NumberNext(run[j - 1], run[j]);
    }
  }

  /** A helper takes part in each mark at most once: when it has left it does not come back until the mark is over. */
  lemma HelpsOnce(run: seq<P>, i: nat, j: nat, t: nat)
    requires IsRun(run) && i < j < |run| && 0 < t < |run[i].ts| == |run[i + 1].ts|
    requires Inside(run[i].ts[t].pc) && !Inside(run[i + 1].ts[t].pc) && run[j].markNo == run[i].markNo
    ensures t < |run[j].ts| && !Inside(run[j].ts[t].pc) && run[j].ts[t].no > run[j].markNo
  {
    hide Inv, Next, Init, Ends, Inside;
    RunLocked(run, i);
    RunInv(run, i);
    assert Next(run[i], run[i + 1]);
    NumbersGrow(run, i, i + 1);
    NumbersGrow(run, i + 1, j);
    LeavesAhead(run[i], run[i + 1], t);
    PastUntilDone(run, i + 1, j, t);
  }

  lemma LeavesAhead(s: P, d: P, t: nat)
    requires Inv(s) && Locked(s) && Next(s, d) && 0 < t < |s.ts| == |d.ts| && Inside(s.ts[t].pc) && !Inside(d.ts[t].pc)
    requires d.markNo == s.markNo
    ensures Past(d, t)
  {
    hide Inv, Step, Enabled, Inside, Exclusive, Wanted;
    var u: nat :| u < |s.ts| && (d == Spurious(s, u) || (Enabled(s, u) && exists c :: d == Step(s, u, c)));
    WokenSame(s.ts[t]);
    if d != Spurious(s, u) {
      var c :| d == Step(s, u, c);
      InvShape(s);
      if u == t { LeavesByExit(s, t, c); }
      else { OnlyWoken(s, d, u, c); }
    }
  }

  lemma OnlyWoken(s: P, d: P, u: nat, c: Choice)
    requires Inv(s) && u < |s.ts| && Enabled(s, u) && d == Step(s, u, c)
    ensures OthersWait(s, d, u)
  {
    hide Shape, Colored, Enabled, LockFree, HoldsLock, Done, Step, Inside;
    InvShape(s);
    if d != s { StepMoves(s, d, u, c); }
  }

  lemma LeavesByExit(s: P, t: nat, c: Choice)
    requires 0 < t < |s.ts| && Inside(s.ts[t].pc)
    requires t < |Step(s, t, c).ts| && !Inside(Step(s, t, c).ts[t].pc)
    ensures Step(s, t, c).ts[t].no == s.ts[t].no + 1
  {
    hide Step;
    var pc := s.ts[t].pc;
    if LoopPc(pc) || pc.Enter? || pc.Recheck? || pc.Compare? { LoopStays(s, t, c); }
    else if pc.Steal? || pc.Zero? || pc.WantReturn? || pc.Broadcast? { WorkStays(s, t, c); }
    else if pc.Mark? { MarkStays(s, t, c); }
    else { ExitCounts(s, t, c); }
  }

  lemma LoopStays(s: P, t: nat, c: Choice)
    requires t < |s.ts| && (LoopPc(s.ts[t].pc) || s.ts[t].pc.Enter? || s.ts[t].pc.Recheck? || s.ts[t].pc.Compare?)
    ensures t < |Step(s, t, c).ts| && Inside(Step(s, t, c).ts[t].pc)
  {
    match s.ts[t].pc
    case Recheck => assert Inside(RecheckStep(s, t).ts[t].pc);
    case _ =>
  }

  lemma StealStays(s: P, t: nat)
    requires t < |s.ts| && s.ts[t].pc.Steal?
    ensures t < |StealStep(s, t).ts| && Inside(StealStep(s, t).ts[t].pc)
  {}

  lemma ReturnStays(s: P, t: nat)
    requires t < |s.ts| && s.ts[t].pc.WantReturn?
    ensures t < |ReturnStack(s, t).ts| && Inside(ReturnStack(s, t).ts[t].pc)
  {}

  lemma WorkStays(s: P, t: nat, c: Choice)
    requires t < |s.ts| && (s.ts[t].pc.Steal? || s.ts[t].pc.Zero? || s.ts[t].pc.WantReturn? || s.ts[t].pc.Broadcast?)
    ensures t < |Step(s, t, c).ts| && Inside(Step(s, t, c).ts[t].pc)
  {
    hide StealStep, ReturnStack, Woken;
    match s.ts[t].pc
    case Steal(_, _, _, _) => StealStays(s, t);
    case WantReturn(_) => ReturnStays(s, t);
    case _ =>
  }

  lemma MarkStays(s: P, t: nat, c: Choice)
    requires t < |s.ts| && s.ts[t].pc.Mark?
    ensures t < |Step(s, t, c).ts| && Inside(Step(s, t, c).ts[t].pc)
  {
    hide LocalStep;
    if s.ts[t].local != [] { LocalStays(s, t, c); }
  }

  lemma LocalStays(s: P, t: nat, c: Choice)
    requires t < |s.ts| && s.ts[t].pc.Mark? && s.ts[t].local != []
    ensures t < |LocalStep(s, t, c).ts| && Inside(LocalStep(s, t, c).ts[t].pc)
  {
    hide ScanLocal;
    ScanStays(s, t, c.race);
  }

  lemma ScanStays(s: P, t: nat, race: bool)
    requires t < |s.ts| && s.ts[t].pc.Mark? && s.ts[t].local != []
    ensures t < |ScanLocal(s, t, race).ts| && ScanLocal(s, t, race).ts[t].pc.Mark?
  {}

  lemma ExitCounts(s: P, t: nat, c: Choice)
    requires 0 < t < |s.ts| && s.ts[t].pc.ExitTest? && t < |Step(s, t, c).ts| && !Inside(Step(s, t, c).ts[t].pc)
    ensures Step(s, t, c).ts[t].no == s.ts[t].no + 1
  {}

  // ----------------------------------------------------------------------------- stealing

  /** How much a thread takes off the shared stack at a time: at most two entries if it has seen fewer than ten, and at most six
      otherwise. */
  predicate FewThread(th: Thread) {
    match th.pc
    case Steal(p, n, i, max) => |th.local| <= i && |th.local| <= max + 1 && max == (if n - th.myFn < 10 then 1 else 5)
    case Zero(p, n, i, max, _) => |th.local| <= i <= max && max == (if n - th.myFn < 10 then 1 else 5)
    case _ => true
  }

  predicate Few(s: P) { forall t :: 0 <= t < |s.ts| ==> FewThread(s.ts[t]) }

  lemma OutsideFew(s: P, t: nat, c: Choice)
    requires t < |s.ts| && (OutsidePc(s.ts[t].pc) || s.ts[t].pc.Rest?) && FewThread(s.ts[t])
    ensures t < |Step(s, t, c).ts| && FewThread(Step(s, t, c).ts[t])
  {
    hide GoodStart;
    match s.ts[t].pc
    case HelpTest => assert FewThread(HelpStep(s, t).ts[t]);
    case _ =>
  }

  lemma StartFew(s: P, t: nat)
    requires t < |s.ts| && s.ts[t].local == [] && s.ts[t].myFn < |s.stack|
    ensures t < |StartSteal(s, t).ts| && FewThread(StartSteal(s, t).ts[t])
  {}

  lemma LoopFew(s: P, t: nat, c: Choice)
    requires t < |s.ts| && s.ts[t].local == [] && (LoopPc(s.ts[t].pc) || s.ts[t].pc.Recheck?)
    ensures t < |Step(s, t, c).ts| && FewThread(Step(s, t, c).ts[t])
  {
    hide StartSteal, Woken;
    if s.ts[t].myFn < |s.stack| { StartFew(s, t); }
    match s.ts[t].pc
    case ReadTop => assert FewThread(ReadTopStep(s, t).ts[t]);
    case Recheck => assert FewThread(RecheckStep(s, t).ts[t]);
    case _ =>
  }

  lemma StealFew(s: P, t: nat)
    requires t < |s.ts| && FewThread(s.ts[t]) && s.ts[t].pc.Steal?
    ensures t < |StealStep(s, t).ts| && FewThread(StealStep(s, t).ts[t])
  {}

  lemma ZeroFew(s: P, t: nat, weight: nat)
    requires t < |s.ts| && FewThread(s.ts[t]) && s.ts[t].pc.Zero? && s.ts[t].pc.p < |s.stack|
    ensures t < |ZeroStep(s, t, weight).ts| && FewThread(ZeroStep(s, t, weight).ts[t])
  {}

  lemma MovesFew(s: P, t: nat, c: Choice)
    requires t < |s.ts| && FewThread(s.ts[t]) && (s.ts[t].pc.Steal? || s.ts[t].pc.Zero?)
    ensures t < |Step(s, t, c).ts| && FewThread(Step(s, t, c).ts[t])
  {
    hide StealStep, ZeroStep, FewThread;
    match s.ts[t].pc
    case Steal(_, _, _, _) => StealFew(s, t);
    case Zero(p, _, _, _, _) => if p < |s.stack| { ZeroFew(s, t, c.weight); }
  }

  lemma WorkFew(s: P, t: nat, c: Choice)
    requires t < |s.ts| && !s.ts[t].pc.Rest? && !OutsidePc(s.ts[t].pc) && !LoopPc(s.ts[t].pc)
    requires !s.ts[t].pc.Recheck? && !s.ts[t].pc.Steal? && !s.ts[t].pc.Zero?
    ensures t < |Step(s, t, c).ts| && FewThread(Step(s, t, c).ts[t])
  {
    hide LocalStep, ReturnStack, ExitStep, CompareStep, Woken, GoodStart, StartStep;
    match s.ts[t].pc
    case Mark => if s.ts[t].local != [] { LocalFew(s, t, c); }
    case WantReturn(_) => ReturnFew(s, t);
    case ExitTest => ExitFew(s, t);
    case Compare(_) => CompareFew(s, t);
    case _ =>
  }

  lemma ReturnFew(s: P, t: nat)
    requires t < |s.ts| && s.ts[t].pc.WantReturn?
    ensures t < |ReturnStack(s, t).ts| && FewThread(ReturnStack(s, t).ts[t])
  {}

  lemma ExitFew(s: P, t: nat)
    requires t < |s.ts| && s.ts[t].pc.ExitTest?
    ensures t < |ExitStep(s, t).ts| && FewThread(ExitStep(s, t).ts[t])
  {}

  lemma CompareFew(s: P, t: nat)
    requires t < |s.ts| && s.ts[t].pc.Compare?
    ensures t < |CompareStep(s, t).ts| && FewThread(CompareStep(s, t).ts[t])
  {}

  lemma LocalFew(s: P, t: nat, c: Choice)
    requires t < |s.ts| && s.ts[t].pc.Mark? && s.ts[t].local != []
    ensures t < |LocalStep(s, t, c).ts| && FewThread(LocalStep(s, t, c).ts[t])
  {
    hide ScanLocal;
    ScanStays(s, t, c.race);
  }

  lemma FewStep(s: P, d: P, t: nat, c: Choice)
    requires Inv(s) && Few(s) && t < |s.ts| && Enabled(s, t) && d == Step(s, t, c)
    ensures Few(d)
  {
    hide Colored, Enabled, Step, FewThread, Woken, Counts, Waits, Roles, Consumed, ThreadOk;
    OnlyWoken(s, d, t, c);
    var pc := s.ts[t].pc;
    if OutsidePc(pc) || pc.Rest? { OutsideFew(s, t, c); }
    else if LoopPc(pc) || pc.Recheck? {
      NothingInHand(s, t);
      LoopFew(s, t, c);
    }
    else if pc.Steal? || pc.Zero? { MovesFew(s, t, c); }
    else { WorkFew(s, t, c); }
    forall u | 0 <= u < |d.ts| ensures FewThread(d.ts[u]) { if u != t { WokenFew(s.ts[u]); } }
  }

  lemma NothingInHand(s: P, t: nat)
    requires Inv(s) && t < |s.ts| && (LoopPc(s.ts[t].pc) || s.ts[t].pc.Recheck?)
    ensures s.ts[t].local == []
  {
    assert ThreadOk(s.stack, s.ts[t]);
  }

  lemma WokenFew(th: Thread)
    requires FewThread(th)
    ensures FewThread(Woken(th))
  {}

  lemma FewNext(s: P, d: P)
    requires Inv(s) && Few(s) && Next(s, d)
    ensures Few(d)
  {
    hide Inv, Step, Enabled, FewThread;
    var t: nat :| t < |s.ts| && (d == Spurious(s, t) || (Enabled(s, t) && exists c :: d == Step(s, t, c)));
    if d == Spurious(s, t) { WokenFew(s.ts[t]); }
    else {
      var c :| d == Step(s, t, c);
      FewStep(s, d, t, c);
    }
  }

  /** Over whole runs: nobody takes more than a few entries at a time, so some are left for others. */
  lemma {:induction false} StealsFew(run: seq<P>, i: nat, t: nat)
    requires IsRun(run) && i < |run| && t < |run[i].ts|
    ensures FewThread(run[i].ts[t])
  {
    RunFew(run, i);
  }

  lemma {:induction false} RunFew(run: seq<P>, i: nat)
    requires IsRun(run) && i < |run|
    ensures Few(run[i])
  {
    hide Inv, Next, Few;
    if i == 0 { NoneStealing(run[0]); }
    else {
      RunFew(run, i - 1);
      RunInv(run, i - 1);
      assert Next(run[i - 1], run[i - 1 + 1]);
      FewNext(run[i - 1], run[i]);
    }
  }

  lemma NoneStealing(s: P)
    requires Init(s)
    ensures Few(s)
  {}

  /** An object pushed on a full local stack: the entries on top make room for it, as many as the configuration says. */
  lemma OverflowLoses(s: P, t: nat, race: bool)
    requires t < |s.ts| && s.ts[t].local != [] && |s.ts[t].local| >= s.localCap && 0 < s.discards <= s.localCap
    ensures var l, d, e := s.ts[t].local, ScanLocal(s, t, race), s.ts[t].local[|s.ts[t].local| - 1];
      var more := e.lo < |Targets(s.mem, e.o)| && (race || Targets(s.mem, e.o)[e.lo] !in s.marks);
      more ==>
        && t < |d.ts| && d.invalid && |d.ts[t].local| == |l| - s.discards + 1
        && d.ts[t].local[..|l| - s.discards] == l[..|l| - s.discards]
        && d.ts[t].local[|l| - s.discards] == Entry(Targets(s.mem, e.o)[e.lo], 0)
  {}
}
