/** What the mark lock protects: at most one thread is in a critical section, a helper that is inside works for the
    present mark number, and help is wanted exactly while the starter is inside. */
module ParallelMarkLock {
  import opened ParallelMarkModel
  import opened ParallelMarkProofs
  import opened ParallelMarkTheorems

  /** Mutual exclusion. */
  predicate Exclusive(s: P) {
    forall t, u :: 0 <= t < |s.ts| && 0 <= u < |s.ts| && HoldsLock(s.ts[t].pc) && HoldsLock(s.ts[u].pc) ==> t == u
  }

  predicate Numbered(s: P) {
    forall t :: 0 < t < |s.ts| && Inside(s.ts[t].pc) ==> s.ts[t].no == s.markNo
  }

  /** Is the starter out of GC_mark_local, with GC_help_wanted reset? */
  predicate Done(pc: Pc) { StarterPc(pc) && !pc.Left? }

  predicate Wanted(s: P) { 0 < |s.ts| && s.helpWanted == !Done(s.ts[0].pc) }

  predicate Locked(s: P) { Exclusive(s) && Numbered(s) && Wanted(s) }

  /** What a step of thread t does to the thread itself, as far as the lock is concerned. */
  predicate Advances(s: P, d: P, t: nat)
    requires t < |s.ts| && t < |d.ts|
  {
    var p, q := s.ts[t].pc, d.ts[t].pc;
    && (HoldsLock(q) ==> HoldsLock(p) || LockFree(s))
    && d.markersM1 == s.markersM1 && (d.markNo == s.markNo || (p.LeftTest? && s.helperCount == 0))
    && (Inside(q) ==> d.ts[t].no == s.ts[t].no && (Inside(p) || p.Rest? || (p.HelpTest? && s.ts[t].no == s.markNo)))
    && (if t == 0 && (p.Rest? || p.Left?) then d.helpWanted == !Done(q)
        else d.helpWanted == s.helpWanted && Done(q) == Done(p))
  }

  /** The other threads stay where they are; a wait may be notified. */
  predicate OthersWait(s: P, d: P, t: nat) {
    && |d.ts| == |s.ts|
    && forall u :: 0 <= u < |s.ts| && u != t ==> d.ts[u] == s.ts[u] || d.ts[u] == Woken(s.ts[u])
  }

  lemma WokenSame(th: Thread)
    ensures HoldsLock(Woken(th).pc) == HoldsLock(th.pc) && Inside(Woken(th).pc) == Inside(th.pc)
    ensures Done(Woken(th).pc) == Done(th.pc) && Woken(th).no == th.no
  {}

  lemma AdvanceKeeps(s: P, d: P, t: nat)
    requires Shape(s) && Locked(s) && t < |s.ts| && OthersWait(s, d, t) && Advances(s, d, t)
    ensures Locked(d)
  {
    hide Shape, HoldsLock, Inside, Done, Woken;
    forall u | 0 <= u < |s.ts| && u != t
      ensures HoldsLock(d.ts[u].pc) == HoldsLock(s.ts[u].pc) && Inside(d.ts[u].pc) == Inside(s.ts[u].pc)
      ensures Done(d.ts[u].pc) == Done(s.ts[u].pc) && d.ts[u].no == s.ts[u].no
    {
      WokenSame(s.ts[u]);
    }
    if s.helperCount == 0 { NobodyInside(s); }
    OnlyStarter(s, t);
  }

  lemma NobodyInside(s: P)
    requires Shape(s) && s.helperCount == 0
    ensures forall u :: 0 <= u < |s.ts| ==> !Inside(s.ts[u].pc)
  {
    forall u | 0 <= u < |s.ts| ensures !Inside(s.ts[u].pc) {
      if Inside(s.ts[u].pc) { CountZero(s.ts, IsInside, u); }
    }
  }

  lemma OnlyStarter(s: P, t: nat)
    requires Shape(s) && t < |s.ts|
    ensures s.ts[t].pc.Left? || s.ts[t].pc.Rest? || s.ts[t].pc.LeftTest? ==> t == 0
  {}

  predicate Moves(s: P, d: P, t: nat) { t < |s.ts| && OthersWait(s, d, t) && Advances(s, d, t) }

  lemma MovedWait(s: P, d: P, t: nat, th: Thread, notify: bool)
    requires t < |s.ts| && d.ts == Moved(s, t, th, notify)
    ensures OthersWait(s, d, t)
  {}

  lemma GotoMoves(s: P, d: P, t: nat, th: Thread, notify: bool)
    requires t < |s.ts| && d.ts == Moved(s, t, th, notify)
    requires d.markNo == s.markNo && d.markersM1 == s.markersM1 && d.helpWanted == s.helpWanted
    requires !s.ts[t].pc.Rest? && !s.ts[t].pc.Left? && Done(th.pc) == Done(s.ts[t].pc)
    requires HoldsLock(th.pc) ==> HoldsLock(s.ts[t].pc) || LockFree(s)
    requires Inside(th.pc) ==> th.no == s.ts[t].no && (Inside(s.ts[t].pc) || (s.ts[t].pc.HelpTest? && s.ts[t].no == s.markNo))
    ensures Moves(s, d, t)
  {
    hide LockFree, HoldsLock, Inside, Done;
    MovedWait(s, d, t, th, notify);
  }

  lemma HelpMoves(s: P, d: P, t: nat)
    requires t < |s.ts| && s.ts[t].pc.HelpTest? && d == HelpStep(s, t)
    ensures Moves(s, d, t)
  {
    hide Moves;
    GotoMoves(s, d, t, d.ts[t], false);
  }

  lemma LeftTestMoves(s: P, d: P, t: nat)
    requires t < |s.ts| && s.ts[t].pc.LeftTest? && d == LeftTestStep(s, t) && s.helperCount >= 0
    ensures Moves(s, d, t)
  {
    hide LockFree;
    MovedWait(s, d, t, d.ts[t], false);
  }

  lemma ExitMoves(s: P, d: P, t: nat)
    requires t < |s.ts| && s.ts[t].pc.ExitTest? && d == ExitStep(s, t)
    ensures Moves(s, d, t)
  {
    hide Moves;
    GotoMoves(s, d, t, d.ts[t], MayExit(s) && s.helperCount == 1);
  }

  lemma StartMoves(s: P, d: P, t: nat, c: Choice)
    requires t < |s.ts| && s.ts[t].pc.Rest? && LockFree(s) && t == 0 && d == StartStep(s, c)
    ensures Moves(s, d, t)
  {
    hide LockFree, GoodStart;
    MovedWait(s, d, t, d.ts[t], true);
  }

  lemma MarkMoves(s: P, d: P, t: nat, c: Choice)
    requires t < |s.ts| && s.ts[t].pc.Mark? && s.ts[t].local != [] && d == LocalStep(s, t, c)
    ensures Moves(s, d, t)
  {
    hide Moves, ScanLocal, LocalAdvanced, LockFree;
    ScanLocalOn(s, t, c.race);
    GotoMoves(s, d, t, d.ts[t], false);
  }

  lemma StealMoves(s: P, d: P, t: nat)
    requires t < |s.ts| && s.ts[t].pc.Steal? && d == StealStep(s, t)
    ensures Moves(s, d, t)
  {
    hide Moves, LockFree;
    GotoMoves(s, d, t, d.ts[t], false);
  }

  lemma ReturnMoves(s: P, d: P, t: nat)
    requires t < |s.ts| && s.ts[t].pc.WantReturn? && d == ReturnStack(s, t)
    ensures Moves(s, d, t)
  {
    hide Moves, LockFree;
    GotoMoves(s, d, t, d.ts[t], false);
  }

  lemma RecheckMoves(s: P, d: P, t: nat)
    requires t < |s.ts| && s.ts[t].pc.Recheck? && d == RecheckStep(s, t)
    ensures Moves(s, d, t)
  {
    hide Moves, LockFree;
    GotoMoves(s, d, t, d.ts[t], |s.stack| <= s.ts[t].myFn && s.activeCount == 1);
  }

  lemma CompareMoves(s: P, d: P, t: nat)
    requires t < |s.ts| && s.ts[t].pc.Compare? && d == CompareStep(s, t)
    ensures Moves(s, d, t)
  {
    hide Moves, LockFree;
    GotoMoves(s, d, t, d.ts[t], false);
  }

  lemma LeftMoves(s: P, d: P, t: nat)
    requires t < |s.ts| && s.ts[t].pc.Left? && t == 0 && d == Goto(s.(helpWanted := false), t, LeftTest)
    ensures Moves(s, d, t)
  {
    hide LockFree;
    MovedWait(s, d, t, d.ts[t], false);
  }

  lemma ZeroMoves(s: P, d: P, t: nat, weight: nat)
    requires t < |s.ts| && s.ts[t].pc.Zero? && s.ts[t].pc.p < |s.stack| && d == ZeroStep(s, t, weight)
    ensures Moves(s, d, t)
  {
    hide Moves, LockFree;
    GotoMoves(s, d, t, d.ts[t], false);
  }

  /** A step that is a mere change of pc. */
  lemma PcMoves(s: P, d: P, t: nat, pc: Pc, notify: bool)
    requires t < |s.ts| && d == (if notify then GotoNotify(s, t, pc) else Goto(s, t, pc))
    requires !s.ts[t].pc.Rest? && !s.ts[t].pc.Left? && Done(pc) == Done(s.ts[t].pc)
    requires HoldsLock(pc) ==> HoldsLock(s.ts[t].pc) || LockFree(s)
    requires Inside(pc) ==> Inside(s.ts[t].pc)
    ensures Moves(s, d, t)
  {
    hide Moves, LockFree, Done, HoldsLock, Inside;
    GotoMoves(s, d, t, d.ts[t], notify);
  }

  lemma SpuriousMoves(s: P, t: nat)
    requires t < |s.ts| && !s.ts[t].pc.Rest? && !s.ts[t].pc.Left?
    ensures Moves(s, Spurious(s, t), t)
  {
    hide Moves, LockFree;
    GotoMoves(s, Spurious(s, t), t, Woken(s.ts[t]), false);
  }

  lemma OutsideMoves(s: P, d: P, t: nat, c: Choice)
    requires t < |s.ts| && OutsidePc(s.ts[t].pc) && Enabled(s, t) && d == Step(s, t, c) && s.helperCount >= 0
    ensures Moves(s, d, t)
  {
    hide Moves, LockFree, HelpStep, LeftTestStep;
    match s.ts[t].pc
    case HelpTest => HelpMoves(s, d, t);
    case HelpWait(_) => PcMoves(s, d, t, HelpTest, false);
    case Enter => GotoMoves(s, d, t, d.ts[t], false);
    case LeftTest => LeftTestMoves(s, d, t);
    case StarterWait(_) => PcMoves(s, d, t, LeftTest, false);
    case Finished => PcMoves(s, d, t, Rest, true);
  }

  lemma ReadTopMoves(s: P, d: P, t: nat)
    requires t < |s.ts| && s.ts[t].pc.ReadTop? && d == ReadTopStep(s, t)
    ensures Moves(s, d, t)
  {
    hide Moves, LockFree;
    GotoMoves(s, d, t, d.ts[t], false);
  }

  lemma IdleTestMoves(s: P, d: P, t: nat)
    requires t < |s.ts| && s.ts[t].pc.IdleTest? && d == IdleTestStep(s, t)
    ensures Moves(s, d, t)
  {
    hide Moves, LockFree;
    GotoMoves(s, d, t, d.ts[t], false);
  }

  lemma LoopMoves(s: P, d: P, t: nat, c: Choice)
    requires t < |s.ts| && LoopPc(s.ts[t].pc) && Enabled(s, t) && d == Step(s, t, c)
    ensures Moves(s, d, t)
  {
    hide Moves, LockFree, ReadTopStep, IdleTestStep;
    match s.ts[t].pc
    case ReadTop => ReadTopMoves(s, d, t);
    case IdleTest => IdleTestMoves(s, d, t);
    case IdleWait(_) => PcMoves(s, d, t, IdleTest, false);
    case WantLock => PcMoves(s, d, t, Recheck, false);
    case LoopTop => PcMoves(s, d, t, Compare(s.fn), false);
  }

  lemma WorkMoves(s: P, d: P, t: nat, c: Choice)
    requires Shape(s) && t < |s.ts| && Enabled(s, t) && d == Step(s, t, c) && d != s
    requires !OutsidePc(s.ts[t].pc) && !LoopPc(s.ts[t].pc)
    ensures Moves(s, d, t)
  {
    hide Shape, Moves, LockFree, ExitStep, LocalStep, StealStep, ReturnStack, RecheckStep, CompareStep, ZeroStep, StartStep, GoodStart;
    OnlyStarter(s, t);
    match s.ts[t].pc
    case Rest => StartMoves(s, d, t, c);
    case Compare(_) => CompareMoves(s, d, t);
    case ExitTest => ExitMoves(s, d, t);
    case Steal(_, _, _, _) => StealMoves(s, d, t);
    case Zero(_, _, _, _, _) => ZeroMoves(s, d, t, c.weight);
    case Mark => if s.ts[t].local == [] { PcMoves(s, d, t, LoopTop, false); } else { MarkMoves(s, d, t, c); }
    case WantReturn(_) => ReturnMoves(s, d, t);
    case Left => LeftMoves(s, d, t);
    case Recheck => RecheckMoves(s, d, t);
    case Broadcast => PcMoves(s, d, t, Mark, true);
  }

  lemma StepMoves(s: P, d: P, t: nat, c: Choice)
    requires Shape(s) && t < |s.ts| && Enabled(s, t) && d == Step(s, t, c) && d != s
    ensures Moves(s, d, t)
  {
    hide Shape, Step, Enabled, LoopPc, OutsidePc, Moves;
    CountNotNegative(s);
    if OutsidePc(s.ts[t].pc) { OutsideMoves(s, d, t, c); }
    else if LoopPc(s.ts[t].pc) { LoopMoves(s, d, t, c); }
    else { WorkMoves(s, d, t, c); }
  }

  lemma LockedStep(s: P, d: P)
    requires Inv(s) && Locked(s) && Next(s, d)
    ensures Locked(d)
  {
    hide Shape, Colored, Locked, Step, Enabled, Spurious, Advances, OthersWait;
    var t: nat :| t < |s.ts| && (d == Spurious(s, t) || (Enabled(s, t) && exists c :: d == Step(s, t, c)));
    if d != s {
      if d == Spurious(s, t) {
        SpuriousWaits(s, t);
        SpuriousMoves(s, t);
      } else {
        var c :| d == Step(s, t, c);
        StepMoves(s, d, t, c);
      }
      AdvanceKeeps(s, d, t);
    }
  }

  lemma CountNotNegative(s: P)
    requires Shape(s)
    ensures s.helperCount >= 0
  {
    CountNonNegative(s);
  }

  lemma SpuriousWaits(s: P, t: nat)
    requires t < |s.ts| && Spurious(s, t) != s
    ensures !s.ts[t].pc.Rest? && !s.ts[t].pc.Left?
  {
    assert s.ts[t := s.ts[t]] == s.ts;
  }

  lemma {:induction false} RunLocked(run: seq<P>, i: nat)
    requires IsRun(run) && i < |run|
    ensures Locked(run[i])
  {
    hide Inv, Next, Locked, Init;
    if i == 0 {
      InitLocked(run[0]);
    } else {
      RunInv(run, i - 1);
      RunLocked(run, i - 1);
      assert Next(run[i - 1], run[i - 1 + 1]);
      LockedStep(run[i - 1], run[i]);
    }
  }

  lemma InitLocked(s: P)
    requires Init(s)
    ensures Locked(s)
  {}

  /** The mark lock is a lock: at most one thread is in a critical section. */
  lemma MutualExclusion(run: seq<P>, i: nat, t: nat, u: nat)
    requires IsRun(run) && i < |run| && t < |run[i].ts| && u < |run[i].ts|
    requires HoldsLock(run[i].ts[t].pc) && HoldsLock(run[i].ts[u].pc)
    ensures t == u
  {
    hide Inv, Next, Init, HoldsLock, IsRun;
    RunLocked(run, i);
  }
}
