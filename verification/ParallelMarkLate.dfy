/** GC_active_count after some thread has left GC_mark_local.  The comment on it says that, once it has returned to
    zero, it stays zero for the cycle.  That is so exactly as long as no late helper comes in; whether one still can is
    to be seen from the state; and there is a run in which one does. */
module ParallelMarkLate {
  import opened ParallelMarkModel
  import opened ParallelMarkProofs
  import opened ParallelMarkTheorems
  import opened ParallelMarkLock

  /** A helper starts to look for work: the count is raised at the start of GC_mark_local. */
  predicate Enters(s: P, d: P) {
    exists t :: 0 <= t < |s.ts| && s.ts[t].pc.Enter? && d == EnterStep(s, t)
  }

  /** Some thread has left in this cycle, and the count is zero. */
  ghost predicate Over(s: P) { Inv(s) && s.exited && s.activeCount == 0 }

  lemma NobodyActive(s: P, t: nat)
    requires Over(s) && t < |s.ts|
    ensures !Active(s.ts[t].pc) && MayExit(s) && 0 < |s.ts| && s.helperCount >= 0
    ensures Inside(s.ts[t].pc) ==> s.helperCount > 0
  {
    CountNonNegative(s);
    if Active(s.ts[t].pc) { CountZero(s.ts, IsActive, t); }
    if Inside(s.ts[t].pc) { CountZero(s.ts, IsInside, t); }
  }

  // ------------------------------------------------------------------ what raises the count

  /** A thread that does not look for work leaves the count alone, unless it enters or starts a cycle. */
  lemma IdleStepCount(s: P, d: P, t: nat, c: Choice)
    requires t < |s.ts| && !Active(s.ts[t].pc) && !s.ts[t].pc.Enter? && MayExit(s) && d == Step(s, t, c)
    requires s.ts[t].pc.Rest? ==> d == s
    ensures d.activeCount == s.activeCount
  {
    hide StartStep, NotifyAll, GoodStart;
  }

  lemma NoStart(s: P, d: P, t: nat, c: Choice)
    requires Shape(s) && t < |s.ts| && s.ts[t].pc.Rest? && d == Step(s, t, c) && !Starts(s, d)
    ensures t == 0 && d == s
  {
    OnlyStarter(s, t);
  }

  lemma OnlyEnterRaises(s: P, d: P)
    requires Over(s) && Next(s, d) && !Starts(s, d)
    ensures d.activeCount == 0 || Enters(s, d)
    ensures Enters(s, d) ==> d.activeCount == 1
  {
    hide Shape, Colored, Step, Active, Inside, Starts, MayExit, Enabled;
    var t: nat :| t < |s.ts| && (d == Spurious(s, t) || (Enabled(s, t) && exists c :: d == Step(s, t, c)));
    if d != Spurious(s, t) {
      var c :| d == Step(s, t, c);
      NobodyActive(s, t);
      if s.ts[t].pc.Enter? { EnterIs(s, t, c); }
      else {
        if s.ts[t].pc.Rest? { NoStart(s, d, t, c); }
        IdleStepCount(s, d, t, c);
      }
    }
  }

  lemma EnterIs(s: P, t: nat, c: Choice)
    requires t < |s.ts| && s.ts[t].pc.Enter?
    ensures Step(s, t, c) == EnterStep(s, t)
  {}

  lemma {:induction false} ZeroUntilEntered(run: seq<P>, i: nat, j: nat)
    requires IsRun(run) && i <= j < |run| && Over(run[i])
    requires forall k :: i <= k < j ==> !Starts(run[k], run[k + 1]) && !Enters(run[k], run[k + 1])
    ensures Over(run[j])
    decreases j - i
  {
    hide Inv, Next, Starts, Enters, Init;
    if i < j {
      assert Next(run[i], run[i + 1]);
      OnlyEnterRaises(run[i], run[i + 1]);
      NextKeeps(run[i], run[i + 1]);
      RolesHold(run[i]);
      ExitedStays(run[i], run[i + 1]);
      ZeroUntilEntered(run, i + 1, j);
    }
  }

  lemma RolesHold(s: P)
    requires Inv(s)
    ensures 0 < |s.ts|
  {}

  lemma LeftOver(run: seq<P>, i: nat)
    requires IsRun(run) && i + 1 < |run| && Leaves(run[i], run[i + 1])
    ensures Over(run[i + 1])
  {
    hide Inv, Next, Init;
    RunInv(run, i + 1);
  }

  /** After a thread has left, the count stays zero in the cycle if and only if no helper comes in any more. */
  lemma CountStaysZeroIff(run: seq<P>, i: nat, j: nat)
    requires IsRun(run) && i < j < |run| && Leaves(run[i], run[i + 1])
    requires forall k :: i < k < j ==> !Starts(run[k], run[k + 1])
    ensures (forall k :: i < k <= j ==> run[k].activeCount == 0) <==> (forall k :: i < k < j ==> !Enters(run[k], run[k + 1]))
  {
    hide Inv, Next, Starts, Enters, Init, Leaves;
    LeftOver(run, i);
    if forall k :: i < k < j ==> !Enters(run[k], run[k + 1]) {
      forall k | i < k <= j ensures run[k].activeCount == 0 { ZeroUntilEntered(run, i + 1, k); }
    }
    if forall k :: i < k <= j ==> run[k].activeCount == 0 {
      forall k | i < k < j ensures !Enters(run[k], run[k + 1]) { EnteringRaises(run[k], run[k + 1]); }
    }
  }

  lemma EnteringRaises(s: P, d: P)
    ensures Enters(s, d) ==> d.activeCount == s.activeCount + 1
  {}

  // ---------------------------------------------------------------- who can still come in

  /** A helper outside that has not been through this cycle, and would be let in.  (Those that have are one mark number
      ahead; a helper that holds the lock while there are too many inside is turned away.) */
  predicate Invited(s: P, t: nat) {
    && 0 < t < |s.ts| && 1 <= s.markersM1 && s.ts[t].no <= s.markNo
    && (s.ts[t].pc.HelpWait? || (s.ts[t].pc.HelpTest? && s.helperCount <= s.markersM1))
  }

  /** Can the count still rise?  A helper is coming in, or the starter sleeps inside and some helper is invited. */
  predicate MayRise(s: P) {
    || (exists t :: 0 <= t < |s.ts| && s.ts[t].pc.Enter?)
    || (0 < |s.ts| && s.ts[0].pc.IdleWait? && exists t :: 0 <= t < |s.ts| && Invited(s, t))
  }

  /** What a step of thread t has to leave alone if nobody can come in. */
  predicate Uninviting(s: P, d: P, t: nat)
    requires t < |s.ts| && t < |d.ts|
  {
    && d.markersM1 == s.markersM1 && !d.ts[t].pc.Enter?
    && (d.ts[0].pc.IdleWait? ==>
          && s.ts[0].pc.IdleWait? && d.markNo == s.markNo && (Invited(d, t) ==> Invited(s, t))
          && (s.helperCount <= d.helperCount || HoldsLock(s.ts[t].pc)))
  }

  lemma NotInvited(s: P, d: P, t: nat, u: nat)
    requires Exclusive(s) && t < |s.ts| && OthersWait(s, d, t) && Uninviting(s, d, t) && d.ts[0].pc.IdleWait? && Invited(d, u)
    ensures Invited(s, u)
  {
    if u != t { assert d.ts[u] == s.ts[u] || d.ts[u] == Woken(s.ts[u]); }
  }

  lemma StaysUninvited(s: P, d: P, t: nat)
    requires Locked(s) && !MayRise(s) && t < |s.ts| && OthersWait(s, d, t) && Uninviting(s, d, t)
    ensures !MayRise(d)
  {
    hide Invited, OthersWait, Uninviting;
    StarterSleeps(s, d, t);
    forall u | 0 <= u < |d.ts| ensures !d.ts[u].pc.Enter? { NotEntering(s, d, t, u); }
    if d.ts[0].pc.IdleWait? {
      forall u | 0 <= u < |d.ts| && Invited(d, u) ensures Invited(s, u) { NotInvited(s, d, t, u); }
    }
  }

  lemma StarterSleeps(s: P, d: P, t: nat)
    requires t < |s.ts| && OthersWait(s, d, t) && Uninviting(s, d, t)
    ensures |d.ts| == |s.ts| && (d.ts[0].pc.IdleWait? ==> s.ts[0].pc.IdleWait?)
  {}

  lemma NotEntering(s: P, d: P, t: nat, u: nat)
    requires t < |s.ts| && OthersWait(s, d, t) && Uninviting(s, d, t) && u < |s.ts| && !s.ts[u].pc.Enter?
    ensures !d.ts[u].pc.Enter?
  {
    if u != t { assert d.ts[u] == s.ts[u] || d.ts[u] == Woken(s.ts[u]); }
  }

  /** A helper that nobody has invited is turned away, or waits. */
  lemma TurnedAway(s: P, d: P, t: nat)
    requires Over(s) && Locked(s) && !MayRise(s) && t < |s.ts| && s.ts[t].pc.HelpTest? && d == HelpStep(s, t)
    ensures t < |d.ts| && Uninviting(s, d, t)
  {
    hide Shape, Colored, MayRise;
    HelperHere(s, t);
    NobodyActive(s, 0);
    StarterThere(s, t);
    if s.ts[0].pc.IdleWait? { NoneInvited(s, t); }
  }

  lemma NoneInvited(s: P, t: nat)
    requires !MayRise(s) && 0 < |s.ts| && s.ts[0].pc.IdleWait?
    ensures !Invited(s, t)
  {}

  lemma HelperHere(s: P, t: nat)
    requires Inv(s) && t < |s.ts| && (s.ts[t].pc.HelpTest? || s.ts[t].pc.HelpWait?)
    ensures t != 0
  {}

  /** While help is wanted and somebody else holds the lock, the starter sleeps. */
  lemma StarterThere(s: P, t: nat)
    requires Over(s) && Locked(s) && !MayRise(s) && 0 < t < |s.ts| && HoldsLock(s.ts[t].pc)
    ensures s.helpWanted ==> s.ts[0].pc.IdleWait?
  {
    hide Invited;
    NobodyActive(s, 0);
    assert !HoldsLock(s.ts[0].pc);
    assert !s.ts[0].pc.Enter?;
  }

  lemma SpuriousUninviting(s: P, t: nat)
    requires Over(s) && !MayRise(s) && t < |s.ts|
    ensures |Spurious(s, t).ts| == |s.ts| && Uninviting(s, Spurious(s, t), t)
  {
    hide Inv;
    assert !s.ts[t].pc.Enter?;
  }

  lemma ExitUninviting(s: P, d: P, t: nat)
    requires Over(s) && Locked(s) && t < |s.ts| && s.ts[t].pc.ExitTest? && MayExit(s) && d == ExitStep(s, t)
    ensures t < |d.ts| && Uninviting(s, d, t)
  {
    hide Inv, Wanted, Exclusive;
  }

  /** Moving on, outside GC_help_marker. */
  lemma GotoUninviting(s: P, d: P, t: nat, pc: Pc, notify: bool)
    requires t < |s.ts| && !pc.HelpTest? && !pc.HelpWait? && !pc.Enter? && (pc.IdleWait? ==> t != 0)
    requires d == (if notify then GotoNotify(s.(helpWanted := d.helpWanted, markNo := d.markNo), t, pc)
                   else Goto(s.(helpWanted := d.helpWanted, markNo := d.markNo), t, pc))
    requires d.markNo == s.markNo || t == 0
    ensures t < |d.ts| && Uninviting(s, d, t)
  {}

  lemma WaitUninviting(s: P, d: P, t: nat)
    requires t < |s.ts| && t != 0 && s.ts[t].pc.HelpWait? && d == Goto(s, t, HelpTest)
    ensures t < |d.ts| && Uninviting(s, d, t)
  {}

  lemma StepUninviting(s: P, d: P, t: nat, c: Choice)
    requires Over(s) && Locked(s) && !MayRise(s) && t < |s.ts| && d == Step(s, t, c) && (s.ts[t].pc.Rest? ==> d == s)
    requires Enabled(s, t) && d != s
    ensures t < |d.ts| && Uninviting(s, d, t)
  {
    hide Shape, Colored, Locked, MayRise, MayExit, ExitStep, HelpStep, Uninviting, StartStep, Enabled;
    NobodyActive(s, t);
    OnlyStarter(s, t);
    if s.ts[t].pc.Enter? { NobodyEnters(s, t); }
    match s.ts[t].pc {
      case HelpTest => TurnedAway(s, d, t);
      case HelpWait(_) =>
        HelperHere(s, t);
        WaitUninviting(s, d, t);
      case IdleTest => GotoUninviting(s, d, t, ExitTest, false);
      case IdleWait(_) => GotoUninviting(s, d, t, IdleTest, false);
      case ExitTest => ExitUninviting(s, d, t);
      case Left => GotoUninviting(s, d, t, LeftTest, false);
      case LeftTest => GotoUninviting(s, d, t, d.ts[t].pc, false);
      case StarterWait(_) => GotoUninviting(s, d, t, LeftTest, false);
      case Finished => GotoUninviting(s, d, t, Rest, true);
      case _ =>
    }
  }

  lemma NobodyEnters(s: P, t: nat)
    requires t < |s.ts| && s.ts[t].pc.Enter?
    ensures MayRise(s)
  {}

  /** If nobody can come in, that stays so for the cycle, and the count stays zero. */
  lemma StaysOver(s: P, d: P)
    requires Over(s) && Locked(s) && !MayRise(s) && Next(s, d) && !Starts(s, d)
    ensures Over(d) && Locked(d) && !MayRise(d)
  {
    hide Shape, Colored, Step, Enabled, Starts, Locked, MayRise, Spurious, Enters;
    OnlyEnterRaises(s, d);
    NextKeeps(s, d);
    RolesHold(s);
    ExitedStays(s, d);
    LockedStep(s, d);
    NotEntered(s, d);
    var t: nat :| t < |s.ts| && (d == Spurious(s, t) || (Enabled(s, t) && exists c :: d == Step(s, t, c)));
    if d != s {
      if d == Spurious(s, t) {
        SpuriousWaits(s, t);
        SpuriousMoves(s, t);
        SpuriousUninviting(s, t);
      } else {
        var c :| d == Step(s, t, c);
        if s.ts[t].pc.Rest? { NoStart(s, d, t, c); }
        StepMoves(s, d, t, c);
        StepUninviting(s, d, t, c);
      }
      StaysUninvited(s, d, t);
    }
  }

  lemma NotEntered(s: P, d: P)
    requires !MayRise(s)
    ensures !Enters(s, d)
  {
    hide EnterStep, Invited;
  }

  // ------------------------------------------------------------- continuing a run

  /** r goes on from the end of run, within the cycle. */
  ghost predicate Continues(run: seq<P>, r: seq<P>) {
    IsRun(run) && IsRun(r) && run != [] && run <= r && forall k :: |run| - 1 <= k < |r| - 1 ==> !Starts(r[k], r[k + 1])
  }

  lemma {:induction false} OverFrom(run: seq<P>, r: seq<P>, j: nat)
    requires Continues(run, r) && |run| - 1 <= j < |r| && Over(run[|run| - 1]) && !MayRise(run[|run| - 1])
    ensures Over(r[j]) && !MayRise(r[j])
    decreases j
  {
    hide Inv, Next, Starts, MayRise, Init;
    if j >= |run| {
      OverFrom(run, r, j - 1);
      RunLocked(r, j - 1);
      assert Next(r[j - 1], r[j - 1 + 1]) && !Starts(r[j - 1], r[j - 1 + 1]);
      StaysOver(r[j - 1], r[j]);
    }
  }

  lemma ContinuesTrans(a: seq<P>, b: seq<P>, c: seq<P>)
    requires Continues(a, b) && Continues(b, c)
    ensures Continues(a, c)
  {
    hide IsRun, Starts;
    forall k | |a| - 1 <= k < |c| - 1 ensures !Starts(c[k], c[k + 1]) {
      if k < |b| - 1 { assert c[k] == b[k] && c[k + 1] == b[k + 1]; }
    }
  }

  /** Nothing to mark: the choice every step below makes. */
  const IDLE: Choice := Choice(0, false, ScanOne, map[], {}, [])

  lemma Append(run: seq<P>, d: P) returns (r: seq<P>)
    requires IsRun(run) && Next(run[|run| - 1], d)
    ensures IsRun(r) && r == run + [d]
  {
    hide Next, Init;
    r := run + [d];
    forall i | 0 <= i < |r| - 1 ensures Next(r[i], r[i + 1]) {
      if i < |run| - 1 { assert r[i] == run[i] && r[i + 1] == run[i + 1]; }
    }
  }

  /** A step of thread t. */
  lemma Move(run: seq<P>, t: nat, d: P) returns (r: seq<P>)
    requires IsRun(run) && t < |run[|run| - 1].ts| && Enabled(run[|run| - 1], t) && d == Step(run[|run| - 1], t, IDLE)
    ensures IsRun(r) && r == run + [d]
  {
    hide Step, Enabled, Init;
    assert Next(run[|run| - 1], d);
    r := Append(run, d);
  }

  /** Thread t is woken for no reason. */
  lemma Wake(run: seq<P>, t: nat) returns (r: seq<P>)
    requires IsRun(run) && t < |run[|run| - 1].ts|
    ensures IsRun(r) && r == run + [Spurious(run[|run| - 1], t)]
  {
    hide Spurious, Enabled, Step, Init;
    assert Next(run[|run| - 1], Spurious(run[|run| - 1], t));
    r := Append(run, Spurious(run[|run| - 1], t));
  }

  function Last(run: seq<P>): P
    requires run != []
  {
    run[|run| - 1]
  }

  /** A step that starts no cycle. */
  lemma Go(run: seq<P>, t: nat) returns (r: seq<P>)
    requires IsRun(run) && t < |Last(run).ts| && Enabled(Last(run), t) && !Last(run).ts[0].pc.Rest?
    ensures Continues(run, r) && r == run + [Step(Last(run), t, IDLE)] && Last(r) == Step(Last(run), t, IDLE)
  {
    hide Step, Enabled, Init, Next;
    r := Move(run, t, Step(Last(run), t, IDLE));
  }

  lemma GoWake(run: seq<P>, t: nat) returns (r: seq<P>)
    requires IsRun(run) && t < |Last(run).ts| && !Last(run).ts[0].pc.Rest?
    ensures Continues(run, r) && r == run + [Spurious(Last(run), t)] && Last(r) == Spurious(Last(run), t)
  {
    hide Spurious, Init, Next;
    r := Wake(run, t);
  }

  /** After a step that does not enter, the cycle is still over. */
  lemma StillOver(run: seq<P>, r: seq<P>)
    requires Continues(run, r) && |r| == |run| + 1 && Over(Last(run)) && !Enters(Last(run), Last(r))
    ensures Over(Last(r)) && Locked(Last(run)) && Locked(Last(r))
  {
    hide Inv, Next, Starts, Init, Locked, Enters;
    var s, d := r[|run| - 1], r[|run|];
    assert Next(s, d) && !Starts(s, d);
    RunLocked(r, |run| - 1);
    RunLocked(r, |run|);
    OnlyEnterRaises(s, d);
    NextKeeps(s, d);
    RolesHold(s);
    ExitedStays(s, d);
  }

  /** Helper t has been invited and waits; the starter sleeps. */
  ghost predicate Waiting(s: P, t: nat) {
    Over(s) && Invited(s, t) && s.ts[t].pc.HelpWait? && s.ts[0].pc.IdleWait?
  }

  lemma StillWaiting(s: P, d: P, u: nat, t: nat)
    requires Waiting(s, t) && Over(d) && u < |s.ts| && OthersWait(s, d, u) && u != 0 && u != t
    requires d.markNo == s.markNo && d.markersM1 == s.markersM1
    ensures Waiting(d, t)
  {
    hide Over;
    assert d.ts[0] == s.ts[0] || d.ts[0] == Woken(s.ts[0]);
    assert d.ts[t] == s.ts[t] || d.ts[t] == Woken(s.ts[t]);
  }

  /** A helper that has got the lock comes in. */
  lemma ComeIn(run: seq<P>, t: nat) returns (r: seq<P>)
    requires IsRun(run) && Over(Last(run)) && t < |Last(run).ts| && Last(run).ts[t].pc.Enter? && !Last(run).ts[0].pc.Rest?
    ensures Continues(run, r) && Last(r).activeCount > 0
  {
    hide Inv, Next, Init;
    r := Go(run, t);
  }

  lemma Outside(s: P, t: nat, u: nat)
    requires Waiting(s, t) && u < |s.ts|
    ensures 0 < |s.ts| && t != 0 && !s.ts[0].pc.Rest?
    ensures HoldsLock(s.ts[u].pc) ==> u != 0 && u != t
    ensures HoldsLock(s.ts[u].pc) ==> s.ts[u].pc.HelpTest? || s.ts[u].pc.IdleTest? || s.ts[u].pc.ExitTest? || s.ts[u].pc.Enter?
  {
    hide Inv, Invited;
    RolesOf(s, u);
    NobodyActive(s, u);
    assert 0 < t < |s.ts| by { InvitedIs(s, t); }
  }

  lemma InvitedIs(s: P, t: nat)
    requires Invited(s, t)
    ensures 0 < t < |s.ts|
  {}

  lemma RolesOf(s: P, u: nat)
    requires Inv(s) && u < |s.ts|
    ensures 0 < |s.ts| && (StarterPc(s.ts[u].pc) ==> u == 0)
  {}

  /** What a step of a helper that does not look for work leaves alone. */
  lemma Aside(s: P, d: P, u: nat)
    requires Over(s) && u < |s.ts| && u != 0 && Enabled(s, u) && !s.ts[u].pc.Enter? && d == Step(s, u, IDLE)
    ensures OthersWait(s, d, u) && d.markNo == s.markNo && d.markersM1 == s.markersM1 && !Enters(s, d)
  {
    hide Shape, Colored, Step, Enabled, Enters, MayExit, Active;
    NobodyActive(s, u);
    RolesOf(s, u);
    IdleStepCount(s, d, u, IDLE);
    EnteringRaises(s, d);
    if d != s { StepMoves(s, d, u, IDLE); }
  }

  /** A step of some other helper, which does not enter: helper t goes on waiting. */
  lemma GoOn(run: seq<P>, t: nat, u: nat) returns (r: seq<P>)
    requires IsRun(run) && Waiting(Last(run), t) && u < |Last(run).ts| && u != 0 && u != t && Enabled(Last(run), u)
    requires !Last(run).ts[u].pc.Enter?
    ensures Continues(run, r) && Last(r) == Step(Last(run), u, IDLE) && Waiting(Last(r), t)
    ensures Locked(Last(run)) && Locked(Last(r)) && OthersWait(Last(run), Last(r), u)
  {
    hide Inv, Next, Init, Step, Enabled, Invited, Locked, OthersWait, Enters;
    var s := Last(run);
    Outside(s, t, u);
    r := Go(run, u);
    Aside(s, Last(r), u);
    StillOver(run, r);
    StillWaiting(s, Last(r), u, t);
  }

  /** Some other helper is woken. */
  lemma WakeOn(run: seq<P>, t: nat, u: nat) returns (r: seq<P>)
    requires IsRun(run) && Waiting(Last(run), t) && u < |Last(run).ts| && u != 0 && u != t
    ensures Continues(run, r) && Last(r) == Spurious(Last(run), u) && Waiting(Last(r), t) && Locked(Last(r))
  {
    hide Inv, Next, Init, Invited, Locked, Enters;
    var s := Last(run);
    Outside(s, t, u);
    r := GoWake(run, u);
    EnteringRaises(s, Last(r));
    StillOver(run, r);
    hide Woken;
    StillWaiting(s, Last(r), u, t);
  }

  /** The count has risen, or helper t waits, the lock is free, and at most n helpers are inside. */
  ghost predicate Progress(s: P, t: nat, n: int) {
    s.activeCount > 0 || (Waiting(s, t) && LockFree(s) && s.helperCount <= n)
  }

  lemma LetsGo(s: P, d: P, u: nat)
    requires Exclusive(s) && u < |s.ts| && OthersWait(s, d, u) && HoldsLock(s.ts[u].pc) && !HoldsLock(d.ts[u].pc)
    ensures LockFree(d)
  {
    hide HoldsLock, Woken;
    forall v | 0 <= v < |d.ts| ensures !HoldsLock(d.ts[v].pc) { WokenSame(s.ts[v]); }
  }

  /** While the starter sleeps inside, a helper in GC_help_marker steps like this. */
  lemma HelpStepIs(s: P, u: nat)
    requires u < |s.ts| && s.ts[u].pc.HelpTest? && Wanted(s) && s.ts[0].pc.IdleWait?
    ensures var d, no := Step(s, u, IDLE), s.ts[u].no;
      && Enabled(s, u) && |d.ts| == |s.ts| && (no > s.markNo || s.helperCount > s.markersM1 ==> d.helperCount == s.helperCount)
      && (no > s.markNo ==> d.ts[u].pc == HelpWait(false))
      && (no == s.markNo && s.helperCount <= s.markersM1 ==> d.ts[u].pc.Enter?)
      && (no == s.markNo && s.helperCount > s.markersM1 ==> d.ts[u] == s.ts[u].(no := s.markNo + 1))
      && (no < s.markNo ==> d.ts[u] == s.ts[u].(no := s.markNo) && d.helperCount == s.helperCount)
  {}

  /** A helper that holds the lock comes in, or is turned away and waits. */
  lemma TurnAway(run: seq<P>, t: nat, u: nat) returns (r: seq<P>)
    requires IsRun(run) && Waiting(Last(run), t) && u < |Last(run).ts| && Last(run).ts[u].pc.HelpTest?
    ensures Continues(run, r) && Progress(Last(r), t, Last(run).helperCount)
    decreases if Last(run).ts[u].no < Last(run).markNo then 2 else if Last(run).ts[u].no == Last(run).markNo then 1 else 0
  {
    hide Over, Next, Init, Step, Enabled, Exclusive, Numbered, Invited, LockFree, HelpStep;
    var s := Last(run);
    RunLocked(run, |run| - 1);
    Outside(s, t, u);
    HelpStepIs(s, u);
    var one := GoOn(run, t, u);
    var d := Last(one);
    SameNo(s, u);
    if s.ts[u].no > s.markNo {
      LetsGo(s, d, u);
      r := one;
    } else if s.ts[u].no == s.markNo && s.helperCount <= s.markersM1 {
      Outside(d, t, u);
      r := ComeIn(one, u);
      ContinuesTrans(run, one, r);
    } else {
      r := TurnAway(one, t, u);
      ContinuesTrans(run, one, r);
    }
  }

  lemma SameNo(s: P, u: nat)
    requires Over(s) && u < |s.ts| && u != 0 && Enabled(s, u) && !s.ts[u].pc.Enter?
    ensures Step(s, u, IDLE).markNo == s.markNo
  {
    hide *;
    Aside(s, Step(s, u, IDLE), u);
  }

  lemma ExitIs(s: P, u: nat)
    requires Over(s) && u < |s.ts| && u != 0
    ensures s.ts[u].pc.IdleTest? ==> Enabled(s, u)
    ensures s.ts[u].pc.IdleTest? ==> Step(s, u, IDLE) == Goto(s, u, ExitTest)
    ensures s.ts[u].pc.ExitTest? ==> Enabled(s, u)
    ensures s.ts[u].pc.ExitTest? ==> |Step(s, u, IDLE).ts| == |s.ts| && Step(s, u, IDLE).ts[u].pc.HelpTest?
    ensures s.ts[u].pc.ExitTest? ==> Step(s, u, IDLE).helperCount == s.helperCount - 1
  {
    hide Inv;
    NobodyActive(s, u);
  }

  /** A helper that has nothing to do leaves. */
  lemma Leave(run: seq<P>, t: nat, u: nat) returns (r: seq<P>)
    requires IsRun(run) && Waiting(Last(run), t) && u < |Last(run).ts|
    requires Last(run).ts[u].pc.IdleTest? || Last(run).ts[u].pc.ExitTest?
    ensures Continues(run, r) && Progress(Last(r), t, Last(run).helperCount - 1)
    decreases if Last(run).ts[u].pc.IdleTest? then 1 else 0
  {
    hide Over, Next, Init, Step, Enabled, Locked, Invited, LockFree;
    var s := Last(run);
    Outside(s, t, u);
    ExitIs(s, u);
    var one := GoOn(run, t, u);
    if s.ts[u].pc.IdleTest? { r := Leave(one, t, u); } else { r := TurnAway(one, t, u); }
    ContinuesTrans(run, one, r);
  }

  /** Whoever holds the lock lets it go. */
  lemma Release(run: seq<P>, t: nat) returns (r: seq<P>)
    requires IsRun(run) && Waiting(Last(run), t) && !LockFree(Last(run))
    ensures Continues(run, r) && Progress(Last(r), t, Last(run).helperCount)
  {
    hide Over, Next, Init, Step, Enabled, Locked, Invited, HoldsLock;
    var s := Last(run);
    var u :| 0 <= u < |s.ts| && HoldsLock(s.ts[u].pc);
    Outside(s, t, u);
    if s.ts[u].pc.HelpTest? { r := TurnAway(run, t, u); }
    else if s.ts[u].pc.Enter? { r := ComeIn(run, u); }
    else { r := Leave(run, t, u); }
  }

  lemma {:induction false} TwoInside(ts: seq<Thread>) returns (u: nat)
    requires ts != [] && Count(ts, IsInside) > 1
    ensures 0 < u < |ts| && Inside(ts[u].pc)
  {
    u := CountSome(ts[1..], IsInside);
    u := u + 1;
  }

  /** Some helper sleeps inside, besides the starter. */
  lemma Sleeper(s: P, t: nat) returns (u: nat)
    requires Waiting(s, t) && LockFree(s) && s.helperCount > 1
    ensures 0 < u < |s.ts| && u != t && s.ts[u].pc.IdleWait?
  {
    u := TwoInside(s.ts);
    NobodyActive(s, u);
  }

  lemma SleeperWakes(s: P, u: nat)
    requires u < |s.ts| && s.ts[u].pc.IdleWait? && LockFree(s)
    ensures var d := Spurious(s, u);
      |d.ts| == |s.ts| && LockFree(d) && d.ts[u].pc.IdleWait? && Enabled(d, u) && d.helperCount == s.helperCount
    ensures Step(Spurious(s, u), u, IDLE) == Goto(Spurious(s, u), u, IdleTest)
  {}

  /** If too many helpers are inside, one of them is woken and leaves. */
  lemma Expel(run: seq<P>, t: nat) returns (r: seq<P>)
    requires IsRun(run) && Waiting(Last(run), t) && LockFree(Last(run)) && Last(run).helperCount > 1
    ensures Continues(run, r) && Progress(Last(r), t, Last(run).helperCount - 1)
  {
    hide Over, Next, Init, Step, Enabled, Locked, Invited, LockFree, Spurious;
    var s := Last(run);
    var u := Sleeper(s, t);
    SleeperWakes(s, u);
    var one := WakeOn(run, t, u);
    var two := GoOn(one, t, u);
    r := Leave(two, t, u);
    ContinuesTrans(one, two, r);
    ContinuesTrans(run, one, r);
  }

  /** An invited helper that has the lock comes in. */
  lemma Admit(run: seq<P>, t: nat) returns (r: seq<P>)
    requires IsRun(run) && Over(Last(run)) && Invited(Last(run), t) && Last(run).ts[t].pc.HelpTest? && Last(run).ts[0].pc.IdleWait?
    ensures Continues(run, r) && Last(r).activeCount > 0
    decreases Last(run).markNo - Last(run).ts[t].no
  {
    hide Inv, Next, Init, Step, Enabled, Exclusive, Numbered, HelpStep, Enters, OthersWait;
    var s := Last(run);
    RunLocked(run, |run| - 1);
    HelpStepIs(s, t);
    var one := Go(run, t);
    var d := Last(one);
    Aside(s, d, t);
    StarterStays(s, d, t);
    StillOver(run, one);
    if s.ts[t].no == s.markNo { r := ComeIn(one, t); } else { r := Admit(one, t); }
    ContinuesTrans(run, one, r);
  }

  lemma StarterStays(s: P, d: P, t: nat)
    requires 0 < t < |s.ts| && OthersWait(s, d, t) && s.ts[0].pc.IdleWait?
    ensures |d.ts| == |s.ts| && d.ts[0].pc.IdleWait?
  {
    assert d.ts[0] == s.ts[0] || d.ts[0] == Woken(s.ts[0]);
  }

  lemma HelperWakes(s: P, t: nat)
    requires 0 < t < |s.ts| && s.ts[t].pc.HelpWait? && LockFree(s)
    ensures var d := Spurious(s, t);
      && |d.ts| == |s.ts| && d == s.(ts := d.ts) && d.ts[0] == s.ts[0] && d.ts[t] == s.ts[t].(pc := HelpWait(true)) && Enabled(d, t)
    ensures Step(Spurious(s, t), t, IDLE) == Goto(Spurious(s, t), t, HelpTest)
  {}

  /** With the lock free and few helpers inside, an invited helper is woken and comes in. */
  lemma Invite(run: seq<P>, t: nat) returns (r: seq<P>)
    requires IsRun(run) && Waiting(Last(run), t) && LockFree(Last(run)) && Last(run).helperCount <= Last(run).markersM1
    ensures Continues(run, r) && Last(r).activeCount > 0
  {
    hide Inv, Next, Init, Step, Enabled, LockFree, Spurious, Enters;
    var s := Last(run);
    HelperWakes(s, t);
    var one := GoWake(run, t);
    EnteringRaises(s, Last(one));
    StillOver(run, one);
    var two := Go(one, t);
    EnteringRaises(Last(one), Last(two));
    StillOver(one, two);
    r := Admit(two, t);
    ContinuesTrans(one, two, r);
    ContinuesTrans(run, one, r);
  }

  /** A waiting helper that has been invited can come in. */
  lemma {:induction false} WaitingComesIn(run: seq<P>, t: nat) returns (r: seq<P>)
    requires IsRun(run) && Waiting(Last(run), t)
    ensures Continues(run, r) && Last(r).activeCount > 0
    decreases Last(run).helperCount, if LockFree(Last(run)) then 0 else 1
  {
    hide Over, Next, Init, LockFree;
    var s := Last(run);
    if LockFree(s) && s.helperCount <= s.markersM1 {
      r := Invite(run, t);
    } else {
      var one;
      if LockFree(s) { one := Expel(run, t); } else { one := Release(run, t); }
      if Last(one).activeCount > 0 {
        r := one;
      } else {
        FewHelpers(s);
        r := WaitingComesIn(one, t);
        ContinuesTrans(run, one, r);
      }
    }
  }

  lemma FewHelpers(s: P)
    requires Over(s)
    ensures s.helperCount >= 0
  {
    CountNonNegative(s);
  }

  lemma EnterNotRest(s: P, t: nat)
    requires Over(s) && t < |s.ts| && s.ts[t].pc.Enter?
    ensures !s.ts[0].pc.Rest?
  {
    NobodyActive(s, t);
  }

  lemma InvitedWaits(s: P, t: nat)
    requires Invited(s, t)
    ensures 0 < t < |s.ts| && (s.ts[t].pc.HelpTest? || s.ts[t].pc.HelpWait?)
  {}

  /** If somebody can come in, the run can go on so that the count rises. */
  lemma CountRises(run: seq<P>) returns (r: seq<P>)
    requires IsRun(run) && Over(Last(run)) && MayRise(Last(run))
    ensures Continues(run, r) && Last(r).activeCount > 0
  {
    hide Inv, Next, Init, Invited;
    var s := Last(run);
    if t :| 0 <= t < |s.ts| && s.ts[t].pc.Enter? {
      EnterNotRest(s, t);
      r := ComeIn(run, t);
    } else {
      var t :| 0 <= t < |s.ts| && Invited(s, t);
      InvitedWaits(s, t);
      if s.ts[t].pc.HelpTest? { r := Admit(run, t); } else { r := WaitingComesIn(run, t); }
    }
  }

  /** The whole condition.  In a cycle from which a thread has left, with the count at zero, the run can go on within
      the cycle so that the count rises if and only if a helper is about to come in, or the starter sleeps inside and
      some helper is invited. */
  lemma CountMayRiseIff(run: seq<P>)
    requires IsRun(run) && |run| > 1 && Leaves(run[|run| - 2], run[|run| - 1])
    ensures (exists r :: Continues(run, r) && Last(r).activeCount > 0) <==> MayRise(Last(run))
  {
    hide Inv, Next, Init, Leaves, MayRise;
    LeftOver(run, |run| - 2);
    if MayRise(Last(run)) {
      var r := CountRises(run);
    }
    forall r | Continues(run, r) && !MayRise(Last(run)) ensures Last(r).activeCount == 0 { OverFrom(run, r, |r| - 1); }
  }

  /** A plainer condition that suffices: nobody is coming in, and help is not wanted any more or all helpers outside
      have been through this cycle. */
  lemma CountStaysZero(run: seq<P>, r: seq<P>)
    requires Continues(run, r) && |run| > 1 && Leaves(run[|run| - 2], run[|run| - 1])
    requires forall t :: 0 <= t < |Last(run).ts| ==> !Last(run).ts[t].pc.Enter?
    requires !Last(run).helpWanted || forall t :: 0 < t < |Last(run).ts| && !Inside(Last(run).ts[t].pc) ==>
      Last(run).ts[t].no > Last(run).markNo
    ensures Last(r).activeCount == 0
  {
    hide Inv, Next, Init, Leaves, Starts;
    LeftOver(run, |run| - 2);
    RunLocked(run, |run| - 1);
    OverFrom(run, r, |r| - 1);
  }

  // ------------------------------------------------------------------ a run in which it does rise

  function At(pc: Pc): Thread { Thread(pc, 0, [], 0) }

  /** The starter and two helpers, in a cycle with an empty mark stack. */
  function State(starter: Thread, first: Thread, second: Thread, helpers: int, active: int, wanted: bool, exited: bool): P {
    P(map[], {}, [], 1, 2, 1, 0, false, wanted, helpers, active, 0, 2, [starter, first, second], exited)
  }

  /** The starter and the first helper come in. */
  lemma BothEnter() returns (run: seq<P>)
    ensures IsRun(run) && run[|run| - 1] == State(At(LoopTop), At(LoopTop), At(HelpWait(true)), 2, 2, true, false)
  {
    var h := At(HelpWait(true));
    run := [State(At(Rest), h, h, 0, 0, false, true)];
    run := Move(run, 0, State(At(Enter), h, h, 1, 0, true, false));
    run := Move(run, 0, State(At(LoopTop), h, h, 1, 1, true, false));
    run := Move(run, 1, State(At(LoopTop), At(HelpTest), h, 1, 1, true, false));
    run := Move(run, 1, State(At(LoopTop), At(Enter), h, 2, 1, true, false));
    run := Move(run, 1, State(At(LoopTop), At(LoopTop), h, 2, 2, true, false));
  }

  /** The starter finds nothing to do, and waits. */
  lemma StarterWaits() returns (run: seq<P>)
    ensures IsRun(run) && run[|run| - 1] == State(At(IdleWait(false)), At(LoopTop), At(HelpWait(true)), 2, 1, true, false)
  {
    var h := At(HelpWait(true));
    run := BothEnter();
    run := Move(run, 0, State(At(Compare(0)), At(LoopTop), h, 2, 2, true, false));
    run := Move(run, 0, State(At(ReadTop), At(LoopTop), h, 2, 2, true, false));
    run := Move(run, 0, State(At(WantLock), At(LoopTop), h, 2, 2, true, false));
    run := Move(run, 0, State(At(Recheck), At(LoopTop), h, 2, 2, true, false));
    run := Move(run, 0, State(At(IdleTest), At(LoopTop), h, 2, 1, true, false));
    run := Move(run, 0, State(At(IdleWait(false)), At(LoopTop), h, 2, 1, true, false));
  }

  /** The first helper finds nothing to do either, and leaves. */
  lemma HelperLeaves(before: seq<P>) returns (run: seq<P>)
    requires IsRun(before)
    requires before[|before| - 1] == State(At(IdleWait(false)), At(LoopTop), At(HelpWait(true)), 2, 1, true, false)
    ensures IsRun(run) && |run| >= 2 && Leaves(run[|run| - 2], run[|run| - 1])
    ensures run[|run| - 1]
         == State(At(IdleWait(true)), Thread(HelpTest, 0, [], 1), At(HelpWait(true)), 1, 0, true, true)
  {
    var w, h := At(IdleWait(false)), At(HelpWait(true));
    run := Move(before, 1, State(w, At(Compare(0)), h, 2, 1, true, false));
    run := Move(run, 1, State(w, At(ReadTop), h, 2, 1, true, false));
    run := Move(run, 1, State(w, At(WantLock), h, 2, 1, true, false));
    run := Move(run, 1, State(w, At(Recheck), h, 2, 1, true, false));
    run := Move(run, 1, State(At(IdleWait(true)), At(IdleTest), h, 2, 0, true, false));
    run := Move(run, 1, State(At(IdleWait(true)), At(ExitTest), h, 2, 0, true, false));
    var s, d := run[|run| - 1], State(At(IdleWait(true)), Thread(HelpTest, 0, [], 1), h, 1, 0, true, true);
    run := Move(run, 1, d);
    assert d == ExitStep(s, 1);
  }

  /** Contrary to the comment: GC_active_count returns to zero, a helper leaves, and in the same cycle the count is one
      again. */
  lemma CountRisesAgain() returns (run: seq<P>, i: nat, j: nat)
    ensures IsRun(run) && 0 < i < j < |run| && Leaves(run[i - 1], run[i])
    ensures run[i].activeCount == 0 && run[j].activeCount == 1
    ensures forall k :: i <= k < j ==> !Starts(run[k], run[k + 1])
  {
    run := StarterWaits();
    run := HelperLeaves(run);
    i := |run| - 1;
    var w, h, g := At(IdleWait(true)), Thread(HelpWait(false), 0, [], 1), At(HelpWait(true));
    run := Move(run, 1, State(w, h, g, 1, 0, true, true));
    run := Move(run, 2, State(w, h, At(HelpTest), 1, 0, true, true));
    run := Move(run, 2, State(w, h, At(Enter), 2, 0, true, true));
    run := Move(run, 2, State(w, h, At(LoopTop), 2, 1, true, true));
    j := |run| - 1;
  }
}
