/** The stop-the-world handshake of gc/pthread_stop_world.c, without signal retries: a transition system of the
    thread that stops the world and the threads it stops, over any number of rounds. */
module StopWorldModel {
  /** Where a thread is: in its own code, or in the suspend handler with the value of GC_stop_count it has read. */
  datatype Pc =
    | Run
    | Enter                  // the handler is about to read GC_stop_count
    | Check(c: nat)          // ... to test for a duplicate signal
    | StoreSp(c: nat)        // ... to publish the stack pointer
    | Post(c: nat)           // ... to post the semaphore
    | StoreCount(c: nat)     // ... to store last_stop_count
    | Sleep(c: nat)          // in sigsuspend
    | TestFlag(c: nat)       // awake: about to read GC_world_is_stopped
    | TestCount(c: nat)      // about to read GC_stop_count again

  /** A thread: pending suspend and restart signals, last_stop_count, and the stop for which the stack pointer
      was stored last. */
  datatype Thread = Thread(pc: Pc, suspend: bool, restart: bool, last: nat, spFor: nat)

  /** What the thread that holds the allocation lock is doing. */
  datatype Phase =
    | Running                // nobody stops the world
    | Counted                // GC_stop_count has been increased
    | Suspending(i: nat)     // GC_suspend_all is about to look at thread i
    | Waiting(k: nat)        // suspend_restart_barrier has waited for k acknowledgements
    | Stopped                // GC_stop_world has returned
    | Restarting(i: nat)     // GC_restart_all is about to look at thread i

  /** The shared state: GC_stop_count, GC_world_is_stopped, the semaphore, and of the present round the stopping
      thread, the threads that are blocked or finished, and the threads that have been sent a signal. */
  datatype W = W(ts: seq<Thread>, phase: Phase, stop: nat, flag: bool, sem: nat, self: nat, blocked: set<nat>, sent: set<nat>)

  function Put(s: W, i: nat, t: Thread): W
    requires i < |s.ts|
  {
    s.(ts := s.ts[i := t])
  }

  function Goto(s: W, i: nat, pc: Pc): W
    requires i < |s.ts|
  {
    Put(s, i, s.ts[i].(pc := pc))
  }

  /** Can thread i go on by itself?  A sleeping thread needs a restart signal, unless it is woken for no reason. */
  predicate Enabled(s: W, i: nat, spurious: bool)
    requires i < |s.ts|
  {
    match s.ts[i].pc
    case Run => s.ts[i].suspend
    case Sleep(_) => s.ts[i].restart || spurious
    case _ => true
  }

  /** One step of GC_suspend_handler_inner, or the delivery of the signal. */
  function ThreadStep(s: W, i: nat, spurious: bool): W
    requires i < |s.ts|
  {
    var t := s.ts[i];
    match t.pc
    case Run => Put(s, i, t.(pc := Enter, suspend := false))
    case Enter => Goto(s, i, Check(s.stop))
    case Check(c) => if t.last == c then Goto(s, i, Run) else Goto(s, i, StoreSp(c))
    case StoreSp(c) => Put(s, i, t.(pc := Post(c), spFor := c))
    case Post(c) => Goto(s.(sem := s.sem + 1), i, StoreCount(c))
    case StoreCount(c) => Put(s, i, t.(pc := Sleep(c), last := c))
    case Sleep(c) => Put(s, i, t.(pc := TestFlag(c), restart := t.restart && spurious))
    case TestFlag(c) => if s.flag then Goto(s, i, TestCount(c)) else Goto(s, i, Run)
    case TestCount(c) => if s.stop == c then Goto(s, i, Sleep(c)) else Goto(s, i, Run)
  }

  /** Threads that GC_suspend_all and GC_restart_all pass over. */
  predicate Skips(s: W, i: nat) { i == s.self || i in s.blocked }

  /** GC_suspend_all at thread i; it also passes over threads that have stopped for this round already. */
  function SuspendOne(s: W, i: nat): W
    requires i < |s.ts|
  {
    var t := s.(phase := Suspending(i + 1));
    if Skips(s, i) || s.ts[i].last == s.stop then t
    else Put(t.(sent := s.sent + {i}), i, s.ts[i].(suspend := true))
  }

  function RestartOne(s: W, i: nat): W
    requires i < |s.ts|
  {
    var t := s.(phase := Restarting(i + 1));
    if Skips(s, i) then t else Put(t, i, s.ts[i].(restart := true))
  }

  /** One step of GC_stop_world or GC_start_world; `self` and `blocked` are chosen when a round begins. */
  predicate LockStep(s: W, d: W) {
    match s.phase
    case Running =>
      && d.self < |s.ts| && s.ts[d.self].pc == Run
      && d == s.(phase := Counted, stop := s.stop + 2, self := d.self, blocked := d.blocked, sent := {})
    case Counted => d == s.(phase := Suspending(0), flag := true)
    case Suspending(i) => d == if i < |s.ts| then SuspendOne(s, i) else s.(phase := Waiting(0))
    case Waiting(k) =>
      if k < |s.sent| then s.sem > 0 && d == s.(phase := Waiting(k + 1), sem := s.sem - 1)
      else d == s.(phase := Stopped)
    case Stopped => d == s.(phase := Restarting(0), flag := false)
    case Restarting(i) => d == if i < |s.ts| then RestartOne(s, i) else s.(phase := Running)
  }

  ghost predicate Next(s: W, d: W) {
    || LockStep(s, d)
    || exists i: nat, spurious: bool :: i < |s.ts| && Enabled(s, i, spurious) && d == ThreadStep(s, i, spurious)
  }

  predicate Init(s: W) {
    && s.phase == Running && s.stop == 0 && !s.flag && s.sem == 0 && s.sent == {}
    && forall i :: 0 <= i < |s.ts| ==> s.ts[i].pc == Run && !s.ts[i].suspend && s.ts[i].last == 0
  }
}

module StopWorldTheorems {
  import opened StopWorldModel

  // ------------------------------------------------------------------------- invariant

  /** In the wait loop of the handler, or just before it, for the stop c. */
  predicate Parked(pc: Pc, c: nat) {
    pc == StoreCount(c) || pc == Sleep(c) || pc == TestFlag(c) || pc == TestCount(c)
  }

  /** In the wait loop of an earlier stop, about to leave it. */
  predicate Leaving(pc: Pc, stop: nat) {
    (pc.StoreCount? || pc.Sleep? || pc.TestFlag? || pc.TestCount?) && pc.c < stop
  }

  /** The thread has not taken notice of the present round. */
  predicate Away(t: Thread, stop: nat) { t.pc == Run || Leaving(t.pc, stop) }

  /** On its way from the signal to the post. */
  predicate Coming(t: Thread, stop: nat) {
    && t.last < stop
    && ((t.suspend && Away(t, stop)) || (!t.suspend && (t.pc == Enter || t.pc == Check(stop) || t.pc == StoreSp(stop) || (t.pc == Post(stop) && t.spFor == stop))))
  }

  /** Acknowledged: the stack pointer is published, and the thread waits. */
  predicate Acked(t: Thread, stop: nat) {
    !t.suspend && Parked(t.pc, stop) && t.spFor == stop && t.last <= stop
  }

  predicate StopPhase(p: Phase) { p.Suspending? || p.Waiting? || p.Stopped? }

  /** Threads that have posted in this round. */
  function Acks(s: W): set<nat> { set i | i in s.sent && i < |s.ts| && Acked(s.ts[i], s.stop) }

  function Waited(s: W): nat { if s.phase.Waiting? then s.phase.k else if s.phase.Stopped? then |s.sent| else 0 }

  /** A thread in the handler of a past stop is going to be woken, or is awake. */
  predicate WillWake(s: W, i: nat)
    requires i < |s.ts|
  {
    var t := s.ts[i];
    && (Leaving(t.pc, s.stop) && (t.pc.StoreCount? || t.pc.Sleep?) ==> t.restart)
    && (Called(s, i) && (t.pc == StoreCount(s.stop) || t.pc == Sleep(s.stop) || t.pc == TestCount(s.stop)) ==> t.restart)
  }

  /** Thread i has been sent a restart signal in this round. */
  predicate Called(s: W, i: nat) {
    s.phase.Running? || (s.phase.Restarting? && i < s.phase.i)
  }

  predicate ThreadInv(s: W, i: nat)
    requires i < |s.ts|
  {
    var t := s.ts[i];
    && t.last <= s.stop
    && WillWake(s, i)
    && (if i in s.sent && StopPhase(s.phase) then Coming(t, s.stop) || Acked(t, s.stop)
        else if StopPhase(s.phase) || s.phase.Counted? then !t.suspend && Away(t, s.stop) && t.last < s.stop
        else !t.suspend && (Away(t, s.stop) || (Parked(t.pc, s.stop) && !Skips(s, i) && t.spFor == s.stop)))
  }

  predicate Inv(s: W) {
    && s.flag == StopPhase(s.phase)
    && (forall i :: 0 <= i < |s.ts| ==> ThreadInv(s, i))
    && (forall i :: i in s.sent ==> i < |s.ts| && !Skips(s, i))
    && (StopPhase(s.phase) ==> s.sem + Waited(s) == |Acks(s)|)
    && (!StopPhase(s.phase) ==> s.sem == 0)
    && (s.phase.Suspending? ==> s.phase.i <= |s.ts| && forall i :: i in s.sent ==> i < s.phase.i)
    && (s.phase.Waiting? ==> s.phase.k <= |s.sent|)
    && (StopPhase(s.phase) ==> forall i :: 0 <= i < (if s.phase.Suspending? then s.phase.i else |s.ts|) && !Skips(s, i) ==> i in s.sent)
    && (s.phase.Restarting? ==> s.phase.i <= |s.ts|)
    && (s.phase.Counted? ==> s.sent == {})
  }

  lemma InitInv(s: W)
    requires Init(s)
    ensures Inv(s)
  {}

  /** Does the post of thread i count in the present round? */
  predicate Counts(s: W, i: nat)
    requires i < |s.ts|
  {
    StopPhase(s.phase) && i in s.sent && Acked(s.ts[i], s.stop)
  }

  lemma ToggleSize(a: set<nat>, b: set<nat>, i: nat)
    requires forall x :: x != i ==> (x in a <==> x in b)
    ensures |b| - |a| == (if i in b then 1 else 0) - (if i in a then 1 else 0)
  {
    if i in b && i !in a { assert b == a + {i}; }
    else if i !in b && i in a { assert a == b + {i}; }
    else { assert b == a; }
  }

  lemma AcksChange(s: W, d: W, i: nat)
    requires StopPhase(s.phase) && i < |s.ts| && |d.ts| == |s.ts| && d == s.(ts := s.ts[i := d.ts[i]], sem := d.sem)
    ensures |Acks(d)| - |Acks(s)| == (if Counts(d, i) then 1 else 0) - (if Counts(s, i) then 1 else 0)
  {
    hide Acked, StopPhase;
    ToggleSize(Acks(s), Acks(d), i);
  }

  /** What a step of thread i must establish. */
  lemma ThreadKeeps(s: W, d: W, i: nat)
    requires Inv(s) && i < |s.ts| && |d.ts| == |s.ts| && d == s.(ts := s.ts[i := d.ts[i]], sem := d.sem)
    requires ThreadInv(d, i)
    requires d.sem - s.sem == (if Counts(d, i) then 1 else 0) - (if Counts(s, i) then 1 else 0)
    ensures Inv(d)
  {
    hide Acks, Acked, Coming, Away;
    forall j | 0 <= j < |d.ts| ensures ThreadInv(d, j) { assert ThreadInv(s, j); }
    if StopPhase(s.phase) { AcksChange(s, d, i); }
  }

  lemma ThreadStepKeeps(s: W, i: nat, spurious: bool)
    requires Inv(s) && i < |s.ts| && Enabled(s, i, spurious)
    ensures Inv(ThreadStep(s, i, spurious))
  {
    hide Inv;
    InvParts(s, i);
    var d := ThreadStep(s, i, spurious);
    assert d == s.(ts := s.ts[i := d.ts[i]], sem := d.sem);
    ThreadKeeps(s, d, i);
  }

  lemma InvParts(s: W, i: nat)
    requires Inv(s) && i < |s.ts|
    ensures ThreadInv(s, i) && s.flag == StopPhase(s.phase)
  {}

  // ------------------------------------------------------- steps of the stopping thread

  lemma {:induction false} SubsetSize(a: set<nat>, b: set<nat>)
    requires a <= b
    ensures |a| <= |b| && (|a| == |b| ==> a == b)
  {
    if a != {} {
      var x :| x in a;
      SubsetSize(a - {x}, b - {x});
      assert a == (a - {x}) + {x} && b == (b - {x}) + {x};
    }
  }

  lemma BeginKeeps(s: W, d: W)
    requires Inv(s) && s.phase.Running? && LockStep(s, d)
    ensures Inv(d)
  {
    forall i | 0 <= i < |d.ts| ensures ThreadInv(d, i) { assert ThreadInv(s, i); }
  }

  lemma FlagKeeps(s: W, d: W)
    requires Inv(s) && s.phase.Counted? && LockStep(s, d)
    ensures Inv(d)
  {
    forall i | 0 <= i < |d.ts| ensures ThreadInv(d, i) { assert ThreadInv(s, i); }
    assert Acks(d) == {};
  }

  lemma SuspendThreads(s: W, d: W, j: nat)
    requires Inv(s) && s.phase.Suspending? && LockStep(s, d) && j < |s.ts|
    ensures |d.ts| == |s.ts| && ThreadInv(d, j) && (j in s.sent ==> d.ts[j] == s.ts[j])
    ensures s.phase.i < |s.ts| && !Skips(s, s.phase.i) ==> d.sent == s.sent + {s.phase.i} && !Acked(d.ts[s.phase.i], d.stop)
    ensures !(s.phase.i < |s.ts| && !Skips(s, s.phase.i)) ==> d.sent == s.sent
  {
    assert ThreadInv(s, j);
    if s.phase.i < |s.ts| { assert ThreadInv(s, s.phase.i); }
  }

  lemma SuspendKeeps(s: W, d: W)
    requires Inv(s) && s.phase.Suspending? && LockStep(s, d)
    ensures Inv(d)
  {
    hide ThreadInv, Acked, Coming, Away;
    forall j | 0 <= j < |s.ts| ensures ThreadInv(d, j) && |d.ts| == |s.ts| && (j in s.sent ==> d.ts[j] == s.ts[j]) { SuspendThreads(s, d, j); }
    if s.phase.i < |s.ts| { SuspendThreads(s, d, s.phase.i); }
    assert Acks(d) == Acks(s);
  }

  lemma WaitKeeps(s: W, d: W)
    requires Inv(s) && s.phase.Waiting? && LockStep(s, d)
    ensures Inv(d)
  {
    forall j | 0 <= j < |d.ts| ensures ThreadInv(d, j) { assert ThreadInv(s, j); }
    assert Acks(d) == Acks(s);
  }

  /** Once all acknowledgements have been waited for, all threads that were sent a signal have given one. */
  lemma AllAcked(s: W)
    requires Inv(s) && s.phase.Stopped?
    ensures s.sem == 0 && forall i :: i in s.sent ==> i < |s.ts| && Acked(s.ts[i], s.stop)
  {
    SubsetSize(Acks(s), s.sent);
    forall i | i in s.sent ensures i < |s.ts| && Acked(s.ts[i], s.stop) { assert i in Acks(s); }
  }

  lemma RestartKeeps(s: W, d: W)
    requires Inv(s) && (s.phase.Stopped? || s.phase.Restarting?) && LockStep(s, d)
    ensures Inv(d)
  {
    if s.phase.Stopped? { AllAcked(s); }
    forall j | 0 <= j < |d.ts| ensures ThreadInv(d, j) { assert ThreadInv(s, j); }
  }

  lemma NextKeeps(s: W, d: W)
    requires Inv(s) && Next(s, d)
    ensures Inv(d)
  {
    if LockStep(s, d) {
      match s.phase
      case Running => BeginKeeps(s, d);
      case Counted => FlagKeeps(s, d);
      case Suspending(_) => SuspendKeeps(s, d);
      case Waiting(_) => WaitKeeps(s, d);
      case _ => RestartKeeps(s, d);
    } else {
      var i: nat, spurious: bool :| i < |s.ts| && Enabled(s, i, spurious) && d == ThreadStep(s, i, spurious);
      ThreadStepKeeps(s, i, spurious);
    }
  }

  // -------------------------------------------------------------------------- theorems

  ghost predicate IsRun(run: seq<W>) {
    && run != [] && Init(run[0])
    && forall i :: 0 <= i < |run| - 1 ==> Next(run[i], run[i + 1])
  }

  lemma {:induction false} RunInv(run: seq<W>, i: nat)
    requires IsRun(run) && i < |run|
    ensures Inv(run[i])
  {
    hide Inv, Next, Init;
    if i == 0 { InitInv(run[0]); }
    else {
      RunInv(run, i - 1);
      assert Next(run[i - 1], run[i - 1 + 1]);
      NextKeeps(run[i - 1], run[i]);
    }
  }

  /** Stop-the-world safety: from the return of GC_stop_world until GC_world_is_stopped is cleared, every thread
      but the stopping one and those that are blocked has published its stack pointer for this very stop, and sits
      in the wait loop of the suspend handler for this stop.  The semaphore is back at zero. */
  lemma WorldIsStopped(run: seq<W>, i: nat, j: nat)
    requires IsRun(run) && i < |run| && run[i].phase.Stopped? && j < |run[i].ts| && j != run[i].self && j !in run[i].blocked
    ensures run[i].ts[j].spFor == run[i].stop && Parked(run[i].ts[j].pc, run[i].stop) && !run[i].ts[j].suspend
    ensures run[i].sem == 0
  {
    RunInv(run, i);
    AllAcked(run[i]);
  }

  /** No thread leaves the handler of the present stop while the world is stopped, however often it is woken. */
  lemma NobodyLeaves(run: seq<W>, i: nat, j: nat)
    requires IsRun(run) && i + 1 < |run| && run[i].phase.Stopped? && run[i + 1].phase.Stopped?
    requires j < |run[i].ts| && j != run[i].self && j !in run[i].blocked
    ensures |run[i + 1].ts| == |run[i].ts| && run[i + 1].stop == run[i].stop && Parked(run[i + 1].ts[j].pc, run[i].stop)
    ensures run[i + 1].ts[j].spFor == run[i].ts[j].spFor
  {
    WorldIsStopped(run, i, j);
    RunInv(run, i);
    var s, d := run[i], run[i + 1];
    assert Next(s, d);
    if !LockStep(s, d) {
      var k: nat, spurious: bool :| k < |s.ts| && Enabled(s, k, spurious) && d == ThreadStep(s, k, spurious);
    }
  }

  /** The handler has recorded the stop whenever it may be asleep; stops are even, the low bit is for other uses. */
  predicate Recorded(s: W) {
    s.stop % 2 == 0 && forall i :: 0 <= i < |s.ts| && (s.ts[i].pc.Sleep? || s.ts[i].pc.TestFlag? || s.ts[i].pc.TestCount?) ==> s.ts[i].last == s.ts[i].pc.c
  }

  /** How many rounds have begun in the first i steps. */
  function Rounds(run: seq<W>, i: nat): nat
    requires i < |run|
  {
    if i == 0 then 0 else Rounds(run, i - 1) + if run[i - 1].phase.Running? && run[i].phase.Counted? then 1 else 0
  }

  lemma LockStepRecorded(s: W, d: W)
    requires Recorded(s) && LockStep(s, d)
    ensures Recorded(d) && d.stop == s.stop + if s.phase.Running? && d.phase.Counted? then 2 else 0
  {}

  lemma ThreadStepRecorded(s: W, i: nat, spurious: bool)
    requires Recorded(s) && i < |s.ts| && Enabled(s, i, spurious)
    ensures Recorded(ThreadStep(s, i, spurious)) && ThreadStep(s, i, spurious).stop == s.stop && ThreadStep(s, i, spurious).phase == s.phase
  {}

  /** GC_stop_count counts the stops, in steps of two, and last_stop_count says which stop a thread has last slept for. */
  lemma {:induction false} StopsAreCounted(run: seq<W>, i: nat)
    requires IsRun(run) && i < |run|
    ensures Recorded(run[i]) && run[i].stop == 2 * Rounds(run, i)
  {
    hide Recorded, LockStep, Enabled, ThreadStep;
    if i == 0 { NoneRecorded(run[0]); }
    else {
      var s, d := run[i - 1], run[i];
      StopsAreCounted(run, i - 1);
      assert Next(run[i - 1], run[i - 1 + 1]);
      if LockStep(s, d) { LockStepRecorded(s, d); }
      else {
        var k: nat, spurious: bool :| k < |s.ts| && Enabled(s, k, spurious) && d == ThreadStep(s, k, spurious);
        ThreadStepRecorded(s, k, spurious);
      }
    }
  }

  lemma NoneRecorded(s: W)
    requires Init(s)
    ensures Recorded(s)
  {}

  /** How far a thread is from leaving the handler. */
  function ToLeave(pc: Pc): nat {
    if pc.Run? then 0 else if pc.TestFlag? then 1 else if pc.Sleep? then 2 else if pc.StoreCount? || pc.TestCount? then 3 else 4
  }

  /** Starting the world cannot hang either: afterwards every thread still in the handler can go on without being woken by
      chance, and with each of its steps it gets nearer to leaving, unless a new stop has begun. */
  lemma StartCannotHang(run: seq<W>, i: nat, j: nat, spurious: bool)
    requires IsRun(run) && i < |run| && run[i].phase.Running? && j < |run[i].ts| && run[i].ts[j].pc != Run
    ensures Enabled(run[i], j, false)
    ensures ToLeave(ThreadStep(run[i], j, spurious).ts[j].pc) < ToLeave(run[i].ts[j].pc)
  {
    RunInv(run, i);
    InvParts(run[i], j);
  }

  /** A thread never takes a suspend signal for a duplicate, and GC_suspend_all never passes over a thread because
      it seems to have stopped already. */
  lemma NoFalseDuplicates(run: seq<W>, i: nat, j: nat)
    requires IsRun(run) && i < |run| && j < |run[i].ts|
    ensures run[i].ts[j].pc.Check? ==> run[i].ts[j].pc.c == run[i].stop && run[i].ts[j].last != run[i].stop
    ensures run[i].phase == Suspending(j) && !Skips(run[i], j) ==> run[i].ts[j].last != run[i].stop
  {
    RunInv(run, i);
    InvParts(run[i], j);
  }

  /** The handshake cannot get stuck: while GC_stop_world waits for an acknowledgement that has not come, some
      thread that has been sent a signal can go on without being woken by chance. */
  lemma StopCannotHang(run: seq<W>, i: nat) returns (j: nat)
    requires IsRun(run) && i < |run| && run[i].phase.Waiting? && run[i].phase.k < |run[i].sent| && run[i].sem == 0
    ensures j < |run[i].ts| && j in run[i].sent && !Acked(run[i].ts[j], run[i].stop) && Enabled(run[i], j, false)
  {
    RunInv(run, i);
    var s := run[i];
    assert !(s.sent <= Acks(s)) by {
      if s.sent <= Acks(s) { SubsetSize(s.sent, Acks(s)); }
    }
    j :| j in s.sent && j !in Acks(s);
    InvParts(s, j);
  }
}
