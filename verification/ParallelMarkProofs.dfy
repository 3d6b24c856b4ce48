/** What the parallel marker guarantees: its counters count, what lies below GC_first_nonempty is consumed,
    no entry is lost in a steal, a helper leaves only when no work is left anywhere, and the threads cannot
    block each other. */
module ParallelMarkProofs {
  import opened ParallelMarkModel

  // -------------------------------------------------------------------------- counting

  datatype Class = IsInside | IsActive

  predicate Member(c: Class, pc: Pc) { if c.IsInside? then Inside(pc) else Active(pc) }

  function Count(ts: seq<Thread>, c: Class): nat {
    if ts == [] then 0 else (if Member(c, ts[0].pc) then 1 else 0) + Count(ts[1..], c)
  }

  lemma {:induction false} CountSet(ts: seq<Thread>, t: nat, th: Thread, c: Class)
    requires t < |ts|
    ensures Count(ts[t := th], c) ==
      Count(ts, c) + (if Member(c, th.pc) then 1 else 0) - (if Member(c, ts[t].pc) then 1 else 0)
    decreases |ts|
  {
    if t > 0 {
      assert ts[t := th][1..] == ts[1..][t - 1 := th];
      CountSet(ts[1..], t - 1, th, c);
    } else {
      assert ts[t := th][1..] == ts[1..];
    }
  }

  lemma {:induction false} CountNotify(ts: seq<Thread>, c: Class)
    ensures Count(NotifyAll(ts), c) == Count(ts, c)
    decreases |ts|
  {
    if ts != [] {
      assert NotifyAll(ts)[1..] == NotifyAll(ts[1..]);
      CountNotify(ts[1..], c);
    }
  }

  lemma {:induction false} CountZero(ts: seq<Thread>, c: Class, t: nat)
    requires t < |ts| && Member(c, ts[t].pc)
    ensures Count(ts, c) > 0
    decreases |ts|
  {
    if t > 0 { assert ts[1..][t - 1] == ts[t]; CountZero(ts[1..], c, t - 1); }
  }

  lemma {:induction false} CountSome(ts: seq<Thread>, c: Class) returns (t: nat)
    requires Count(ts, c) > 0
    ensures t < |ts| && Member(c, ts[t].pc)
    decreases |ts|
  {
    if Member(c, ts[0].pc) { t := 0; }
    else { t := CountSome(ts[1..], c); t := t + 1; }
  }

  lemma {:induction false} CountInside(ts: seq<Thread>)
    ensures Count(ts, IsActive) <= Count(ts, IsInside)
    decreases |ts|
  {
    if ts != [] { CountInside(ts[1..]); }
  }

  // ------------------------------------------------------------------------ invariants

  /** Everything below k has been taken off the shared stack. */
  predicate Consumed(stack: seq<Slot>, k: nat) {
    k <= |stack| && forall j :: 0 <= j < k ==> stack[j].taken
  }

  /** What holds of a thread's own variables. */
  predicate ThreadOk(stack: seq<Slot>, th: Thread) {
    match th.pc
    case Compare(g) => th.local == [] && Consumed(stack, th.myFn) && Consumed(stack, g)
    case Steal(p, n, _, _) => Consumed(stack, p) && p <= n <= |stack|
    case Zero(p, n, _, _, e) => Consumed(stack, p) && p < n <= |stack| && stack[p].e == e
    case Mark => Consumed(stack, th.myFn)
    case WantReturn(_) => Consumed(stack, th.myFn)
    case Broadcast => Consumed(stack, th.myFn)
    case _ => th.local == [] && (Inside(th.pc) && !th.pc.Enter? ==> Consumed(stack, th.myFn))
  }

  predicate Counts(s: P) {
    s.helperCount == Count(s.ts, IsInside) && s.activeCount == Count(s.ts, IsActive)
  }

  /** Nobody waits for something that has already happened: an un-notified waiter in GC_mark_local has an
      active helper to wait for, the un-notified starter a helper that is still inside. */
  predicate Waits(s: P) {
    forall t :: 0 <= t < |s.ts| ==>
      && (s.ts[t].pc == IdleWait(false) ==> s.activeCount > 0)
      && (s.ts[t].pc == StarterWait(false) ==> s.helperCount > 0)
  }

  predicate StarterPc(pc: Pc) {
    pc.Rest? || pc.Left? || pc.LeftTest? || pc.StarterWait? || pc.Finished?
  }

  /** Thread 0 and the others keep to their parts; help is only wanted while thread 0 is inside. */
  predicate Roles(s: P) {
    && 0 < |s.ts| && 0 < s.discards <= s.localCap
    && !s.ts[0].pc.HelpTest? && !s.ts[0].pc.HelpWait?
    && (forall t :: 0 < t < |s.ts| ==> !StarterPc(s.ts[t].pc))
    && (StarterPc(s.ts[0].pc) && !s.ts[0].pc.Left? ==> !s.helpWanted)
    && (StarterPc(s.ts[0].pc) ==> s.exited)
    && (s.ts[0].pc.Rest? || s.ts[0].pc.Finished? ==> s.helperCount == 0)
  }

  /** The entries a thread has in its hands. */
  function Held(th: Thread): seq<Entry> {
    th.local + match th.pc case Zero(_, _, _, _, e) => [e] case WantReturn(part) => part case _ => []
  }

  predicate OnShared(s: P, e: Entry) {
    exists k :: 0 <= k < |s.stack| && !s.stack[k].taken && s.stack[k].e == e
  }

  predicate InHands(s: P, e: Entry) {
    exists t :: 0 <= t < |s.ts| && e in Held(s.ts[t])
  }

  ghost predicate Pending(s: P, o: nat, j: nat) {
    exists e: Entry :: e.o == o && e.lo <= j && (OnShared(s, e) || InHands(s, e))
  }

  /** Unless the mark state is invalid, every pointer of a marked object leads to a marked object or is
      still going to be looked at. */
  ghost predicate Colored(s: P) {
    s.invalid || forall o :: o in s.marks ==>
      forall j :: 0 <= j < |Targets(s.mem, o)| ==> Targets(s.mem, o)[j] in s.marks || Pending(s, o, j)
  }

  /** No work is left: the shared stack is used up, and no thread holds an entry. */
  predicate NoWork(s: P) {
    && s.fn == |s.stack| && Consumed(s.stack, s.fn)
    && forall t :: 0 <= t < |s.ts| ==> Held(s.ts[t]) == []
  }

  predicate Shape(s: P) {
    && Counts(s) && Waits(s) && Roles(s) && Consumed(s.stack, s.fn)
    && (forall t :: 0 <= t < |s.ts| ==> ThreadOk(s.stack, s.ts[t]))
    && (s.exited ==> NoWork(s))
  }

  ghost predicate Inv(s: P) { Shape(s) && Colored(s) }

  lemma InitInv(s: P)
    requires Init(s)
    ensures Inv(s)
  {
    NoneCounted(s.ts, IsInside);
    NoneCounted(s.ts, IsActive);
  }

  lemma {:induction false} NoneCounted(ts: seq<Thread>, c: Class)
    requires forall t :: 0 <= t < |ts| ==> !Member(c, ts[t].pc)
    ensures Count(ts, c) == 0
    decreases |ts|
  {
    if ts != [] { NoneCounted(ts[1..], c); }
  }

  // -------------------------------------------- what a step needs to keep the shape

  /** The shared stack only grows, and what has been taken stays taken. */
  predicate StackGrows(a: seq<Slot>, b: seq<Slot>) {
    |a| <= |b| && forall j :: 0 <= j < |a| ==> (a[j].taken ==> b[j].taken) && a[j].e == b[j].e
  }

  lemma ThreadStaysOk(a: seq<Slot>, b: seq<Slot>, th: Thread)
    requires StackGrows(a, b) && ThreadOk(a, th)
    ensures ThreadOk(b, th)
  {}

  /** The effect of a step on one thread and on the counters, with or without a notification. */
  lemma Counted(s: P, t: nat, th: Thread, notify: bool)
    requires Counts(s) && t < |s.ts|
    ensures var base := if notify then NotifyAll(s.ts) else s.ts;
      && Count(base[t := th], IsInside) == s.helperCount
           + (if Inside(th.pc) then 1 else 0) - (if Inside(s.ts[t].pc) then 1 else 0)
      && Count(base[t := th], IsActive) == s.activeCount
           + (if Active(th.pc) then 1 else 0) - (if Active(s.ts[t].pc) then 1 else 0)
  {
    var base := if notify then NotifyAll(s.ts) else s.ts;
    CountNotify(s.ts, IsInside);
    CountNotify(s.ts, IsActive);
    CountSet(base, t, th, IsInside);
    CountSet(base, t, th, IsActive);
  }

  /** The threads after a step of thread t. */
  function Moved(s: P, t: nat, th: Thread, notify: bool): seq<Thread>
    requires t < |s.ts|
  {
    (if notify then NotifyAll(s.ts) else s.ts)[t := th]
  }

  function Delta(c: Class, now: Pc, before: Pc): int {
    (if Member(c, now) then 1 else 0) - (if Member(c, before) then 1 else 0)
  }

  /** A step of thread t that obeys the rules below keeps the shape: the counters follow the thread, a
      counter that drops to zero is announced, and a waiter starts to wait for something still to come. */
  lemma ShapeKept(s: P, d: P, t: nat, th: Thread, notify: bool)
    requires Shape(s) && t < |s.ts| && d.ts == Moved(s, t, th, notify)
    requires d.helperCount == s.helperCount + Delta(IsInside, th.pc, s.ts[t].pc)
    requires d.activeCount == s.activeCount + Delta(IsActive, th.pc, s.ts[t].pc)
    requires StackGrows(s.stack, d.stack) && Consumed(d.stack, d.fn) && ThreadOk(d.stack, th)
    requires (d.activeCount == 0 < s.activeCount ==> notify) && (d.helperCount == 0 < s.helperCount ==> notify)
    requires th.pc == IdleWait(false) ==> d.activeCount > 0
    requires th.pc == StarterWait(false) ==> d.helperCount > 0
    requires Roles(d) && (d.exited ==> NoWork(d))
    ensures Shape(d)
  {
    Counted(s, t, th, notify);
    ThreadsKept(s, d, t, th, notify);
    WaitsKept(s, d, t, th, notify);
  }

  lemma ThreadsKept(s: P, d: P, t: nat, th: Thread, notify: bool)
    requires forall u :: 0 <= u < |s.ts| ==> ThreadOk(s.stack, s.ts[u])
    requires t < |s.ts| && d.ts == Moved(s, t, th, notify)
    requires StackGrows(s.stack, d.stack) && ThreadOk(d.stack, th)
    ensures forall u :: 0 <= u < |d.ts| ==> ThreadOk(d.stack, d.ts[u])
  {
    forall u | 0 <= u < |d.ts| ensures ThreadOk(d.stack, d.ts[u]) {
      if u != t { ThreadStaysOk(s.stack, d.stack, s.ts[u]); WokenOk(d.stack, s.ts[u]); }
    }
  }

  lemma WokenOk(stack: seq<Slot>, th: Thread)
    requires ThreadOk(stack, th)
    ensures ThreadOk(stack, Woken(th))
  {}

  lemma WaitsKept(s: P, d: P, t: nat, th: Thread, notify: bool)
    requires Waits(s) && t < |s.ts| && d.ts == Moved(s, t, th, notify)
    requires Counts(s) && Counts(d)
    requires (d.activeCount == 0 < s.activeCount ==> notify) && (d.helperCount == 0 < s.helperCount ==> notify)
    requires th.pc == IdleWait(false) ==> d.activeCount > 0
    requires th.pc == StarterWait(false) ==> d.helperCount > 0
    ensures Waits(d)
  {
    forall u | 0 <= u < |d.ts|
      ensures d.ts[u].pc == IdleWait(false) ==> d.activeCount > 0
      ensures d.ts[u].pc == StarterWait(false) ==> d.helperCount > 0
    {
      if u != t && notify { assert d.ts[u] == Woken(s.ts[u]); }
      else if u != t { assert d.ts[u] == s.ts[u]; }
    }
  }

  lemma CountNonNegative(s: P)
    requires Counts(s)
    ensures s.activeCount >= 0 && s.helperCount >= 0 && s.activeCount <= s.helperCount
  {
    CountInside(s.ts);
  }

  /** The roles after a step of thread t depend on that thread only. */
  lemma RolesKept(s: P, d: P, t: nat, th: Thread, notify: bool)
    requires Roles(s) && t < |s.ts| && d.ts == Moved(s, t, th, notify)
    requires d.discards == s.discards && d.localCap == s.localCap
    requires d.helpWanted == s.helpWanted && d.exited == s.exited
    requires (t == 0 && !th.pc.HelpTest? && !th.pc.HelpWait?) || (t != 0 && !StarterPc(th.pc))
    requires t == 0 && StarterPc(th.pc) ==>
      d.exited && (!th.pc.Left? ==> !d.helpWanted) && (th.pc.Rest? || th.pc.Finished? ==> d.helperCount == 0)
    requires t != 0 && (s.ts[0].pc.Rest? || s.ts[0].pc.Finished?) ==> d.helperCount == 0
    ensures Roles(d)
  {}

  /** With the stack and GC_first_nonempty as they were, no work stays no work as long as thread t holds
      nothing. */
  lemma NoWorkKept(s: P, d: P, t: nat, th: Thread, notify: bool)
    requires NoWork(s) && t < |s.ts| && d.ts == Moved(s, t, th, notify)
    requires d.stack == s.stack && d.fn == s.fn && Held(th) == []
    ensures NoWork(d)
  {}

  predicate SameHeld(a: Thread, b: Thread) { multiset(Held(a)) == multiset(Held(b)) }

  /** A step that changes thread t and the counters only, and not what the thread holds. */
  predicate Plain(s: P, d: P, t: nat, th: Thread, notify: bool) {
    && t < |s.ts| && d == s.(ts := Moved(s, t, th, notify), helperCount := d.helperCount,
                             activeCount := d.activeCount, markNo := d.markNo)
    && d.helperCount == s.helperCount + Delta(IsInside, th.pc, s.ts[t].pc)
    && d.activeCount == s.activeCount + Delta(IsActive, th.pc, s.ts[t].pc)
    && ThreadOk(s.stack, th) && SameHeld(s.ts[t], th)
    && (d.activeCount == 0 < s.activeCount ==> notify)
    && (th.pc == IdleWait(false) ==> d.activeCount > 0)
    && (th.pc == StarterWait(false) ==> d.helperCount > 0)
    && StarterPc(th.pc) == StarterPc(s.ts[t].pc) && !th.pc.Left? && !s.ts[t].pc.Left?
    && (th.pc.Rest? || th.pc.Finished? ==> d.helperCount == 0)
    && (th.pc.HelpTest? || th.pc.HelpWait? ==> s.ts[t].pc.HelpTest? || s.ts[t].pc.HelpWait?)
    && s.helperCount <= d.helperCount && (d.helperCount != s.helperCount ==> s.helpWanted && t != 0)
  }

  lemma PlainShape(s: P, d: P, t: nat, th: Thread, notify: bool)
    requires Shape(s) && Plain(s, d, t, th, notify)
    ensures Shape(d)
  {
    RolesKept(s, d, t, th, notify);
    if s.exited {
      NothingHeld(s.ts[t], th);
      NoWorkKept(s, d, t, th, notify);
    }
    ShapeKept(s, d, t, th, notify);
  }

  lemma NothingHeld(a: Thread, b: Thread)
    requires SameHeld(a, b) && Held(a) == []
    ensures Held(b) == []
  {
    assert |multiset(Held(b))| == |Held(b)| && |multiset(Held(a))| == |Held(a)|;
  }

  /** Whatever was pending before is pending afterwards. */
  ghost predicate Kept(s: P, d: P) {
    forall e: Entry :: OnShared(s, e) || InHands(s, e) ==> OnShared(d, e) || InHands(d, e)
  }

  lemma KeptColored(s: P, d: P)
    requires Colored(s) && d.mem == s.mem && d.marks == s.marks && (s.invalid ==> d.invalid)
    requires !d.invalid ==> Kept(s, d)
    ensures Colored(d)
  {
    if !d.invalid {
      forall o, j | o in d.marks && 0 <= j < |Targets(d.mem, o)| && Targets(d.mem, o)[j] !in d.marks
        ensures Pending(d, o, j)
      {
        var e: Entry :| e.o == o && e.lo <= j && (OnShared(s, e) || InHands(s, e));
        assert OnShared(d, e) || InHands(d, e);
      }
    }
  }

  /** A step of thread t loses no entry if what it held and what was on the shared stack is still there. */
  lemma MovedKept(s: P, d: P, t: nat, th: Thread, notify: bool)
    requires t < |s.ts| && d.ts == Moved(s, t, th, notify)
    requires forall e :: e in Held(s.ts[t]) ==> e in Held(th) || OnShared(d, e)
    requires forall e :: OnShared(s, e) ==> OnShared(d, e) || e in Held(th)
    ensures Kept(s, d)
  {
    forall e: Entry | OnShared(s, e) || InHands(s, e) ensures OnShared(d, e) || InHands(d, e) {
      if !OnShared(d, e) {
        if e in Held(th) {
          assert d.ts[t] == th;
        } else {
          var u :| 0 <= u < |s.ts| && e in Held(s.ts[u]);
          assert e in Held(d.ts[u]);
        }
      }
    }
  }

  lemma PlainInv(s: P, d: P, t: nat, th: Thread, notify: bool)
    requires Inv(s) && Plain(s, d, t, th, notify)
    ensures Inv(d)
  {
    PlainShape(s, d, t, th, notify);
    assert forall e :: OnShared(s, e) ==> OnShared(d, e);
    assert forall e :: e in Held(s.ts[t]) ==> e in multiset(Held(th));
    MovedKept(s, d, t, th, notify);
    KeptColored(s, d);
  }

  // ------------------------------------------------------------------ plain steps

  /** What a plain step of thread t relies on. */
  predicate Basic(s: P, t: nat) {
    && t < |s.ts| && Roles(s) && 0 <= s.activeCount <= s.helperCount
    && ThreadOk(s.stack, s.ts[t]) && Consumed(s.stack, s.fn)
    && (Active(s.ts[t].pc) ==> s.activeCount > 0)
  }

  lemma ShapeBasic(s: P, t: nat)
    requires Shape(s) && t < |s.ts|
    ensures Basic(s, t)
  {
    CountNonNegative(s);
    if Active(s.ts[t].pc) { CountZero(s.ts, IsActive, t); }
  }

  predicate Empty(pc: Pc) { !pc.Zero? && !pc.WantReturn? }

  /** Moving on within the same class of program points, with nothing else changing. */
  lemma GotoPlain(s: P, d: P, t: nat, pc: Pc)
    requires t < |s.ts| && d == Goto(s, t, pc) && ThreadOk(s.stack, s.ts[t].(pc := pc))
    requires Inside(pc) == Inside(s.ts[t].pc) && Active(pc) == Active(s.ts[t].pc)
    requires StarterPc(pc) == StarterPc(s.ts[t].pc) && Empty(pc) && Empty(s.ts[t].pc)
    requires !pc.Left? && !pc.Rest? && !pc.Finished? && !s.ts[t].pc.Left?
    requires pc.HelpTest? || pc.HelpWait? ==> s.ts[t].pc.HelpTest? || s.ts[t].pc.HelpWait?
    requires pc == IdleWait(false) ==> s.activeCount > 0
    requires pc == StarterWait(false) ==> s.helperCount > 0
    ensures Plain(s, d, t, d.ts[t], false)
  {}

  lemma HelpEnterPlain(s: P, d: P, t: nat)
    requires Basic(s, t) && s.ts[t].pc.HelpTest? && s.helpWanted
    requires d == Goto(s.(helperCount := s.helperCount + 1), t, Enter)
    ensures t < |d.ts| && Plain(s, d, t, d.ts[t], false)
  {}

  lemma HelpTestPlain(s: P, d: P, t: nat)
    requires Basic(s, t) && s.ts[t].pc.HelpTest? && d == HelpStep(s, t)
    ensures t < |d.ts| && Plain(s, d, t, d.ts[t], false)
  {
    var th := s.ts[t];
    if s.markNo < th.no || (!s.helpWanted && s.markNo == th.no) { GotoPlain(s, d, t, HelpWait(false)); }
    else if s.markNo == th.no && s.helperCount <= s.markersM1 { HelpEnterPlain(s, d, t); }
  }

  lemma EnterPlain(s: P, d: P, t: nat)
    requires Basic(s, t) && s.ts[t].pc.Enter? && d == EnterStep(s, t)
    ensures t < |d.ts| && Plain(s, d, t, d.ts[t], false)
  {}

  lemma LeftTestPlain(s: P, d: P, t: nat)
    requires Basic(s, t) && s.ts[t].pc.LeftTest? && d == LeftTestStep(s, t)
    ensures t < |d.ts| && Plain(s, d, t, d.ts[t], false)
  {
    if s.helperCount > 0 { GotoPlain(s, d, t, StarterWait(false)); }
  }

  lemma FinishedPlain(s: P, d: P, t: nat)
    requires Basic(s, t) && s.ts[t].pc.Finished? && d == GotoNotify(s, t, Rest)
    ensures t < |d.ts| && Plain(s, d, t, d.ts[t], true)
  {}

  lemma ReadTopPlain(s: P, d: P, t: nat)
    requires Basic(s, t) && s.ts[t].pc.ReadTop? && d == ReadTopStep(s, t)
    ensures t < |d.ts| && Plain(s, d, t, d.ts[t], false)
  {
    var th := s.ts[t];
    GotoPlain(s, d, t, if |s.stack| <= th.myFn then WantLock
                       else Steal(th.myFn, |s.stack|, 0, ToGet(|s.stack| - th.myFn)));
  }

  lemma IdleTestPlain(s: P, d: P, t: nat)
    requires Basic(s, t) && s.ts[t].pc.IdleTest? && d == IdleTestStep(s, t)
    ensures t < |d.ts| && Plain(s, d, t, d.ts[t], false)
  {
    GotoPlain(s, d, t, if s.activeCount > 0 && s.fn >= |s.stack| then IdleWait(false) else ExitTest);
  }

  lemma BroadcastPlain(s: P, d: P, t: nat)
    requires Basic(s, t) && s.ts[t].pc.Broadcast? && d == GotoNotify(s, t, Mark)
    ensures t < |d.ts| && Plain(s, d, t, d.ts[t], true)
  {}

  lemma RecheckPlain(s: P, d: P, t: nat)
    requires Basic(s, t) && s.ts[t].pc.Recheck? && d == RecheckStep(s, t)
    ensures t < |d.ts| && Plain(s, d, t, d.ts[t], |s.stack| <= s.ts[t].myFn && s.activeCount == 1)
  {
    var th := s.ts[t];
    if |s.stack| > th.myFn { GotoPlain(s, d, t, Steal(th.myFn, |s.stack|, 0, ToGet(|s.stack| - th.myFn))); }
  }

  /** Advancing GC_first_nonempty, when the compare-and-swap succeeds. */
  lemma SwapKeeps(s: P, d: P, t: nat)
    requires Inv(s) && t < |s.ts| && s.ts[t].pc.Compare? && s.fn < s.ts[t].myFn
    requires d == Goto(s.(fn := s.ts[t].myFn), t, ReadTop)
    ensures Inv(d)
  {
    assert !s.exited;
    RolesKept(s, d, t, d.ts[t], false);
    ShapeKept(s, d, t, d.ts[t], false);
    assert forall e :: OnShared(s, e) ==> OnShared(d, e);
    MovedKept(s, d, t, d.ts[t], false);
    KeptColored(s, d);
  }

  lemma ComparePlain(s: P, t: nat)
    requires Basic(s, t) && s.ts[t].pc.Compare? && !(s.ts[t].pc.gfn < s.ts[t].myFn && s.fn == s.ts[t].pc.gfn)
    ensures Plain(s, CompareStep(s, t), t, CompareStep(s, t).ts[t], false)
  {}

  lemma CompareKeeps(s: P, t: nat)
    requires Inv(s) && t < |s.ts| && s.ts[t].pc.Compare?
    ensures Inv(CompareStep(s, t))
  {
    var d := CompareStep(s, t);
    if s.ts[t].pc.gfn < s.ts[t].myFn && s.fn == s.ts[t].pc.gfn {
      SwapKeeps(s, d, t);
    } else {
      ShapeBasic(s, t);
      ComparePlain(s, t);
      PlainInv(s, d, t, d.ts[t], false);
    }
  }

  predicate OutsidePc(pc: Pc) {
    pc.HelpTest? || pc.HelpWait? || pc.Enter? || pc.LeftTest? || pc.StarterWait? || pc.Finished?
  }

  predicate LoopPc(pc: Pc) {
    pc.LoopTop? || pc.WantLock? || pc.ReadTop? || pc.IdleTest? || pc.IdleWait?
  }

  lemma OutsideSteps(s: P, d: P, t: nat, c: Choice) returns (notify: bool)
    requires Basic(s, t) && OutsidePc(s.ts[t].pc) && d == Step(s, t, c)
    ensures t < |d.ts| && Plain(s, d, t, d.ts[t], notify)
  {
    notify := s.ts[t].pc.Finished?;
    match s.ts[t].pc
    case HelpTest => HelpTestPlain(s, d, t);
    case HelpWait(_) => GotoPlain(s, d, t, HelpTest);
    case Enter => EnterPlain(s, d, t);
    case LeftTest => LeftTestPlain(s, d, t);
    case StarterWait(_) => GotoPlain(s, d, t, LeftTest);
    case Finished => FinishedPlain(s, d, t);
  }

  lemma LoopSteps(s: P, d: P, t: nat, c: Choice)
    requires Basic(s, t) && LoopPc(s.ts[t].pc) && d == Step(s, t, c)
    ensures t < |d.ts| && Plain(s, d, t, d.ts[t], false)
  {
    match s.ts[t].pc
    case ReadTop => ReadTopPlain(s, d, t);
    case IdleTest => IdleTestPlain(s, d, t);
    case IdleWait(_) => GotoPlain(s, d, t, IdleTest);
    case WantLock => GotoPlain(s, d, t, Recheck);
    case LoopTop => GotoPlain(s, d, t, Compare(s.fn));
  }

  lemma PlainKeeps(s: P, t: nat, c: Choice)
    requires Inv(s) && t < |s.ts| && (OutsidePc(s.ts[t].pc) || LoopPc(s.ts[t].pc))
    ensures Inv(Step(s, t, c))
  {
    ShapeBasic(s, t);
    var d := Step(s, t, c);
    var notify := false;
    if OutsidePc(s.ts[t].pc) { notify := OutsideSteps(s, d, t, c); } else { LoopSteps(s, d, t, c); }
    PlainInv(s, d, t, d.ts[t], notify);
  }

  lemma NotifyingKeeps(s: P, t: nat, c: Choice)
    requires Inv(s) && t < |s.ts| && (s.ts[t].pc.Recheck? || s.ts[t].pc.Broadcast?)
    ensures Inv(Step(s, t, c))
  {
    ShapeBasic(s, t);
    var d := Step(s, t, c);
    if s.ts[t].pc.Broadcast? {
      BroadcastPlain(s, d, t);
      PlainInv(s, d, t, d.ts[t], true);
    } else {
      RecheckPlain(s, d, t);
      PlainInv(s, d, t, d.ts[t], |s.stack| <= s.ts[t].myFn && s.activeCount == 1);
    }
  }

  lemma SpuriousKeeps(s: P, t: nat)
    requires Inv(s) && t < |s.ts|
    ensures Inv(Spurious(s, t))
  {
    var d := Spurious(s, t);
    if d.ts[t] == s.ts[t] { assert d == s; }
    else { PlainInv(s, d, t, d.ts[t], false); }
  }

  // ------------------------------------------------------------ stealing and marking

  lemma StealKeeps(s: P, t: nat)
    requires Inv(s) && t < |s.ts| && s.ts[t].pc.Steal?
    ensures Inv(StealStep(s, t))
  {
    var d := StealStep(s, t);
    var th := s.ts[t];
    var pc := th.pc;
    ShapeBasic(s, t);
    if pc.p < pc.n && pc.i <= pc.max && !s.stack[pc.p].taken {
      assert !s.exited;
      FoundEntry(s, d, t);
    } else if pc.p < pc.n && pc.i <= pc.max {
      GotoPlain(s, d, t, Steal(pc.p + 1, pc.n, pc.i, pc.max));
      PlainInv(s, d, t, d.ts[t], false);
    } else {
      StealEnds(s, d, t);
      PlainInv(s, d, t, d.ts[t], false);
    }
  }

  lemma StealEnds(s: P, d: P, t: nat)
    requires Basic(s, t) && s.ts[t].pc.Steal?
    requires d == Set(s, t, s.ts[t].(pc := Mark, myFn := s.ts[t].pc.p))
    ensures t < |d.ts| && Plain(s, d, t, d.ts[t], false)
  {}

  /** A nonzero descriptor has been read: the thread now holds the entry, and so does the shared stack. */
  lemma FoundEntry(s: P, d: P, t: nat)
    requires Inv(s) && t < |s.ts| && s.ts[t].pc.Steal? && !s.exited
    requires s.ts[t].pc.p < s.ts[t].pc.n && s.ts[t].pc.p < |s.stack|
    requires d == Goto(s, t, Zero(s.ts[t].pc.p, s.ts[t].pc.n, s.ts[t].pc.i, s.ts[t].pc.max, s.stack[s.ts[t].pc.p].e))
    ensures Inv(d)
  {
    RolesKept(s, d, t, d.ts[t], false);
    ShapeKept(s, d, t, d.ts[t], false);
    assert forall e :: OnShared(s, e) ==> OnShared(d, e);
    MovedKept(s, d, t, d.ts[t], false);
    KeptColored(s, d);
  }

  /** Zeroing a descriptor loses nothing: the thread has read the entry before, and keeps it. */
  lemma ZeroKeeps(s: P, t: nat, weight: nat)
    requires Inv(s) && t < |s.ts| && s.ts[t].pc.Zero?
    ensures s.ts[t].pc.p < |s.stack| && Inv(ZeroStep(s, t, weight))
  {
    var d := ZeroStep(s, t, weight);
    var pc := s.ts[t].pc;
    assert pc.e in Held(s.ts[t]);
    assert !s.exited;
    RolesKept(s, d, t, d.ts[t], false);
    ShapeKept(s, d, t, d.ts[t], false);
    forall e | OnShared(s, e) ensures OnShared(d, e) || e in Held(d.ts[t]) {
      var k :| 0 <= k < |s.stack| && !s.stack[k].taken && s.stack[k].e == e;
      if k != pc.p { assert d.stack[k] == s.stack[k]; }
    }
    MovedKept(s, d, t, d.ts[t], false);
    KeptColored(s, d);
  }

  /** Taking entries from the local stack in order to give them back holds on to them. */
  lemma GiveKeeps(s: P, d: P, t: nat, k: nat)
    requires Inv(s) && t < |s.ts| && s.ts[t].pc.Mark? && k <= |s.ts[t].local|
    requires d == Set(s, t, s.ts[t].(pc := WantReturn(s.ts[t].local[..k]), local := s.ts[t].local[k..]))
    ensures Inv(d)
  {
    var l := s.ts[t].local;
    assert l == l[..k] + l[k..];
    assert Held(s.ts[t]) == l && Held(d.ts[t]) == l[k..] + l[..k];
    PlainInv(s, d, t, d.ts[t], false);
  }

  /** Nothing but the entry x has been lost, and what x stood for is either marked or still pending. */
  lemma AdvancedColored(s: P, d: P, x: Entry)
    requires Colored(s) && !s.invalid && d.mem == s.mem && s.marks <= d.marks
    requires forall e: Entry :: e != x && (OnShared(s, e) || InHands(s, e)) ==> OnShared(d, e) || InHands(d, e)
    requires x.lo < |Targets(s.mem, x.o)| ==>
      Targets(s.mem, x.o)[x.lo] in d.marks && InHands(d, Entry(x.o, x.lo + 1))
    requires forall o :: o in d.marks && o !in s.marks ==> InHands(d, Entry(o, 0))
    ensures Colored(d)
  {
    forall o, j | o in d.marks && 0 <= j < |Targets(d.mem, o)| && Targets(d.mem, o)[j] !in d.marks
      ensures Pending(d, o, j)
    {
      if o in s.marks {
        var e: Entry :| e.o == o && e.lo <= j && (OnShared(s, e) || InHands(s, e));
        var e' := if e == x then Entry(x.o, x.lo + 1) else e;
        assert e'.o == o && e'.lo <= j && (OnShared(d, e') || InHands(d, e'));
      } else {
        var e := Entry(o, 0);
        assert e.o == o && e.lo <= j && InHands(d, e);
      }
    }
  }

  lemma InLocal(d: P, t: nat, i: nat)
    requires t < |d.ts| && i < |d.ts[t].local|
    ensures InHands(d, d.ts[t].local[i])
  {
    assert d.ts[t].local[i] in Held(d.ts[t]);
  }

  /** d is s after thread t has considered one pointer of its top local entry. */
  predicate OnePointerOn(s: P, d: P, t: nat) {
    && t < |s.ts| == |d.ts| && s.ts[t].local != []
    && d == s.(marks := d.marks, invalid := d.invalid, ts := s.ts[t := s.ts[t].(local := d.ts[t].local)])
    && s.marks <= d.marks && (s.invalid ==> d.invalid)
    && (d.invalid || LocalAdvanced(s, d, s.ts[t].local, d.ts[t].local))
  }

  predicate LocalAdvanced(s: P, d: P, l: seq<Entry>, m: seq<Entry>)
    requires l != []
  {
    var k := |l| - 1;
    && k <= |m| && m[..k] == l[..k]
    && (l[k].lo < |Targets(s.mem, l[k].o)| ==>
          Targets(s.mem, l[k].o)[l[k].lo] in d.marks && k < |m| && m[k] == Entry(l[k].o, l[k].lo + 1))
    && forall o :: o in d.marks && o !in s.marks ==> k + 1 < |m| && m[k + 1] == Entry(o, 0)
  }

  lemma ScanLocalOn(s: P, t: nat, race: bool)
    requires t < |s.ts| && s.ts[t].local != []
    ensures OnePointerOn(s, ScanLocal(s, t, race), t)
  {}

  lemma ScanLocalColored(s: P, d: P, t: nat)
    requires Colored(s) && OnePointerOn(s, d, t) && s.ts[t].pc.Mark? && !d.invalid
    ensures Colored(d)
  {
    var l := s.ts[t].local;
    var k := |l| - 1;
    var x := l[k];
    forall e: Entry | e != x && (OnShared(s, e) || InHands(s, e)) ensures OnShared(d, e) || InHands(d, e) {
      if OnShared(s, e) {
        assert OnShared(d, e);
      } else {
        var u :| 0 <= u < |s.ts| && e in Held(s.ts[u]);
        if u != t { assert e in Held(d.ts[u]); }
        else {
          var i :| 0 <= i < |l| && l[i] == e;
          assert l[..k][i] == d.ts[t].local[..k][i];
          InLocal(d, t, i);
        }
      }
    }
    if x.lo < |Targets(s.mem, x.o)| { InLocal(d, t, k); }
    forall o | o in d.marks && o !in s.marks ensures InHands(d, Entry(o, 0)) { InLocal(d, t, k + 1); }
    AdvancedColored(s, d, x);
  }

  lemma ScanLocalShape(s: P, d: P, t: nat)
    requires Shape(s) && OnePointerOn(s, d, t) && s.ts[t].pc.Mark?
    ensures Shape(d)
  {
    assert Held(s.ts[t]) == s.ts[t].local && !s.exited;
    RolesKept(s, d, t, d.ts[t], false);
    ShapeKept(s, d, t, d.ts[t], false);
  }

  /** Considering one pointer of the top local entry. */
  lemma ScanLocalKeeps(s: P, t: nat, race: bool)
    requires Inv(s) && t < |s.ts| && s.ts[t].pc.Mark? && s.ts[t].local != []
    ensures Inv(ScanLocal(s, t, race))
  {
    var d := ScanLocal(s, t, race);
    ScanLocalOn(s, t, race);
    ScanLocalShape(s, d, t);
    if !d.invalid { ScanLocalColored(s, d, t); }
  }

  lemma MarkKeeps(s: P, t: nat, c: Choice)
    requires Inv(s) && t < |s.ts| && s.ts[t].pc.Mark?
    ensures Inv(Step(s, t, c))
  {
    var d := Step(s, t, c);
    var l := s.ts[t].local;
    if l == [] {
      GotoPlain(s, d, t, LoopTop);
      PlainInv(s, d, t, d.ts[t], false);
    } else if c.move == GiveBack && |l| > s.localCap / 2 {
      assert l[..|l|] == l && l[|l|..] == [];
      GiveKeeps(s, d, t, |l|);
    } else if c.move == Share && |l| > 2 {
      GiveKeeps(s, d, t, (|l| - 1) / 2);
    } else {
      ScanLocalKeeps(s, t, c.race);
    }
  }

  lemma ReturnShape(s: P, d: P, t: nat, added: seq<Slot>)
    requires Shape(s) && t < |s.ts| && s.ts[t].pc.WantReturn?
    requires d == Goto(s.(stack := s.stack + added, invalid := d.invalid), t, Broadcast)
    requires s.ts[t].pc.part == [] ==> added == []
    ensures Shape(d)
  {
    RolesKept(s, d, t, d.ts[t], false);
    if s.exited {
      assert Held(s.ts[t]) == [];
      assert s.stack + added == s.stack;
      NoWorkKept(s, d, t, d.ts[t], false);
    }
    ShapeKept(s, d, t, d.ts[t], false);
  }

  /** Giving entries back to the shared stack, or dropping them and saying so. */
  lemma ReturnKeeps(s: P, t: nat)
    requires Inv(s) && t < |s.ts| && s.ts[t].pc.WantReturn?
    ensures Inv(ReturnStack(s, t))
  {
    var d := ReturnStack(s, t);
    assert s.stack + [] == s.stack;
    ReturnShape(s, d, t, if |s.stack| + |s.ts[t].pc.part| > s.cap then [] else Slots(s.ts[t].pc.part));
    if !d.invalid { ReturnColored(s, t); }
  }

  lemma ReturnColored(s: P, t: nat)
    requires Colored(s) && t < |s.ts| && s.ts[t].pc.WantReturn? && !ReturnStack(s, t).invalid
    ensures Colored(ReturnStack(s, t))
  {
    var d := ReturnStack(s, t);
    var part := s.ts[t].pc.part;
    forall e | OnShared(s, e) ensures OnShared(d, e) {
      var k :| 0 <= k < |s.stack| && !s.stack[k].taken && s.stack[k].e == e;
      assert d.stack[k] == s.stack[k];
    }
    forall e | e in part ensures OnShared(d, e) {
      var k :| 0 <= k < |part| && part[k] == e;
      assert d.stack[|s.stack| + k] == Slot(false, e);
    }
    MovedKept(s, d, t, d.ts[t], false);
    KeptColored(s, d);
  }

  // --------------------------------------------------------------- leaving and starting

  /** When the exit test succeeds there is no work left anywhere: no thread is active, so no thread holds
      an entry, and everything on the shared stack has been taken. */
  lemma ExitIsSafe(s: P)
    requires Inv(s) && MayExit(s)
    ensures NoWork(s)
  {
    forall t | 0 <= t < |s.ts| ensures Held(s.ts[t]) == [] {
      if Active(s.ts[t].pc) { CountZero(s.ts, IsActive, t); }
    }
  }

  lemma LeaveShape(s: P, d: P, t: nat, th: Thread)
    requires Inv(s) && t < |s.ts| && s.ts[t].pc.ExitTest? && MayExit(s) && s.helperCount > 0
    requires th == if t == 0 then s.ts[t].(pc := Left) else s.ts[t].(pc := HelpTest, no := s.ts[t].no + 1)
    requires d == s.(helperCount := s.helperCount - 1, exited := true, ts := Moved(s, t, th, s.helperCount == 1))
    ensures Shape(d)
  {
    ExitIsSafe(s);
    NoWorkKept(s, d, t, th, s.helperCount == 1);
    var s1 := s.(exited := true);
    RolesKept(s1, d, t, th, s.helperCount == 1);
    ShapeKept(s1, d, t, th, s.helperCount == 1);
  }

  lemma LeaveKeeps(s: P, t: nat)
    requires Inv(s) && t < |s.ts| && s.ts[t].pc.ExitTest? && MayExit(s)
    ensures Inv(ExitStep(s, t))
  {
    var d := ExitStep(s, t);
    CountZero(s.ts, IsInside, t);
    LeaveShape(s, d, t, d.ts[t]);
    assert forall e :: OnShared(s, e) ==> OnShared(d, e);
    MovedKept(s, d, t, d.ts[t], s.helperCount == 1);
    KeptColored(s, d);
  }

  lemma ExitKeeps(s: P, t: nat)
    requires Inv(s) && t < |s.ts| && s.ts[t].pc.ExitTest?
    ensures Inv(ExitStep(s, t))
  {
    if MayExit(s) { LeaveKeeps(s, t); }
    else {
      ShapeBasic(s, t);
      PlainInv(s, ExitStep(s, t), t, ExitStep(s, t).ts[t], false);
    }
  }

  lemma LeftKeeps(s: P, t: nat, c: Choice)
    requires Inv(s) && t < |s.ts| && s.ts[t].pc.Left?
    ensures Inv(Step(s, t, c))
  {
    var d := Step(s, t, c);
    NoWorkKept(s, d, t, d.ts[t], false);
    ShapeKept(s, d, t, d.ts[t], false);
    assert forall e :: OnShared(s, e) ==> OnShared(d, e);
    MovedKept(s, d, t, d.ts[t], false);
    KeptColored(s, d);
  }

  /** The abort in GC_do_parallel_mark is never reached. */
  lemma NeverBadStart(s: P)
    requires Shape(s) && s.ts[0].pc.Rest?
    ensures !BadStart(s)
  {
    CountNonNegative(s);
  }

  lemma StartThreads(s: P, d: P, th: Thread)
    requires Shape(s) && s.helperCount == 0 && d.ts == Moved(s, 0, th, true)
    requires ThreadOk(d.stack, th)
    ensures forall u :: 0 <= u < |d.ts| ==> ThreadOk(d.stack, d.ts[u])
  {
    forall u | 0 <= u < |d.ts| ensures ThreadOk(d.stack, d.ts[u]) {
      if u != 0 {
        if Inside(s.ts[u].pc) { CountZero(s.ts, IsInside, u); }
        assert d.ts[u] == Woken(s.ts[u]);
      }
    }
  }

  lemma StartCounts(s: P, d: P)
    requires Shape(s) && s.ts[0].pc.Rest? && d.ts == Moved(s, 0, s.ts[0].(pc := Enter), true)
    requires d.helperCount == 1 && d.activeCount == 0
    ensures Counts(d)
  {
    NeverBadStart(s);
    Counted(s, 0, s.ts[0].(pc := Enter), true);
  }

  lemma StartShape(s: P, c: Choice)
    requires Inv(s) && s.ts[0].pc.Rest? && GoodStart(s, c)
    ensures Shape(StartStep(s, c))
  {
    var d := StartStep(s, c);
    StartCounts(s, d);
    StartThreads(s, d, d.ts[0]);
  }

  lemma StartKeeps(s: P, c: Choice)
    requires Inv(s) && s.ts[0].pc.Rest? && GoodStart(s, c)
    ensures Inv(StartStep(s, c))
  {
    var d := StartStep(s, c);
    StartShape(s, c);
    forall o, j | o in d.marks && 0 <= j < |Targets(d.mem, o)| && Targets(d.mem, o)[j] !in d.marks
      ensures Pending(d, o, j)
    {
      var e :| e in c.stack && e.o == o && e.lo <= j;
      var k :| 0 <= k < |c.stack| && c.stack[k] == e;
      assert d.stack[k] == Slot(false, e);
      assert OnShared(d, e);
    }
  }

  /** Every step of every thread keeps the invariant. */
  lemma StepKeeps(s: P, t: nat, c: Choice)
    requires Inv(s) && t < |s.ts| && Enabled(s, t)
    ensures Inv(Step(s, t, c))
  {
    match s.ts[t].pc
    case Rest => if t == 0 && GoodStart(s, c) { StartKeeps(s, c); }
    case Compare(_) => CompareKeeps(s, t);
    case ExitTest => ExitKeeps(s, t);
    case Steal(_, _, _, _) => StealKeeps(s, t);
    case Zero(_, _, _, _, _) => ZeroKeeps(s, t, c.weight);
    case Mark => MarkKeeps(s, t, c);
    case WantReturn(_) => ReturnKeeps(s, t);
    case Left => LeftKeeps(s, t, c);
    case Recheck => NotifyingKeeps(s, t, c);
    case Broadcast => NotifyingKeeps(s, t, c);
    case _ => PlainKeeps(s, t, c);
  }
}
