/** The parallel marker of gc/mark.c as an interleaving transition system.

    Thread 0 is the one that runs GC_do_parallel_mark; the others are marker threads looping over
    GC_help_marker.  Every access to shared memory that is not protected by the mark lock is a step of its
    own: in particular GC_steal_mark_stack reads a descriptor in one step and zeroes it in another, so an
    entry can be stolen twice, and the compare-and-swap of GC_first_nonempty may fail.
 */
module ParallelMarkModel {

  /** A range still to be scanned: the pointers of object `o` from position `lo` on. */
  datatype Entry = Entry(o: nat, lo: nat)

  /** A slot of the shared mark stack; stealing zeroes its descriptor. */
  datatype Slot = Slot(taken: bool, e: Entry)

  /** Where a thread is.  Points marked (L) are inside a critical section of the mark lock. */
  datatype Pc =
    | Rest                                     // thread 0, no parallel mark wanted
    | HelpTest                                 // (L) the loop test of GC_help_marker
    | HelpWait(notified: bool)                 // in GC_wait_marker there
    | Enter                                    // (L) the start of GC_mark_local
    | LoopTop                                  // about to load GC_first_nonempty
    | Compare(gfn: nat)                        // global_first_nonempty has been loaded
    | ReadTop                                  // about to load GC_mark_stack_top
    | WantLock                                 // the stack looked empty
    | Recheck                                  // (L) looks at the stack again
    | IdleTest                                 // (L) inactive; test of the waiting loop
    | IdleWait(notified: bool)                 // in GC_wait_marker there
    | ExitTest                                 // (L) may this helper leave?
    | Steal(p: nat, n: nat, i: nat, max: nat)  // loop test of GC_steal_mark_stack, at slot p of n
    | Zero(p: nat, n: nat, i: nat, max: nat, e: Entry)  // a nonzero descriptor was read at slot p
    | Mark                                     // GC_do_local_mark
    | WantReturn(part: seq<Entry>)             // GC_return_mark_stack, before acquiring the lock
    | Broadcast                                // ..., after releasing it
    | Left                                     // (L) thread 0 is back from GC_mark_local
    | LeftTest                                 // (L) is some helper still inside?
    | StarterWait(notified: bool)              // in GC_wait_marker there
    | Finished                                 // GC_mark_no has been incremented and the lock released

  /** A thread: its my_first_nonempty, its local mark stack, and the mark number it wants to help with. */
  datatype Thread = Thread(pc: Pc, myFn: nat, local: seq<Entry>, no: nat)

  /** The shared state.  `fn` is GC_first_nonempty as an index into the shared stack, whose top is its
      length; `invalid` is GC_mark_state == MS_INVALID; `exited` records that some thread has left
      GC_mark_local in the present cycle. */
  datatype P = P(mem: map<nat, seq<nat>>, marks: set<nat>, stack: seq<Slot>, cap: nat, localCap: nat,
                 discards: nat, fn: nat, invalid: bool, helpWanted: bool, helperCount: int, activeCount: int,
                 markNo: nat, markersM1: nat, ts: seq<Thread>, exited: bool)

  const ENTRIES_TO_GET: nat := 5

  function Targets(mem: map<nat, seq<nat>>, o: nat): seq<nat> { if o in mem then mem[o] else [] }

  predicate HoldsLock(pc: Pc) {
    || pc.HelpTest? || pc.Enter? || pc.Recheck? || pc.IdleTest? || pc.ExitTest? || pc.Left? || pc.LeftTest?
  }

  predicate LockFree(s: P) { forall t :: 0 <= t < |s.ts| ==> !HoldsLock(s.ts[t].pc) }

  /** Between the increment and the decrement of GC_active_count. */
  predicate Active(pc: Pc) {
    || pc.LoopTop? || pc.Compare? || pc.ReadTop? || pc.WantLock? || pc.Recheck?
    || pc.Steal? || pc.Zero? || pc.Mark? || pc.WantReturn? || pc.Broadcast?
  }

  /** Between the increment and the decrement of GC_helper_count. */
  predicate Inside(pc: Pc) {
    Active(pc) || pc.Enter? || pc.IdleTest? || pc.IdleWait? || pc.ExitTest?
  }

  /** GC_notify_all_marker */
  function Woken(th: Thread): Thread {
    match th.pc
    case HelpWait(_) => th.(pc := HelpWait(true))
    case IdleWait(_) => th.(pc := IdleWait(true))
    case StarterWait(_) => th.(pc := StarterWait(true))
    case _ => th
  }

  function NotifyAll(ts: seq<Thread>): (r: seq<Thread>)
  {
    seq(|ts|, i requires 0 <= i < |ts| => Woken(ts[i]))
  }

  function Set(s: P, t: nat, th: Thread): P
    requires t < |s.ts|
  {
    s.(ts := s.ts[t := th])
  }

  function Goto(s: P, t: nat, pc: Pc): P
    requires t < |s.ts|
  {
    Set(s, t, s.ts[t].(pc := pc))
  }

  function GotoNotify(s: P, t: nat, pc: Pc): P
    requires t < |s.ts|
  {
    s.(ts := NotifyAll(s.ts)[t := s.ts[t].(pc := pc)])
  }

  /** How many entries to steal, given how many seem to be there. */
  function ToGet(n: nat): nat { if n < 2 * ENTRIES_TO_GET then 1 else ENTRIES_TO_GET }

  /** The choices the environment makes for a step: how large a stolen object counts, whether a race makes
      a thread push an object that is already marked, what GC_do_local_mark does next, and the contents of
      memory, marks and stack when a new parallel mark is started. */
  datatype Choice = Choice(weight: nat, race: bool, move: MarkMove, mem: map<nat, seq<nat>>, marks: set<nat>,
                           stack: seq<Entry>)
  datatype MarkMove = ScanOne | GiveBack | Share

  // -------------------------------------------------------------------- local marking

  /** One pointer of the top local entry is considered.  A full local stack overflows. */
  function ScanLocal(s: P, t: nat, race: bool): P
    requires t < |s.ts| && s.ts[t].local != []
  {
    var th := s.ts[t];
    var k := |th.local| - 1;
    var e := th.local[k];
    var targets := Targets(s.mem, e.o);
    if |targets| <= e.lo then Set(s, t, th.(local := th.local[..k]))
    else
      var q := targets[e.lo];
      var rest := th.local[..k] + [Entry(e.o, e.lo + 1)];
      if q in s.marks && !race then Set(s, t, th.(local := rest))
      else
        var s' := s.(marks := s.marks + {q});
        if |rest| < s.localCap then Set(s', t, th.(local := rest + [Entry(q, 0)]))
        else
          var keep: nat := if s.discards <= |rest| then |rest| - s.discards else 0;
          Set(s'.(invalid := true), t, th.(local := rest[..keep] + [Entry(q, 0)]))
  }

  /** What GC_do_local_mark can do with a nonempty local stack. */
  function LocalStep(s: P, t: nat, c: Choice): P
    requires t < |s.ts| && s.ts[t].local != []
  {
    var th := s.ts[t];
    var n := |th.local|;
    if c.move == GiveBack && n > s.localCap / 2 then
      Set(s, t, th.(pc := WantReturn(th.local), local := []))
    else if c.move == Share && n > 2 then
      Set(s, t, th.(pc := WantReturn(th.local[..(n - 1) / 2]), local := th.local[(n - 1) / 2..]))
    else ScanLocal(s, t, c.race)
  }

  function Slots(es: seq<Entry>): seq<Slot> { seq(|es|, i requires 0 <= i < |es| => Slot(false, es[i])) }

  /** GC_return_mark_stack inside the lock: append, or drop and declare the mark state invalid. */
  function ReturnStack(s: P, t: nat): P
    requires t < |s.ts| && s.ts[t].pc.WantReturn?
  {
    var part := s.ts[t].pc.part;
    if |s.stack| + |part| > s.cap then Goto(s.(invalid := true), t, Broadcast)
    else Goto(s.(stack := s.stack + Slots(part)), t, Broadcast)
  }

  // ----------------------------------------------------------------- GC_mark_local

  function CompareStep(s: P, t: nat): P
    requires t < |s.ts| && s.ts[t].pc.Compare?
  {
    var th := s.ts[t];
    var g := th.pc.gfn;
    if th.myFn < g then Set(s, t, th.(pc := ReadTop, myFn := g))
    else if g < th.myFn && s.fn == g then Goto(s.(fn := th.myFn), t, ReadTop)
    else Goto(s, t, ReadTop)
  }

  function StartSteal(s: P, t: nat): P
    requires t < |s.ts| && s.ts[t].myFn < |s.stack|
  {
    var th := s.ts[t];
    Goto(s, t, Steal(th.myFn, |s.stack|, 0, ToGet(|s.stack| - th.myFn)))
  }

  function RecheckStep(s: P, t: nat): P
    requires t < |s.ts|
  {
    var th := s.ts[t];
    if |s.stack| <= th.myFn then
      var s' := s.(activeCount := s.activeCount - 1);
      if s'.activeCount == 0 then GotoNotify(s', t, IdleTest) else Goto(s', t, IdleTest)
    else StartSteal(s, t)
  }

  function EnterStep(s: P, t: nat): P
    requires t < |s.ts|
  {
    Set(s.(activeCount := s.activeCount + 1), t, s.ts[t].(pc := LoopTop, myFn := s.fn))
  }

  function ReadTopStep(s: P, t: nat): P
    requires t < |s.ts|
  {
    if |s.stack| <= s.ts[t].myFn then Goto(s, t, WantLock) else StartSteal(s, t)
  }

  function IdleTestStep(s: P, t: nat): P
    requires t < |s.ts|
  {
    if s.activeCount > 0 && s.fn >= |s.stack| then Goto(s, t, IdleWait(false)) else Goto(s, t, ExitTest)
  }

  /** Nothing is left on the shared stack, and nobody is active. */
  predicate MayExit(s: P) { s.activeCount == 0 && s.fn >= |s.stack| }

  function ExitStep(s: P, t: nat): P
    requires t < |s.ts|
  {
    var th := s.ts[t];
    if MayExit(s) then
      var s' := s.(helperCount := s.helperCount - 1, exited := true,
                   ts := if s.helperCount == 1 then NotifyAll(s.ts) else s.ts);
      Set(s', t, if t == 0 then th.(pc := Left) else th.(pc := HelpTest, no := th.no + 1))
    else Goto(s.(activeCount := s.activeCount + 1), t, LoopTop)
  }

  function StealStep(s: P, t: nat): P
    requires t < |s.ts| && s.ts[t].pc.Steal?
  {
    var th := s.ts[t];
    var pc := th.pc;
    if pc.p < pc.n && pc.p < |s.stack| && pc.i <= pc.max then
      if s.stack[pc.p].taken then Goto(s, t, Steal(pc.p + 1, pc.n, pc.i, pc.max))
      else Goto(s, t, Zero(pc.p, pc.n, pc.i, pc.max, s.stack[pc.p].e))
    else Set(s, t, th.(pc := Mark, myFn := pc.p))
  }

  /** The descriptor is zeroed and the entry copied; a big object counts as several. */
  function ZeroStep(s: P, t: nat, weight: nat): P
    requires t < |s.ts| && s.ts[t].pc.Zero? && s.ts[t].pc.p < |s.stack|
  {
    var th := s.ts[t];
    var pc := th.pc;
    Set(s.(stack := s.stack[pc.p := s.stack[pc.p].(taken := true)]), t,
        th.(pc := Steal(pc.p + 1, pc.n, pc.i + 1 + weight, pc.max), local := th.local + [pc.e]))
  }

  // ------------------------------------------- GC_do_parallel_mark and GC_help_marker

  /** The test on which GC_do_parallel_mark aborts. */
  predicate BadStart(s: P) { s.helpWanted || s.activeCount != 0 || s.helperCount != 0 }

  /** A new cycle is started, with whatever the sequential marker has put on the stack. */
  function StartStep(s: P, c: Choice): P
    requires 0 < |s.ts|
  {
    var s' := s.(mem := c.mem, marks := c.marks, stack := Slots(c.stack), invalid := false, exited := false,
                 fn := 0, activeCount := 0, helperCount := 1, helpWanted := true);
    GotoNotify(s', 0, Enter)
  }

  function LeftTestStep(s: P, t: nat): P
    requires t < |s.ts|
  {
    if s.helperCount > 0 then Goto(s, t, StarterWait(false))
    else Goto(s.(markNo := s.markNo + 1), t, Finished)
  }

  function HelpStep(s: P, t: nat): P
    requires t < |s.ts|
  {
    var th := s.ts[t];
    if s.markNo < th.no || (!s.helpWanted && s.markNo == th.no) then Goto(s, t, HelpWait(false))
    else if s.markNo != th.no || s.helperCount > s.markersM1 then
      Set(s, t, th.(no := if th.no + 1 < s.markNo then s.markNo else th.no + 1))
    else Goto(s.(helperCount := s.helperCount + 1), t, Enter)
  }

  // --------------------------------------------------------------------------- steps

  /** Can thread t take a step?  A waiting thread has to be notified first, and what needs the mark lock
      needs it free; thread 0 starts a cycle when it likes. */
  predicate Enabled(s: P, t: nat)
    requires t < |s.ts|
  {
    match s.ts[t].pc
    case Rest => LockFree(s)
    case HelpWait(n) => n && LockFree(s)
    case IdleWait(n) => n && LockFree(s)
    case StarterWait(n) => n && LockFree(s)
    case WantLock => LockFree(s)
    case WantReturn(_) => LockFree(s)
    case _ => true
  }

  /** The new marks and the new stack a cycle may start with: the stack accounts for all that is marked
      but not yet scanned. */
  predicate GoodStart(s: P, c: Choice) {
    && |c.stack| <= s.cap
    && forall o :: o in c.marks ==>
         forall j :: 0 <= j < |Targets(c.mem, o)| ==>
           Targets(c.mem, o)[j] in c.marks || exists e :: e in c.stack && e.o == o && e.lo <= j
  }

  function Step(s: P, t: nat, c: Choice): P
    requires t < |s.ts|
  {
    var th := s.ts[t];
    match th.pc
    case Rest => if t == 0 && GoodStart(s, c) then StartStep(s, c) else s
    case HelpTest => HelpStep(s, t)
    case HelpWait(_) => Goto(s, t, HelpTest)
    case Enter => EnterStep(s, t)
    case LoopTop => Goto(s, t, Compare(s.fn))
    case Compare(_) => CompareStep(s, t)
    case ReadTop => ReadTopStep(s, t)
    case WantLock => Goto(s, t, Recheck)
    case Recheck => RecheckStep(s, t)
    case IdleTest => IdleTestStep(s, t)
    case IdleWait(_) => Goto(s, t, IdleTest)
    case ExitTest => ExitStep(s, t)
    case Steal(_, _, _, _) => StealStep(s, t)
    case Zero(p, _, _, _, _) => if p < |s.stack| then ZeroStep(s, t, c.weight) else s
    case Mark => if th.local == [] then Goto(s, t, LoopTop) else LocalStep(s, t, c)
    case WantReturn(_) => ReturnStack(s, t)
    case Broadcast => GotoNotify(s, t, Mark)
    case Left => Goto(s.(helpWanted := false), t, LeftTest)
    case LeftTest => LeftTestStep(s, t)
    case StarterWait(_) => Goto(s, t, LeftTest)
    case Finished => GotoNotify(s, t, Rest)
  }

  /** A wait may also end without a notification. */
  function Spurious(s: P, t: nat): P
    requires t < |s.ts|
  {
    Set(s, t, Woken(s.ts[t]))
  }

  ghost predicate Next(s: P, d: P) {
    exists t: nat :: t < |s.ts| && (d == Spurious(s, t) || (Enabled(s, t) && exists c :: d == Step(s, t, c)))
  }

  predicate Init(s: P) {
    && 0 < |s.ts| && 0 < s.discards <= s.localCap
    && s.stack == [] && s.marks == {} && s.fn == 0 && !s.helpWanted && s.helperCount == 0 && s.activeCount == 0 && s.exited
    && s.ts[0] == Thread(Rest, 0, [], 0)
    && forall t :: 0 < t < |s.ts| ==> s.ts[t] == Thread(HelpWait(true), 0, [], 0)
  }
}
