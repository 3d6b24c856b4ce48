/** Parallel marking ends.  A measure drops with every step of every thread until GC_do_parallel_mark is done; so in
    every fair run without spurious wake-ups the starter gets there. */
module ParallelMarkEnd {
  import opened ParallelMarkModel
  import opened ParallelMarkProofs
  import opened ParallelMarkTheorems
  import opened ParallelMarkLock

  // ------------------------------------------------------------------ what progress relies on

  /** A value of GC_first_nonempty that has been loaded is not ahead of it; looking for entries to steal passes over at
      least one slot; and nothing is only given back if there is something to give. */
  predicate SaneThread(fn: nat, th: Thread) {
    match th.pc
    case Compare(g) => g <= fn
    case Steal(p, n, i, max) => th.myFn <= p && (p == th.myFn ==> p < n && i <= max)
    case Zero(p, _, _, _, _) => th.myFn <= p
    case WantReturn(part) => part != []
    case _ => true
  }

  predicate Sane(s: P) {
    |s.stack| <= s.cap && forall t :: 0 <= t < |s.ts| ==> SaneThread(s.fn, s.ts[t])
  }

  /** What a step of thread t has to do for that. */
  predicate SaneMove(s: P, d: P, t: nat) {
    && t < |d.ts| && SaneThread(d.fn, d.ts[t]) && |d.stack| <= d.cap
    && (s.fn <= d.fn || s.helperCount == 0)
  }

  lemma WokenSane(a: nat, b: nat, th: Thread)
    requires SaneThread(a, th) && (a <= b || !Inside(th.pc))
    ensures SaneThread(b, th) && SaneThread(b, Woken(th))
  {}

  lemma SaneMoves(s: P, d: P, t: nat)
    requires Shape(s) && Sane(s) && t < |s.ts| && OthersWait(s, d, t) && SaneMove(s, d, t)
    ensures Sane(d)
  {
    hide Shape, SaneThread, Woken;
    if s.helperCount == 0 { NobodyInside(s); }
    forall u | 0 <= u < |d.ts| ensures SaneThread(d.fn, d.ts[u]) {
      if u != t { WokenSane(s.fn, d.fn, s.ts[u]); }
    }
  }

  /** A thread moves to a place of which nothing is asked. */
  lemma SanePlain(s: P, d: P, t: nat, th: Thread, notify: bool)
    requires Sane(s) && t < |s.ts| && d.ts == Moved(s, t, th, notify) && d.fn == s.fn && d.stack == s.stack && d.cap == s.cap
    requires SaneThread(s.fn, th)
    ensures SaneMove(s, d, t)
  {
    hide SaneThread;
  }

  lemma SaneHelp(s: P, d: P, t: nat)
    requires Sane(s) && t < |s.ts| && s.ts[t].pc.HelpTest? && d == HelpStep(s, t)
    ensures SaneMove(s, d, t)
  {
    hide Sane, SaneMove;
    SanePlain(s, d, t, d.ts[t], false);
  }

  lemma SaneLeftTest(s: P, d: P, t: nat)
    requires Sane(s) && t < |s.ts| && d == LeftTestStep(s, t)
    ensures SaneMove(s, d, t)
  {
    hide Sane, SaneMove;
    SanePlain(s, d, t, d.ts[t], false);
  }

  lemma SaneEnter(s: P, d: P, t: nat)
    requires Sane(s) && t < |s.ts| && d == EnterStep(s, t)
    ensures SaneMove(s, d, t)
  {
    hide Sane, SaneMove;
    SanePlain(s, d, t, d.ts[t], false);
  }

  lemma SaneOutside(s: P, d: P, t: nat, c: Choice)
    requires Sane(s) && t < |s.ts| && OutsidePc(s.ts[t].pc) && d == Step(s, t, c)
    ensures SaneMove(s, d, t)
  {
    hide Sane, SaneMove, HelpStep, LeftTestStep, EnterStep;
    match s.ts[t].pc
    case HelpTest => SaneHelp(s, d, t);
    case HelpWait(_) => SaneGoto(s, d, t, HelpTest, false);
    case Enter => SaneEnter(s, d, t);
    case LeftTest => SaneLeftTest(s, d, t);
    case StarterWait(_) => SaneGoto(s, d, t, LeftTest, false);
    case Finished => SaneGoto(s, d, t, Rest, true);
  }

  lemma SaneReadTop(s: P, d: P, t: nat)
    requires Sane(s) && t < |s.ts| && d == ReadTopStep(s, t)
    ensures SaneMove(s, d, t)
  {
    hide Sane, SaneMove;
    SanePlain(s, d, t, d.ts[t], false);
  }

  lemma SaneIdleTest(s: P, d: P, t: nat)
    requires Sane(s) && t < |s.ts| && d == IdleTestStep(s, t)
    ensures SaneMove(s, d, t)
  {
    hide Sane, SaneMove;
    SanePlain(s, d, t, d.ts[t], false);
  }

  lemma SaneLoop(s: P, d: P, t: nat, c: Choice)
    requires Sane(s) && t < |s.ts| && LoopPc(s.ts[t].pc) && d == Step(s, t, c)
    ensures SaneMove(s, d, t)
  {
    hide Sane, SaneMove, ReadTopStep, IdleTestStep;
    match s.ts[t].pc
    case LoopTop => SaneGoto(s, d, t, Compare(s.fn), false);
    case WantLock => SaneGoto(s, d, t, Recheck, false);
    case IdleWait(_) => SaneGoto(s, d, t, IdleTest, false);
    case ReadTop => SaneReadTop(s, d, t);
    case IdleTest => SaneIdleTest(s, d, t);
  }

  lemma SaneLocal(s: P, d: P, t: nat, c: Choice)
    requires Sane(s) && t < |s.ts| && s.ts[t].pc.Mark? && s.ts[t].local != [] && d == LocalStep(s, t, c)
    ensures SaneMove(s, d, t)
  {
    hide ScanLocal, LocalAdvanced;
    ScanLocalOn(s, t, c.race);
  }

  lemma SaneSteal(s: P, d: P, t: nat)
    requires Sane(s) && t < |s.ts| && s.ts[t].pc.Steal? && d == StealStep(s, t)
    ensures SaneMove(s, d, t)
  {
    assert SaneThread(s.fn, s.ts[t]);
  }

  lemma SaneZero(s: P, d: P, t: nat, weight: nat)
    requires Sane(s) && t < |s.ts| && s.ts[t].pc.Zero? && s.ts[t].pc.p < |s.stack| && d == ZeroStep(s, t, weight)
    ensures SaneMove(s, d, t)
  {
    assert SaneThread(s.fn, s.ts[t]);
  }

  lemma SaneReturn(s: P, d: P, t: nat)
    requires Sane(s) && t < |s.ts| && s.ts[t].pc.WantReturn? && d == ReturnStack(s, t)
    ensures SaneMove(s, d, t)
  {}

  lemma SaneExit(s: P, d: P, t: nat)
    requires Sane(s) && t < |s.ts| && s.ts[t].pc.ExitTest? && d == ExitStep(s, t)
    ensures SaneMove(s, d, t)
  {}

  lemma SaneRecheck(s: P, d: P, t: nat)
    requires Sane(s) && t < |s.ts| && s.ts[t].pc.Recheck? && d == RecheckStep(s, t)
    ensures SaneMove(s, d, t)
  {}

  lemma SaneCompare(s: P, d: P, t: nat)
    requires Sane(s) && t < |s.ts| && s.ts[t].pc.Compare? && d == CompareStep(s, t)
    ensures SaneMove(s, d, t)
  {}

  lemma SaneStart(s: P, d: P, t: nat, c: Choice)
    requires Shape(s) && t == 0 < |s.ts| && s.ts[t].pc.Rest? && GoodStart(s, c) && d == StartStep(s, c)
    ensures SaneMove(s, d, t)
  {}

  lemma SaneWork(s: P, d: P, t: nat, c: Choice)
    requires Shape(s) && Sane(s) && t < |s.ts| && d == Step(s, t, c) && d != s && !OutsidePc(s.ts[t].pc) && !LoopPc(s.ts[t].pc)
    ensures SaneMove(s, d, t)
  {
    hide Shape, Sane, SaneMove, ExitStep, LocalStep, StealStep, ReturnStack, RecheckStep, CompareStep, ZeroStep, StartStep, GoodStart;
    OnlyStarter(s, t);
    match s.ts[t].pc
    case Rest => SaneStart(s, d, t, c);
    case Compare(_) => SaneCompare(s, d, t);
    case ExitTest => SaneExit(s, d, t);
    case Steal(_, _, _, _) => SaneSteal(s, d, t);
    case Zero(_, _, _, _, _) => SaneZero(s, d, t, c.weight);
    case Mark => if s.ts[t].local == [] { SaneGoto(s, d, t, LoopTop, false); } else { SaneLocal(s, d, t, c); }
    case WantReturn(_) => SaneReturn(s, d, t);
    case Recheck => SaneRecheck(s, d, t);
    case Left => SaneLeft(s, d, t);
    case Broadcast => SaneGoto(s, d, t, Mark, true);
  }

  lemma SaneGoto(s: P, d: P, t: nat, pc: Pc, notify: bool)
    requires Sane(s) && t < |s.ts| && d == (if notify then GotoNotify(s, t, pc) else Goto(s, t, pc))
    requires !pc.Steal? && !pc.Zero? && !pc.WantReturn? && (pc.Compare? ==> pc.gfn <= s.fn)
    ensures SaneMove(s, d, t)
  {
    hide Sane, SaneMove;
    SanePlain(s, d, t, d.ts[t], notify);
  }

  lemma SaneLeft(s: P, d: P, t: nat)
    requires Sane(s) && t < |s.ts| && d == Goto(s.(helpWanted := false), t, LeftTest)
    ensures SaneMove(s, d, t)
  {}

  lemma SaneStep(s: P, d: P)
    requires Inv(s) && Sane(s) && Next(s, d)
    ensures Sane(d)
  {
    hide Shape, Colored, Sane, Step, Enabled, Spurious, Advances, OthersWait, OutsidePc, LoopPc, SaneMove;
    var t: nat :| t < |s.ts| && (d == Spurious(s, t) || (Enabled(s, t) && exists c :: d == Step(s, t, c)));
    if d != s {
      if d == Spurious(s, t) {
        SaneSpurious(s, t);
      } else {
        var c :| d == Step(s, t, c);
        StepMoves(s, d, t, c);
        if OutsidePc(s.ts[t].pc) { SaneOutside(s, d, t, c); }
        else if LoopPc(s.ts[t].pc) { SaneLoop(s, d, t, c); }
        else { SaneWork(s, d, t, c); }
        SaneMoves(s, d, t);
      }
    }
  }

  lemma SaneSpurious(s: P, t: nat)
    requires Sane(s) && t < |s.ts|
    ensures Sane(Spurious(s, t))
  {
    WokenSane(s.fn, s.fn, s.ts[t]);
  }

  /** All that a state in a run is known to satisfy. */
  ghost predicate Sound(s: P) { Inv(s) && Locked(s) && Sane(s) }

  lemma SoundStep(s: P, d: P)
    requires Sound(s) && Next(s, d)
    ensures Sound(d)
  {
    hide Inv, Locked, Sane, Next;
    NextKeeps(s, d);
    LockedStep(s, d);
    SaneStep(s, d);
  }

  lemma InitSound(s: P)
    requires Init(s)
    ensures Sound(s)
  {
    hide Inv, Locked;
    InitInv(s);
    InitLocked(s);
  }

  lemma {:induction false} RunSound(run: seq<P>, i: nat)
    requires IsRun(run) && i < |run|
    ensures Sound(run[i])
  {
    hide Sound, Init, Next;
    if i == 0 { InitSound(run[0]); }
    else {
      RunSound(run, i - 1);
      assert Next(run[i - 1], run[i - 1 + 1]);
      SoundStep(run[i - 1], run[i]);
    }
  }

  // ------------------------------------------------------------------------------- sums

  function Sum(a: seq<nat>): nat { if a == [] then 0 else a[0] + Sum(a[1..]) }

  lemma {:induction false} SumChange(a: seq<nat>, b: seq<nat>, t: nat)
    requires |a| == |b| && t < |a| && forall u :: 0 <= u < |a| && u != t ==> a[u] == b[u]
    ensures Sum(b) + a[t] == Sum(a) + b[t]
    decreases |a|
  {
    if t == 0 { assert a[1..] == b[1..]; } else { SumChange(a[1..], b[1..], t - 1); }
  }

  // ------------------------------------------------------------------------- the measure

  /** The place on the shared stack that a thread has got to. */
  function Position(th: Thread): nat {
    match th.pc
    case Steal(p, _, _, _) => p
    case Zero(p, _, _, _, _) => p
    case _ => th.myFn
  }

  /** How much of the cycle a thread still has before it: coming in, the slots of the shared stack, and leaving. */
  function Road(th: Thread, cap: nat, markNo: nat): nat {
    if th.pc.HelpTest? || th.pc.HelpWait? then if th.no <= markNo then cap + 3 else 0
    else if th.pc.Enter? then cap + 2
    else if Inside(th.pc) then (if Position(th) <= cap then cap - Position(th) else 0) + 1
    else 0
  }

  /** The words to be looked at for some entries, and one more for each. */
  function Work(mem: map<nat, seq<nat>>, es: seq<Entry>): nat {
    if es == [] then 0
    else
      var e := es[|es| - 1];
      var n := |Targets(mem, e.o)|;
      Work(mem, es[..|es| - 1]) + 1 + if e.lo <= n then n - e.lo else 0
  }

  function Load(th: Thread, mem: map<nat, seq<nat>>): nat {
    Work(mem, th.local) + if th.pc.WantReturn? then Work(mem, th.pc.part) else 0
  }

  /** Where in its loop a thread is.  It goes round without having found anything only if GC_first_nonempty is behind;
      then it has either been advanced by somebody else meanwhile, or is going to be advanced. */
  function Turn(th: Thread, fn: nat, top: nat, may: bool): nat {
    match th.pc
    case Steal(p, _, _, _) => if p == th.myFn then 2 else 20
    case Zero(p, _, _, _, _) => if p == th.myFn then 1 else 19
    case Broadcast => 18
    case Mark => 17
    case WantReturn(_) => 16
    case Compare(g) => if g == fn then 9 else 15
    case ReadTop => if fn < th.myFn then 14 else 8
    case WantLock => if fn < th.myFn then 13 else 7
    case Recheck => if fn < th.myFn then 12 else 6
    case IdleTest => if fn < top then 11 else 3
    case IdleWait(_) => if fn < top then 11 else 3
    case ExitTest => if !may then 11 else 3
    case LoopTop => 10
    case Left => 1
    case _ => 0
  }

  /** Waking up, testing, and waiting again. */
  function Stage(th: Thread, markNo: nat): nat {
    match th.pc
    case HelpWait(n) => 3 * Behind(th, markNo) + if n then 2 else 0
    case HelpTest => 3 * Behind(th, markNo) + 1
    case IdleWait(n) => if n then 3 else 0
    case IdleTest => 2
    case ExitTest => 1
    case StarterWait(n) => if n then 2 else 0
    case LeftTest => 1
    case _ => 0
  }

  /** How far the mark number a helper waits for is behind. */
  function Behind(th: Thread, markNo: nat): nat { if th.no <= markNo then markNo + 1 - th.no else 0 }

  function Phase(s: P): nat
    requires 0 < |s.ts|
  {
    if s.ts[0].pc.Rest? then 0 else if s.ts[0].pc.Finished? then 1 else 2
  }

  function Roads(s: P): seq<nat> { seq(|s.ts|, t requires 0 <= t < |s.ts| => Road(s.ts[t], s.cap, s.markNo)) }
  function Loads(s: P): seq<nat> { seq(|s.ts|, t requires 0 <= t < |s.ts| => Load(s.ts[t], s.mem)) }
  function Turns(s: P): seq<nat> { seq(|s.ts|, t requires 0 <= t < |s.ts| => Turn(s.ts[t], s.fn, |s.stack|, MayExit(s))) }
  function Stages(s: P): seq<nat> { seq(|s.ts|, t requires 0 <= t < |s.ts| => Stage(s.ts[t], s.markNo)) }

  /** All objects that pointers lead to. */
  function Pointed(mem: map<nat, seq<nat>>): set<nat> { set o, j | o in mem && 0 <= j < |mem[o]| :: mem[o][j] }

  /** The parallel marker with a record of who has pushed what in the cycle. */
  datatype Traced = Traced(p: P, pushed: set<(nat, nat)>)

  function Unpushed(e: Traced): set<(nat, nat)> {
    (set t: nat, q | t < |e.p.ts| && q in Pointed(e.p.mem) :: (t, q)) - e.pushed
  }

  datatype Measure = Measure(phase: nat, unpushed: set<(nat, nat)>, room: nat, roads: nat, behind: nat, work: nat,
                             turns: nat, stages: nat)

  function Minus(a: nat, b: nat): nat { if b <= a then a - b else 0 }

  function MeasureOf(e: Traced): Measure
    requires 0 < |e.p.ts|
  {
    var s := e.p;
    Measure(Phase(s), Unpushed(e), Minus(s.cap, |s.stack|), Sum(Roads(s)), Minus(s.cap, s.fn), Sum(Loads(s)),
            Sum(Turns(s)), Sum(Stages(s)))
  }

  predicate Below(m: Measure, n: Measure) {
    || m.phase < n.phase
    || (m.phase == n.phase && m.unpushed < n.unpushed)
    || (m.phase == n.phase && m.unpushed == n.unpushed && BelowSums(m, n))
  }

  predicate BelowSums(m: Measure, n: Measure) {
    || m.room < n.room
    || (m.room == n.room && m.roads < n.roads)
    || (m.room == n.room && m.roads == n.roads && m.behind < n.behind)
    || (m.room == n.room && m.roads == n.roads && m.behind == n.behind && m.work < n.work)
    || (m.room == n.room && m.roads == n.roads && m.behind == n.behind && m.work == n.work && m.turns < n.turns)
    || (m.room == n.room && m.roads == n.roads && m.behind == n.behind && m.work == n.work && m.turns == n.turns
        && m.stages < n.stages)
  }

  // ------------------------------------------------------------ what one thread contributes

  predicate SameSurroundings(s: P, d: P) {
    && d.cap == s.cap && d.markNo == s.markNo && d.fn == s.fn && |d.stack| == |s.stack| && d.mem == s.mem
  }

  lemma WokenRoad(th: Thread, cap: nat, markNo: nat)
    ensures Road(Woken(th), cap, markNo) == Road(th, cap, markNo)
  {}

  lemma WokenLoad(th: Thread, mem: map<nat, seq<nat>>)
    ensures Load(Woken(th), mem) == Load(th, mem)
  {}

  lemma WokenTurn(th: Thread, fn: nat, top: nat, may: bool)
    ensures Turn(Woken(th), fn, top, may) == Turn(th, fn, top, may)
  {}

  lemma RoadsChange(s: P, d: P, t: nat)
    requires t < |s.ts| && OthersWait(s, d, t) && d.cap == s.cap && d.markNo == s.markNo
    ensures Sum(Roads(d)) + Road(s.ts[t], s.cap, s.markNo) == Sum(Roads(s)) + Road(d.ts[t], s.cap, s.markNo)
  {
    hide Road, Woken, Sum;
    forall u: nat | u < |s.ts| && u != t ensures Roads(d)[u] == Roads(s)[u] { WokenRoad(s.ts[u], s.cap, s.markNo); }
    SumChange(Roads(s), Roads(d), t);
  }

  lemma LoadsChange(s: P, d: P, t: nat)
    requires t < |s.ts| && OthersWait(s, d, t) && d.mem == s.mem
    ensures Sum(Loads(d)) + Load(s.ts[t], s.mem) == Sum(Loads(s)) + Load(d.ts[t], s.mem)
  {
    hide Load, Woken, Sum;
    forall u: nat | u < |s.ts| && u != t ensures Loads(d)[u] == Loads(s)[u] { WokenLoad(s.ts[u], s.mem); }
    SumChange(Loads(s), Loads(d), t);
  }

  /** Nobody else is at the exit test while the counters change. */
  predicate NoneLeaving(s: P, t: nat) { forall u :: 0 <= u < |s.ts| && u != t ==> !s.ts[u].pc.ExitTest? }

  lemma TurnsChange(s: P, d: P, t: nat)
    requires t < |s.ts| && OthersWait(s, d, t) && d.fn == s.fn && |d.stack| == |s.stack|
    requires MayExit(d) == MayExit(s) || NoneLeaving(s, t)
    ensures Sum(Turns(d)) + Turn(s.ts[t], s.fn, |s.stack|, MayExit(s)) == Sum(Turns(s)) + Turn(d.ts[t], s.fn, |s.stack|, MayExit(d))
  {
    hide Turn, Woken, Sum, MayExit;
    forall u: nat | u < |s.ts| && u != t ensures Turns(d)[u] == Turns(s)[u] {
      WokenTurn(s.ts[u], s.fn, |s.stack|, MayExit(d));
      if MayExit(d) != MayExit(s) { NotAtExit(s.ts[u], s.fn, |s.stack|, MayExit(d), MayExit(s)); }
    }
    SumChange(Turns(s), Turns(d), t);
  }

  lemma NotAtExit(th: Thread, fn: nat, top: nat, a: bool, b: bool)
    requires !th.pc.ExitTest?
    ensures Turn(th, fn, top, a) == Turn(th, fn, top, b)
  {}

  predicate OthersStay(s: P, d: P, t: nat) {
    |d.ts| == |s.ts| && forall u :: 0 <= u < |s.ts| && u != t ==> d.ts[u] == s.ts[u]
  }

  lemma StagesChange(s: P, d: P, t: nat)
    requires t < |s.ts| && OthersStay(s, d, t) && d.markNo == s.markNo
    ensures Sum(Stages(d)) + Stage(s.ts[t], s.markNo) == Sum(Stages(s)) + Stage(d.ts[t], s.markNo)
  {
    hide Stage, Sum;
    SumChange(Stages(s), Stages(d), t);
  }

  // --------------------------------------------------------------- the effect of a step

  /** The thread gets on: its road, then its load, its turn, and its stage get less.  Others are woken up only if one of
      the first three does. */
  predicate Advanced(s: P, d: P, t: nat)
    requires t < |s.ts| && t < |d.ts|
  {
    var a, b := s.ts[t], d.ts[t];
    var r, r' := Road(a, s.cap, s.markNo), Road(b, s.cap, s.markNo);
    var l, l' := Load(a, s.mem), Load(b, s.mem);
    var n, n' := Turn(a, s.fn, |s.stack|, MayExit(s)), Turn(b, s.fn, |s.stack|, MayExit(d));
    || r' < r
    || (r' == r && l' < l)
    || (r' == r && l' == l && n' < n)
    || (r' == r && l' == l && n' == n && Stage(b, s.markNo) < Stage(a, s.markNo) && OthersStay(s, d, t))
  }

  /** One of the things that a step may achieve, the greatest first. */
  datatype Gain = Over | Pushed | Returned | Caught | Nearer

  ghost predicate Gains(s: P, d: P, t: nat, g: Gain)
    requires t < |s.ts| && t < |d.ts| && 0 < |s.ts|
  {
    && |d.ts| == |s.ts|
    && match g
       case Over => Phase(d) < Phase(s)
       case Pushed => d.mem == s.mem
       case Returned => d.mem == s.mem && d.cap == s.cap && |s.stack| < |d.stack| <= d.cap
       case Caught =>
         && d.mem == s.mem && d.cap == s.cap && |d.stack| == |s.stack| && d.markNo == s.markNo && s.fn < d.fn <= s.cap
         && Road(d.ts[t], s.cap, s.markNo) == Road(s.ts[t], s.cap, s.markNo)
       case Nearer => SameSurroundings(s, d) && (MayExit(d) == MayExit(s) || NoneLeaving(s, t)) && Advanced(s, d, t)
  }

  lemma MovedBelow(s: P, d: P, t: nat, m: Measure, n: Measure)
    requires t < |s.ts| && OthersWait(s, d, t) && Gains(s, d, t, Nearer)
    requires m.room == Minus(s.cap, |s.stack|) && n.room == Minus(d.cap, |d.stack|)
    requires m.roads == Sum(Roads(s)) && m.work == Sum(Loads(s)) && m.turns == Sum(Turns(s)) && m.stages == Sum(Stages(s))
    requires n.roads == Sum(Roads(d)) && n.work == Sum(Loads(d)) && n.turns == Sum(Turns(d)) && n.stages == Sum(Stages(d))
    requires m.behind == Minus(s.cap, s.fn) && n.behind == Minus(d.cap, d.fn)
    ensures BelowSums(n, m)
  {
    hide Road, Load, Turn, Stage, Sum, Roads, Loads, Turns, Stages, MayExit, OthersWait, NoneLeaving;
    RoadsChange(s, d, t);
    LoadsChange(s, d, t);
    TurnsChange(s, d, t);
    if OthersStay(s, d, t) { StagesChange(s, d, t); }
  }

  lemma CaughtBelow(s: P, d: P, t: nat, m: Measure, n: Measure)
    requires t < |s.ts| && OthersWait(s, d, t) && Gains(s, d, t, Caught)
    requires m.room == Minus(s.cap, |s.stack|) && n.room == Minus(d.cap, |d.stack|)
    requires m.roads == Sum(Roads(s)) && n.roads == Sum(Roads(d)) && m.behind == Minus(s.cap, s.fn) && n.behind == Minus(d.cap, d.fn)
    ensures BelowSums(n, m)
  {
    hide Road, Sum, Roads, OthersWait;
    RoadsChange(s, d, t);
  }

  /** Nothing else gets worse meanwhile. */
  lemma GainBelow(e: Traced, f: Traced, t: nat, g: Gain)
    requires t < |e.p.ts| == |f.p.ts| && OthersWait(e.p, f.p, t) && Gains(e.p, f.p, t, g)
    requires Phase(f.p) <= Phase(e.p) && (g.Over? || (f.p.mem == e.p.mem && e.pushed <= f.pushed))
    requires g.Pushed? ==> exists q :: q in Pointed(e.p.mem) && (t, q) !in e.pushed && (t, q) in f.pushed
    ensures 0 < |f.p.ts| && Below(MeasureOf(f), MeasureOf(e))
  {
    hide Gains, Road, Load, Turn, Stage, Sum, Roads, Loads, Turns, Stages, MayExit, OthersWait, Pointed, Phase;
    if Phase(f.p) == Phase(e.p) && !g.Over? {
      assert Unpushed(f) <= Unpushed(e);
      match g
      case Pushed =>
        var q :| q in Pointed(e.p.mem) && (t, q) !in e.pushed && (t, q) in f.pushed;
        assert (t, q) in Unpushed(e) && (t, q) !in Unpushed(f);
      case Returned => LessRoom(e.p, f.p, t);
      case Caught => CaughtBelow(e.p, f.p, t, MeasureOf(e), MeasureOf(f));
      case Nearer => MovedBelow(e.p, f.p, t, MeasureOf(e), MeasureOf(f));
    }
    if g.Over? { OverLess(e.p, f.p, t); }
  }

  lemma OverLess(s: P, d: P, t: nat)
    requires t < |s.ts| && t < |d.ts| && Gains(s, d, t, Over)
    ensures |d.ts| == |s.ts| && Phase(d) < Phase(s)
  {}

  lemma LessRoom(s: P, d: P, t: nat)
    requires t < |s.ts| && t < |d.ts| && Gains(s, d, t, Returned)
    ensures Minus(d.cap, |d.stack|) < Minus(s.cap, |s.stack|)
  {}

  // ------------------------------------------------------------------------ step by step

  /** What is known when thread t takes a step. */
  ghost predicate Going(s: P, d: P, t: nat) {
    Sound(s) && t < |s.ts| == |d.ts| && !s.ts[0].pc.Rest? && !s.ts[t].pc.Rest?
  }

  /** A mere change of place. */
  lemma TurnGain(s: P, d: P, t: nat)
    requires t < |s.ts| == |d.ts| && SameSurroundings(s, d) && (MayExit(d) == MayExit(s) || NoneLeaving(s, t))
    requires Position(d.ts[t]) == Position(s.ts[t]) && Inside(s.ts[t].pc) && Inside(d.ts[t].pc) && !s.ts[t].pc.Enter? && !d.ts[t].pc.Enter?
    requires Load(d.ts[t], s.mem) == Load(s.ts[t], s.mem)
    requires Turn(d.ts[t], s.fn, |s.stack|, MayExit(d)) < Turn(s.ts[t], s.fn, |s.stack|, MayExit(s))
    ensures Gains(s, d, t, Nearer)
  {
    hide Turn, Load, MayExit, NoneLeaving, Inside, Position;
    SameRoad(s.ts[t], d.ts[t], s.cap, s.markNo);
  }

  lemma SameRoad(a: Thread, b: Thread, cap: nat, markNo: nat)
    requires Position(a) == Position(b) && Inside(a.pc) && Inside(b.pc) && !a.pc.Enter? && !b.pc.Enter?
    ensures Road(a, cap, markNo) == Road(b, cap, markNo)
  {
    hide Position;
  }

  lemma NobodyElse(s: P, t: nat)
    requires Exclusive(s) && t < |s.ts| && HoldsLock(s.ts[t].pc)
    ensures NoneLeaving(s, t)
  {}

  lemma PlaceOk(s: P, t: nat)
    requires Sound(s) && t < |s.ts| && Inside(s.ts[t].pc) && !s.ts[t].pc.Enter?
    ensures Position(s.ts[t]) <= |s.stack| <= s.cap && s.fn <= |s.stack| && Exclusive(s) && SaneThread(s.fn, s.ts[t])
  {
    hide Colored, Exclusive, Numbered, Wanted, NoWork, Roles, Waits, Counts, SaneThread;
  }

  lemma LoopTopGains(s: P, d: P, t: nat)
    requires Going(s, d, t) && s.ts[t].pc.LoopTop? && d == Goto(s, t, Compare(s.fn))
    ensures Gains(s, d, t, Nearer)
  {
    hide Gains, Inv, Locked, Sane;
    TurnGain(s, d, t);
  }

  lemma CompareGains(s: P, d: P, t: nat) returns (g: Gain)
    requires Going(s, d, t) && s.ts[t].pc.Compare? && d == CompareStep(s, t)
    ensures Gains(s, d, t, g) && !g.Pushed? && d.mem == s.mem && d.ts[t].pc.ReadTop?
  {
    hide Gains, Sound, Load;
    GfnOk(s, t);
    LoadOf(s.ts[t], d.ts[t], s.mem);
    if s.ts[t].myFn < s.ts[t].pc.gfn {
      g := Nearer;
      RoadGain(s, d, t);
    } else if s.ts[t].pc.gfn < s.ts[t].myFn && s.fn == s.ts[t].pc.gfn {
      g := Caught;
      CaughtGain(s, d, t);
    } else {
      g := Nearer;
      TurnGain(s, d, t);
    }
  }

  lemma CaughtGain(s: P, d: P, t: nat)
    requires t < |s.ts| == |d.ts| && d == s.(fn := d.fn, ts := d.ts) && s.fn < d.fn <= s.cap
    requires Position(d.ts[t]) == Position(s.ts[t]) && Inside(s.ts[t].pc) && Inside(d.ts[t].pc) && !s.ts[t].pc.Enter? && !d.ts[t].pc.Enter?
    ensures Gains(s, d, t, Caught)
  {
    hide Inside, Position;
    SameRoad(s.ts[t], d.ts[t], s.cap, s.markNo);
  }

  lemma GfnOk(s: P, t: nat)
    requires Sound(s) && t < |s.ts| && s.ts[t].pc.Compare?
    ensures s.ts[t].pc.gfn <= s.fn <= |s.stack| <= s.cap && s.ts[t].myFn <= |s.stack|
  {
    hide Colored, Exclusive, Numbered, Wanted, NoWork, Roles, Waits, Counts;
    assert SaneThread(s.fn, s.ts[t]) && ThreadOk(s.stack, s.ts[t]);
  }

  lemma LoadOf(a: Thread, b: Thread, mem: map<nat, seq<nat>>)
    requires b.local == a.local && !a.pc.WantReturn? && !b.pc.WantReturn?
    ensures Load(a, mem) == Load(b, mem)
  {}

  lemma ReadTopGains(s: P, d: P, t: nat)
    requires Going(s, d, t) && s.ts[t].pc.ReadTop? && d == ReadTopStep(s, t)
    ensures Gains(s, d, t, Nearer)
  {
    hide Gains, Inv, Locked, Sane, Load;
    LoadOf(s.ts[t], d.ts[t], s.mem);
    TurnGain(s, d, t);
  }

  lemma WantLockGains(s: P, d: P, t: nat)
    requires Going(s, d, t) && s.ts[t].pc.WantLock? && d == Goto(s, t, Recheck)
    ensures Gains(s, d, t, Nearer)
  {
    hide Gains, Inv, Locked, Sane, Load;
    LoadOf(s.ts[t], d.ts[t], s.mem);
    TurnGain(s, d, t);
  }

  lemma RecheckGains(s: P, d: P, t: nat)
    requires Going(s, d, t) && s.ts[t].pc.Recheck? && d == RecheckStep(s, t)
    ensures Gains(s, d, t, Nearer)
  {
    hide Gains, Inv, Sane, Load, Exclusive, NoneLeaving;
    LoadOf(s.ts[t], d.ts[t], s.mem);
    NobodyElse(s, t);
    TurnGain(s, d, t);
  }

  /** Another stage of waiting. */
  lemma StageGain(s: P, d: P, t: nat)
    requires t < |s.ts| == |d.ts| && SameSurroundings(s, d) && (MayExit(d) == MayExit(s) || NoneLeaving(s, t)) && OthersStay(s, d, t)
    requires Road(d.ts[t], s.cap, s.markNo) == Road(s.ts[t], s.cap, s.markNo) && Load(d.ts[t], s.mem) == Load(s.ts[t], s.mem)
    requires Turn(d.ts[t], s.fn, |s.stack|, MayExit(d)) == Turn(s.ts[t], s.fn, |s.stack|, MayExit(s))
    requires Stage(d.ts[t], s.markNo) < Stage(s.ts[t], s.markNo)
    ensures Gains(s, d, t, Nearer)
  {
    hide Road, Load, Turn, Stage, MayExit, NoneLeaving, OthersStay;
  }

  lemma GotoStays(s: P, d: P, t: nat, pc: Pc)
    requires t < |s.ts| && d == Goto(s, t, pc)
    ensures OthersStay(s, d, t) && SameSurroundings(s, d) && MayExit(d) == MayExit(s)
  {}

  lemma ActiveSome(s: P)
    requires Sound(s)
    ensures s.activeCount >= 0
  {
    hide Locked, Sane, Colored;
    CountNonNegative(s);
  }

  lemma IdleGains(s: P, d: P, t: nat)
    requires Going(s, d, t)
    requires (s.ts[t].pc.IdleTest? && d == IdleTestStep(s, t)) || (s.ts[t].pc == IdleWait(true) && d == Goto(s, t, IdleTest))
    ensures Gains(s, d, t, Nearer)
  {
    hide Gains, Inv, Locked, Sane, Load;
    LoadOf(s.ts[t], d.ts[t], s.mem);
    SameRoad(s.ts[t], d.ts[t], s.cap, s.markNo);
    ActiveSome(s);
    GotoStays(s, d, t, d.ts[t].pc);
    StageGain(s, d, t);
  }

  /** One thread gets farther on its road. */
  lemma RoadGain(s: P, d: P, t: nat)
    requires t < |s.ts| == |d.ts| && SameSurroundings(s, d) && (MayExit(d) == MayExit(s) || NoneLeaving(s, t))
    requires Road(d.ts[t], s.cap, s.markNo) < Road(s.ts[t], s.cap, s.markNo)
    ensures Gains(s, d, t, Nearer)
  {
    hide Road, Load, Turn, Stage, MayExit, NoneLeaving, OthersStay;
  }

  lemma NumberOk(s: P, t: nat)
    requires Sound(s) && 0 < t < |s.ts| && Inside(s.ts[t].pc)
    ensures s.ts[t].no == s.markNo
  {
    hide Inv, Sane, Exclusive, Wanted;
  }

  lemma ExitGains(s: P, d: P, t: nat)
    requires Going(s, d, t) && s.ts[t].pc.ExitTest? && d == ExitStep(s, t)
    ensures Gains(s, d, t, Nearer)
  {
    hide Gains, Inv, Sane, Load, Exclusive, Numbered, Wanted, NoneLeaving;
    if MayExit(s) {
      if t > 0 { NumberOk(s, t); }
      RoadGain(s, d, t);
    } else {
      LoadOf(s.ts[t], d.ts[t], s.mem);
      NobodyElse(s, t);
      TurnGain(s, d, t);
    }
  }

  lemma EnterGains(s: P, d: P, t: nat)
    requires Going(s, d, t) && s.ts[t].pc.Enter? && d == EnterStep(s, t)
    ensures Gains(s, d, t, Nearer)
  {
    hide Gains, Inv, Sane, Load, Exclusive, Numbered, Wanted, NoneLeaving, MayExit;
    NobodyElse(s, t);
    RoadGain(s, d, t);
  }

  lemma StealOk(s: P, t: nat)
    requires Sound(s) && t < |s.ts| && s.ts[t].pc.Steal?
    ensures var pc := s.ts[t].pc; pc.p <= pc.n <= |s.stack| <= s.cap && (pc.p == s.ts[t].myFn ==> pc.p < pc.n && pc.i <= pc.max)
  {
    hide Colored, Exclusive, Numbered, Wanted, NoWork, Roles, Waits, Counts;
    assert SaneThread(s.fn, s.ts[t]) && ThreadOk(s.stack, s.ts[t]);
  }

  lemma ZeroOk(s: P, t: nat)
    requires Sound(s) && t < |s.ts| && s.ts[t].pc.Zero?
    ensures s.ts[t].pc.p < |s.stack| <= s.cap
  {
    hide Colored, Exclusive, Numbered, Wanted, NoWork, Roles, Waits, Counts;
    assert SaneThread(s.fn, s.ts[t]) && ThreadOk(s.stack, s.ts[t]);
  }

  lemma StealGains(s: P, d: P, t: nat)
    requires Going(s, d, t) && s.ts[t].pc.Steal? && d == StealStep(s, t)
    ensures Gains(s, d, t, Nearer)
  {
    hide Gains, Inv, Locked, Sane, Load, NoneLeaving;
    StealOk(s, t);
    LoadOf(s.ts[t], d.ts[t], s.mem);
    if Position(d.ts[t]) == Position(s.ts[t]) { TurnGain(s, d, t); } else { RoadGain(s, d, t); }
  }

  lemma ZeroGains(s: P, d: P, t: nat, weight: nat)
    requires Going(s, d, t) && s.ts[t].pc.Zero? && s.ts[t].pc.p < |s.stack| && d == ZeroStep(s, t, weight)
    ensures Gains(s, d, t, Nearer)
  {
    hide Gains, Inv, Locked, Sane, Load, NoneLeaving;
    ZeroOk(s, t);
    RoadGain(s, d, t);
  }

  lemma BroadcastGains(s: P, d: P, t: nat)
    requires Going(s, d, t) && s.ts[t].pc.Broadcast? && d == GotoNotify(s, t, Mark)
    ensures Gains(s, d, t, Nearer)
  {
    hide Gains, Inv, Locked, Sane, Load, NoneLeaving;
    LoadOf(s.ts[t], d.ts[t], s.mem);
    TurnGain(s, d, t);
  }

  lemma HelpGains(s: P, d: P, t: nat)
    requires Going(s, d, t)
    requires (s.ts[t].pc.HelpTest? && d == HelpStep(s, t)) || (s.ts[t].pc == HelpWait(true) && d == Goto(s, t, HelpTest))
    ensures Gains(s, d, t, Nearer)
  {
    hide Gains, Inv, Locked, Sane, Load, NoneLeaving;
    LoadOf(s.ts[t], d.ts[t], s.mem);
    if Road(d.ts[t], s.cap, s.markNo) < Road(s.ts[t], s.cap, s.markNo) { RoadGain(s, d, t); } else { StageGain(s, d, t); }
  }

  lemma StarterGains(s: P, d: P, t: nat) returns (g: Gain)
    requires Going(s, d, t) && t == 0
    requires match s.ts[t].pc
      case Left => d == Goto(s.(helpWanted := false), t, LeftTest)
      case LeftTest => d == LeftTestStep(s, t)
      case StarterWait(n) => n && d == Goto(s, t, LeftTest)
      case Finished => d == GotoNotify(s, t, Rest)
      case _ => false
    ensures Gains(s, d, t, g) && !g.Pushed? && (g.Over? || d.mem == s.mem)
    ensures s.ts[t].pc.Finished? ==> d.ts[t].pc.Rest?
  {
    hide Sound, Gains, Load, MayExit;
    g := if d.ts[t].pc.Finished? || s.ts[t].pc.Finished? then Over else Nearer;
    if g.Over? { PhaseGain(s, d); }
    else {
      LoadOf(s.ts[t], d.ts[t], s.mem);
      SameExit(s, d);
      if s.ts[t].pc.Left? { LeftGain(s, d); } else { StageGain(s, d, t); }
    }
  }

  lemma PhaseGain(s: P, d: P)
    requires 0 < |s.ts| == |d.ts| && Phase(d) < Phase(s)
    ensures Gains(s, d, 0, Over)
  {}

  lemma SameExit(s: P, d: P)
    requires d.activeCount == s.activeCount && d.fn == s.fn && d.stack == s.stack
    ensures MayExit(d) == MayExit(s)
  {}

  lemma LeftGain(s: P, d: P)
    requires 0 < |s.ts| == |d.ts| && SameSurroundings(s, d) && MayExit(d) == MayExit(s)
    requires s.ts[0].pc.Left? && d.ts[0].pc.LeftTest? && Load(d.ts[0], s.mem) == Load(s.ts[0], s.mem)
    ensures Gains(s, d, 0, Nearer)
  {
    hide Load, MayExit, OthersStay;
  }

  // ------------------------------------------------------------------------ local marking

  lemma {:induction false} WorkConcat(mem: map<nat, seq<nat>>, a: seq<Entry>, b: seq<Entry>)
    ensures Work(mem, a + b) == Work(mem, a) + Work(mem, b)
    decreases |b|
  {
    if b == [] { assert a + b == a; }
    else {
      assert (a + b)[..|a + b| - 1] == a + b[..|b| - 1];
      WorkConcat(mem, a, b[..|b| - 1]);
    }
  }

  /** Is the next thing the thread does to look at a pointer, or at the end of an object? */
  predicate Scans(s: P, t: nat, c: Choice) {
    && t < |s.ts| && s.ts[t].pc.Mark? && s.ts[t].local != []
    && !(c.move == GiveBack && |s.ts[t].local| > s.localCap / 2) && !(c.move == Share && |s.ts[t].local| > 2)
  }

  /** The pointers of the object on top of the local stack from the place reached on. */
  function Ahead(s: P, t: nat): seq<nat>
    requires t < |s.ts| && s.ts[t].local != []
  {
    var e := s.ts[t].local[|s.ts[t].local| - 1];
    if |Targets(s.mem, e.o)| <= e.lo then [] else Targets(s.mem, e.o)[e.lo..]
  }

  /** Does the thread mark and push an object?  With a race it does so although the object is marked. */
  predicate Pushes(s: P, t: nat, c: Choice) {
    Scans(s, t, c) && Ahead(s, t) != [] && (Ahead(s, t)[0] !in s.marks || c.race)
  }

  lemma AheadPointed(s: P, t: nat)
    requires t < |s.ts| && s.ts[t].local != [] && Ahead(s, t) != []
    ensures Ahead(s, t)[0] in Pointed(s.mem)
  {
    var e := s.ts[t].local[|s.ts[t].local| - 1];
    assert Ahead(s, t)[0] == s.mem[e.o][e.lo];
  }

  lemma ScanGains(s: P, d: P, t: nat, c: Choice)
    requires Going(s, d, t) && Scans(s, t, c) && d == ScanLocal(s, t, c.race)
    ensures Gains(s, d, t, if Pushes(s, t, c) then Pushed else Nearer) && d.mem == s.mem
  {
    hide Gains, Sound, Work;
    var l := s.ts[t].local;
    var k := |l| - 1;
    if Pushes(s, t, c) { PushGain(s, d, t); }
    else {
      LessWork(s.mem, l[..k], l[k]);
      assert l == l[..k] + [l[k]];
      LoadGain(s, d, t);
    }
  }

  lemma PushGain(s: P, d: P, t: nat)
    requires t < |s.ts| == |d.ts| && d.mem == s.mem
    ensures Gains(s, d, t, Pushed)
  {}

  lemma LessWork(mem: map<nat, seq<nat>>, below: seq<Entry>, e: Entry)
    ensures Work(mem, below) < Work(mem, below + [e])
    ensures e.lo < |Targets(mem, e.o)| ==> Work(mem, below + [Entry(e.o, e.lo + 1)]) < Work(mem, below + [e])
  {
    hide Work;
    WorkConcat(mem, below, [e]);
    WorkConcat(mem, below, [Entry(e.o, e.lo + 1)]);
    WorkOne(mem, e);
    WorkOne(mem, Entry(e.o, e.lo + 1));
  }

  lemma LoadGain(s: P, d: P, t: nat)
    requires t < |s.ts| == |d.ts| && d == s.(ts := d.ts)
    requires s.ts[t].pc.Mark? && d.ts[t] == s.ts[t].(local := d.ts[t].local) && Work(s.mem, d.ts[t].local) < Work(s.mem, s.ts[t].local)
    ensures Gains(s, d, t, Nearer)
  {
    hide Work;
  }

  lemma WorkOne(mem: map<nat, seq<nat>>, e: Entry)
    ensures Work(mem, [e]) == 1 + if e.lo <= |Targets(mem, e.o)| then |Targets(mem, e.o)| - e.lo else 0
  {
    assert [e][..0] == [];
  }

  lemma GiveGains(s: P, d: P, t: nat, k: nat)
    requires Going(s, d, t) && s.ts[t].pc.Mark? && k <= |s.ts[t].local|
    requires d == Set(s, t, s.ts[t].(pc := WantReturn(s.ts[t].local[..k]), local := s.ts[t].local[k..]))
    ensures Gains(s, d, t, Nearer)
  {
    hide Gains, Inv, Locked, Sane, Work, NoneLeaving;
    var l := s.ts[t].local;
    assert l == l[..k] + l[k..];
    WorkConcat(s.mem, l[..k], l[k..]);
    TurnGain(s, d, t);
  }

  lemma MarkGains(s: P, d: P, t: nat, c: Choice)
    requires Going(s, d, t) && s.ts[t].pc.Mark? && d == (if s.ts[t].local == [] then Goto(s, t, LoopTop) else LocalStep(s, t, c))
    ensures Gains(s, d, t, if Pushes(s, t, c) then Pushed else Nearer) && d.mem == s.mem
  {
    hide Gains, Inv, Locked, Sane, Load, NoneLeaving, ScanLocal;
    var l := s.ts[t].local;
    if l == [] {
      LoadOf(s.ts[t], d.ts[t], s.mem);
      TurnGain(s, d, t);
    } else if Scans(s, t, c) {
      ScanGains(s, d, t, c);
    } else if c.move == GiveBack {
      assert l[..|l|] == l && l[|l|..] == [];
      GiveGains(s, d, t, |l|);
    } else {
      GiveGains(s, d, t, (|l| - 1) / 2);
    }
  }

  lemma ReturnOk(s: P, t: nat)
    requires Sound(s) && t < |s.ts| && s.ts[t].pc.WantReturn?
    ensures s.ts[t].pc.part != [] && |s.stack| <= s.cap
  {
    hide Inv, Locked;
    assert SaneThread(s.fn, s.ts[t]);
  }

  lemma {:induction false} WorkPositive(mem: map<nat, seq<nat>>, es: seq<Entry>)
    ensures es != [] ==> 0 < Work(mem, es)
  {}

  lemma ReturnGains(s: P, d: P, t: nat) returns (g: Gain)
    requires Going(s, d, t) && s.ts[t].pc.WantReturn? && d == ReturnStack(s, t)
    ensures Gains(s, d, t, g) && !g.Pushed? && d.mem == s.mem
  {
    hide Inv, Locked, Sane, Work, NoneLeaving, Slots;
    ReturnOk(s, t);
    WorkPositive(s.mem, s.ts[t].pc.part);
    SlotsCount(s.ts[t].pc.part);
    g := if |s.stack| + |s.ts[t].pc.part| > s.cap then Nearer else Returned;
  }

  lemma SlotsCount(es: seq<Entry>)
    ensures |Slots(es)| == |es|
  {}

  // -------------------------------------------------------------------------- every step

  lemma OutsideGains(s: P, d: P, t: nat, c: Choice) returns (g: Gain)
    requires Going(s, d, t) && OutsidePc(s.ts[t].pc) && Enabled(s, t) && d == Step(s, t, c)
    ensures Gains(s, d, t, g) && !g.Pushed? && (g.Over? || d.mem == s.mem)
    ensures s.ts[t].pc.Finished? ==> d.ts[t].pc.Rest?
  {
    hide Gains, Sound, LockFree, HelpStep, LeftTestStep, EnterStep;
    g := Nearer;
    if s.ts[t].pc.Finished? || s.ts[t].pc.LeftTest? || s.ts[t].pc.StarterWait? { StarterIs(s, t); }
    match s.ts[t].pc {
      case HelpTest => HelpGains(s, d, t);
      case HelpWait(_) => HelpGains(s, d, t);
      case Enter => EnterGains(s, d, t);
      case _ => g := StarterGains(s, d, t);
    }
    if g.Nearer? { SameMem(s, d, t); }
  }

  lemma StarterIs(s: P, t: nat)
    requires Sound(s) && t < |s.ts| && StarterPc(s.ts[t].pc)
    ensures t == 0
  {
    hide Locked, Sane, Colored;
  }

  lemma SameMem(s: P, d: P, t: nat)
    requires t < |s.ts| && t < |d.ts| && 0 < |s.ts| && Gains(s, d, t, Nearer)
    ensures d.mem == s.mem
  {}

  lemma LoopGains(s: P, d: P, t: nat, c: Choice)
    requires Going(s, d, t) && LoopPc(s.ts[t].pc) && Enabled(s, t) && d == Step(s, t, c)
    ensures Gains(s, d, t, Nearer)
  {
    hide Gains, Sound, LockFree, ReadTopStep, IdleTestStep;
    match s.ts[t].pc
    case LoopTop => LoopTopGains(s, d, t);
    case ReadTop => ReadTopGains(s, d, t);
    case WantLock => WantLockGains(s, d, t);
    case _ => IdleGains(s, d, t);
  }

  lemma WorkGains(s: P, d: P, t: nat, c: Choice) returns (g: Gain)
    requires Going(s, d, t) && !OutsidePc(s.ts[t].pc) && !LoopPc(s.ts[t].pc) && Enabled(s, t) && d == Step(s, t, c)
    ensures Gains(s, d, t, g) && (g.Pushed? <==> Pushes(s, t, c)) && (g.Over? || d.mem == s.mem)
  {
    hide Gains, Sound, LockFree, ExitStep, LocalStep, StealStep, ReturnStack, RecheckStep, CompareStep, ZeroStep, LeftTestStep;
    g := Nearer;
    match s.ts[t].pc {
      case Compare(_) => g := CompareGains(s, d, t);
      case ExitTest => ExitGains(s, d, t);
      case Steal(_, _, _, _) => StealGains(s, d, t);
      case Zero(_, _, _, _, _) =>
        ZeroOk(s, t);
        ZeroGains(s, d, t, c.weight);
      case Mark =>
        MarkGains(s, d, t, c);
        g := if Pushes(s, t, c) then Pushed else Nearer;
      case WantReturn(_) => g := ReturnGains(s, d, t);
      case Recheck => RecheckGains(s, d, t);
      case Broadcast => BroadcastGains(s, d, t);
      case Left =>
        StarterIs(s, t);
        g := StarterGains(s, d, t);
      case _ =>
    }
    if g.Nearer? { SameMem(s, d, t); }
  }

  lemma AnyGains(s: P, d: P, t: nat, c: Choice) returns (g: Gain)
    requires Going(s, d, t) && Enabled(s, t) && d == Step(s, t, c)
    ensures Gains(s, d, t, g) && (g.Pushed? <==> Pushes(s, t, c)) && (g.Over? || d.mem == s.mem)
    ensures s.ts[t].pc.Finished? ==> d.ts[t].pc.Rest?
  {
    hide Gains, Sound, Enabled, Step;
    if OutsidePc(s.ts[t].pc) { g := OutsideGains(s, d, t, c); }
    else if LoopPc(s.ts[t].pc) { LoopGains(s, d, t, c); g := Nearer; SameMem(s, d, t); }
    else { g := WorkGains(s, d, t, c); }
  }

  lemma PhaseDown(s: P, d: P, t: nat)
    requires OthersWait(s, d, t) && t < |s.ts| && !s.ts[0].pc.Rest? && (t == 0 && s.ts[t].pc.Finished? ==> d.ts[t].pc.Rest?)
    ensures Phase(d) <= Phase(s)
  {}

  // ------------------------------------------------------------------ runs without chance

  /** Thread t takes a step that it can take.  Testing a mark bit and setting it are two accesses, so an object may be
      pushed although it is marked; but a thread that has pushed it has set the bit, and does not find it clear again. */
  ghost predicate Goes(e: Traced, f: Traced, t: nat, c: Choice) {
    && t < |e.p.ts| && Enabled(e.p, t) && f.p == Step(e.p, t, c)
    && f.pushed == e.pushed + (if Pushes(e.p, t, c) then {(t, Ahead(e.p, t)[0])} else {})
    && (Pushes(e.p, t, c) && Ahead(e.p, t)[0] in e.p.marks ==> (t, Ahead(e.p, t)[0]) !in e.pushed)
  }

  /** What has been pushed is marked. */
  ghost predicate Remembered(e: Traced) { forall t: nat, q: nat :: (t, q) in e.pushed ==> q in e.p.marks }

  lemma OutsideMarks(s: P, t: nat, c: Choice)
    requires t < |s.ts| && OutsidePc(s.ts[t].pc)
    ensures Step(s, t, c).marks == s.marks
  {}

  lemma LoopMarks(s: P, t: nat, c: Choice)
    requires t < |s.ts| && LoopPc(s.ts[t].pc)
    ensures Step(s, t, c).marks == s.marks
  {}

  lemma WorkMarks(s: P, t: nat, c: Choice)
    requires t < |s.ts| && !s.ts[t].pc.Rest? && !OutsidePc(s.ts[t].pc) && !LoopPc(s.ts[t].pc)
    ensures s.marks <= Step(s, t, c).marks && (Pushes(s, t, c) ==> Ahead(s, t)[0] in Step(s, t, c).marks)
  {
    match s.ts[t].pc
    case ExitTest => assert ExitStep(s, t).marks == s.marks;
    case Mark => if s.ts[t].local != [] { LocalMarks(s, t, c); }
    case Recheck => assert RecheckStep(s, t).marks == s.marks;
    case WantReturn(_) => assert ReturnStack(s, t).marks == s.marks;
    case _ =>
  }

  lemma LocalMarks(s: P, t: nat, c: Choice)
    requires t < |s.ts| && s.ts[t].pc.Mark? && s.ts[t].local != []
    ensures s.marks <= LocalStep(s, t, c).marks && (Pushes(s, t, c) ==> Ahead(s, t)[0] in LocalStep(s, t, c).marks)
  {}

  lemma MarksGrow(s: P, t: nat, c: Choice)
    requires t < |s.ts| && !s.ts[t].pc.Rest?
    ensures s.marks <= Step(s, t, c).marks && (Pushes(s, t, c) ==> Ahead(s, t)[0] in Step(s, t, c).marks)
  {
    hide Step;
    if OutsidePc(s.ts[t].pc) { OutsideMarks(s, t, c); }
    else if LoopPc(s.ts[t].pc) { LoopMarks(s, t, c); }
    else { WorkMarks(s, t, c); }
  }

  lemma IsNext(s: P, t: nat, c: Choice)
    requires t < |s.ts| && Enabled(s, t)
    ensures Next(s, Step(s, t, c))
  {}

  lemma NotResting(s: P, t: nat)
    requires Sound(s) && t < |s.ts| && !s.ts[0].pc.Rest?
    ensures !s.ts[t].pc.Rest?
  {
    hide Locked, Sane, Colored;
  }

  lemma ThreadsThere(s: P)
    requires Sound(s)
    ensures 0 < |s.ts|
  {
    hide Locked, Sane, Colored;
  }

  lemma InvOf(s: P)
    requires Sound(s)
    ensures Inv(s)
  {}

  /** Every step of every thread gets the mark nearer to its end. */
  lemma StepBelow(e: Traced, f: Traced, t: nat, c: Choice)
    requires Sound(e.p) && Remembered(e) && 0 < |e.p.ts| && !e.p.ts[0].pc.Rest? && Goes(e, f, t, c)
    ensures Sound(f.p) && Remembered(f) && 0 < |f.p.ts| && Below(MeasureOf(f), MeasureOf(e))
  {
    hide Sound, Gains, Enabled, Step, Next, Pushes, Ahead, MeasureOf, Below, Phase, Pointed;
    var s, d := e.p, f.p;
    IsNext(s, t, c);
    SoundStep(s, d);
    NotResting(s, t);
    MarksGrow(s, t, c);
    InvOf(s);
    StepOthers(s, d, t, c);
    var g := AnyGains(s, d, t, c);
    PhaseDown(s, d, t);
    if g.Pushed? { PushedNew(e, t, c); }
    GainBelow(e, f, t, g);
  }

  lemma PushedNew(e: Traced, t: nat, c: Choice)
    requires Remembered(e) && Pushes(e.p, t, c) && (Ahead(e.p, t)[0] in e.p.marks ==> (t, Ahead(e.p, t)[0]) !in e.pushed)
    ensures Ahead(e.p, t)[0] in Pointed(e.p.mem) && (t, Ahead(e.p, t)[0]) !in e.pushed
  {
    AheadPointed(e.p, t);
  }

  lemma StepOthers(s: P, d: P, t: nat, c: Choice)
    requires Inv(s) && t < |s.ts| && Enabled(s, t) && d == Step(s, t, c)
    ensures |d.ts| == |s.ts| && OthersWait(s, d, t)
  {
    hide Shape, Colored, Enabled, Step, Advances;
    if d != s { StepMoves(s, d, t, c); }
  }

  // ---------------------------------------------------------------------------- fair runs

  ghost predicate Steps(e: Traced, f: Traced, t: nat) { exists c :: Goes(e, f, t, c) }

  ghost predicate SomeStep(e: Traced, f: Traced) { exists t: nat :: Steps(e, f, t) }

  predicate AtRest(s: P) { 0 < |s.ts| && s.ts[0].pc.Rest? }

  /** Until the mark is over some thread takes a step, or nothing happens; nobody wakes up by chance. */
  ghost predicate Quiet(run: nat -> Traced, i: nat) {
    AtRest(run(i).p) || run(i + 1) == run(i) || SomeStep(run(i), run(i + 1))
  }

  /** From i on there comes a time when thread t cannot take a step, or takes one. */
  ghost predicate Served(run: nat -> Traced, i: nat, t: nat) {
    exists j: nat :: i <= j && ServedAt(run, j, t)
  }

  ghost predicate ServedAt(run: nat -> Traced, j: nat, t: nat) {
    t < |run(j).p.ts| && Enabled(run(j).p, t) ==> Steps(run(j), run(j + 1), t)
  }

  ghost predicate Fair(run: nat -> Traced) {
    && (forall i: nat :: Quiet(run, i))
    && forall i: nat, t: nat :: AtRest(run(i).p) || Served(run, i, t)
  }

  /** While a mark goes on, a fair run does not stand still. */
  lemma {:induction false} GetsOn(run: nat -> Traced, i: nat, j: nat, t: nat) returns (k: nat, u: nat)
    requires Fair(run) && i <= j && !AtRest(run(i).p) && t < |run(i).p.ts| && Enabled(run(i).p, t) && ServedAt(run, j, t)
    ensures run(k) == run(i) && Steps(run(k), run(k + 1), u)
    decreases j - i
  {
    hide Steps, Enabled, AtRest;
    assert Quiet(run, i);
    if SomeStep(run(i), run(i + 1)) {
      k := i;
      u :| Steps(run(i), run(i + 1), u);
    } else {
      if i < j { k, u := GetsOn(run, i + 1, j, t); }
    }
  }

  lemma {:induction false} EndsFrom(run: nat -> Traced, i: nat) returns (n: nat)
    requires Fair(run) && Sound(run(i).p) && Remembered(run(i)) && 0 < |run(i).p.ts|
    ensures AtRest(run(n).p) && Sound(run(n).p)
    decreases MeasureOf(run(i)).phase, MeasureOf(run(i)).unpushed, MeasureOf(run(i)).room, MeasureOf(run(i)).roads,
      MeasureOf(run(i)).behind, MeasureOf(run(i)).work, MeasureOf(run(i)).turns, MeasureOf(run(i)).stages
  {
    hide Sound, Remembered, MeasureOf, Enabled, ServedAt, Goes;
    if AtRest(run(i).p) { n := i; }
    else {
      InvOf(run(i).p);
      var t := SomeoneCan(run(i).p);
      assert AtRest(run(i).p) || Served(run, i, t);
      var j: nat :| i <= j && ServedAt(run, j, t);
      var k, u := GetsOn(run, i, j, t);
      var c :| Goes(run(k), run(k + 1), u, c);
      StepBelow(run(k), run(k + 1), u, c);
      n := EndsFrom(run, k + 1);
    }
  }

  /** Parallel marking ends: in every fair run that goes on from any point reached before, and in which nobody wakes up
      by chance any more, GC_do_parallel_mark is done at some point; and then no work is left. */
  lemma ParallelMarkEnds(before: seq<P>, run: nat -> Traced) returns (n: nat)
    requires IsRun(before) && before[|before| - 1] == run(0).p && Remembered(run(0)) && Fair(run)
    ensures AtRest(run(n).p) && NoWork(run(n).p)
  {
    hide Sound, Remembered, Fair, Init, Next, NoWork;
    RunSound(before, |before| - 1);
    ThreadsThere(run(0).p);
    n := EndsFrom(run, 0);
    RestingDone(run(n).p);
  }

  lemma RestingDone(s: P)
    requires Sound(s) && AtRest(s)
    ensures NoWork(s)
  {
    hide Locked, Sane, Colored;
  }

  /** No such run gets stuck: until the mark is over some thread can take a step. */
  lemma MarkGoesOn(before: seq<P>, e: Traced) returns (f: Traced, t: nat)
    requires IsRun(before) && before[|before| - 1] == e.p && !AtRest(e.p)
    ensures Steps(e, f, t)
  {
    hide Sound, Enabled, Step, Ahead, Init, Next;
    RunSound(before, |before| - 1);
    ThreadsThere(e.p);
    InvOf(e.p);
    t := SomeoneCan(e.p);
    var c := Choice(0, false, ScanOne, map[], {}, []);
    f := Traced(Step(e.p, t, c), e.pushed + if Pushes(e.p, t, c) then {(t, Ahead(e.p, t)[0])} else {});
    assert Goes(e, f, t, c);
  }
}
