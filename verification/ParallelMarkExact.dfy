/** When a parallel mark is declared invalid, and what it marks.  Entries are dropped only where the shared or a local mark
    stack is full; and nothing is marked that the objects started from do not lead to. */
module ParallelMarkExact {
  import opened ParallelMarkModel
  import opened ParallelMarkProofs
  import opened ParallelMarkTheorems
  import opened ParallelMarkLock
  import opened ParallelMarkEnd

  // ---------------------------------------------------------------------- dropping entries

  /** A part of a local stack that is to be given back finds no room on the shared stack; or an object is to be pushed on a
      local stack that is full. */
  predicate NoRoom(s: P, t: nat, c: Choice) {
    && t < |s.ts|
    && (|| (s.ts[t].pc.WantReturn? && |s.stack| + |s.ts[t].pc.part| > s.cap)
        || (Pushes(s, t, c) && |s.ts[t].local| >= s.localCap))
  }

  lemma LocalInvalid(s: P, t: nat, c: Choice)
    requires t < |s.ts| && s.ts[t].pc.Mark? && s.ts[t].local != []
    ensures LocalStep(s, t, c).invalid <==> s.invalid || NoRoom(s, t, c)
  {}

  lemma ReturnInvalid(s: P, t: nat, c: Choice)
    requires t < |s.ts| && s.ts[t].pc.WantReturn?
    ensures ReturnStack(s, t).invalid <==> s.invalid || NoRoom(s, t, c)
  {}

  lemma OutsideInvalid(s: P, t: nat, c: Choice)
    requires t < |s.ts| && OutsidePc(s.ts[t].pc)
    ensures Step(s, t, c).invalid == s.invalid && !NoRoom(s, t, c)
  {}

  lemma LoopInvalid(s: P, t: nat, c: Choice)
    requires t < |s.ts| && LoopPc(s.ts[t].pc)
    ensures Step(s, t, c).invalid == s.invalid && !NoRoom(s, t, c)
  {}

  lemma WorkInvalid(s: P, t: nat, c: Choice)
    requires t < |s.ts| && !s.ts[t].pc.Rest? && !OutsidePc(s.ts[t].pc) && !LoopPc(s.ts[t].pc)
    ensures Step(s, t, c).invalid <==> s.invalid || NoRoom(s, t, c)
  {
    hide LocalStep, ReturnStack;
    match s.ts[t].pc
    case Mark => if s.ts[t].local != [] { LocalInvalid(s, t, c); }
    case WantReturn(_) => ReturnInvalid(s, t, c);
    case ExitTest => assert ExitStep(s, t).invalid == s.invalid;
    case Recheck => assert RecheckStep(s, t).invalid == s.invalid;
    case _ =>
  }

  /** A step declares the mark state invalid exactly when there is no room. */
  lemma StepInvalid(s: P, t: nat, c: Choice)
    requires t < |s.ts| && !s.ts[t].pc.Rest?
    ensures Step(s, t, c).invalid <==> s.invalid || NoRoom(s, t, c)
  {
    hide Step, NoRoom;
    if OutsidePc(s.ts[t].pc) { OutsideInvalid(s, t, c); }
    else if LoopPc(s.ts[t].pc) { LoopInvalid(s, t, c); }
    else { WorkInvalid(s, t, c); }
  }

  /** Some thread takes the step from s to d, and finds no room. */
  ghost predicate Overflowing(s: P, d: P) {
    exists t: nat, c :: t < |s.ts| && Enabled(s, t) && d == Step(s, t, c) && NoRoom(s, t, c)
  }

  lemma NextInvalid(s: P, d: P)
    requires Inv(s) && Next(s, d) && !Starts(s, d)
    ensures d.invalid <==> s.invalid || Overflowing(s, d)
  {
    hide Shape, Colored, Step, Enabled, Starts, NoRoom;
    var t: nat :| t < |s.ts| && (d == Spurious(s, t) || (Enabled(s, t) && exists c :: d == Step(s, t, c)));
    if d != Spurious(s, t) {
      var c :| d == Step(s, t, c);
      InvalidBy(s, d, t, c);
    }
    if u: nat, c :| u < |s.ts| && Enabled(s, u) && d == Step(s, u, c) && NoRoom(s, u, c) { InvalidBy(s, d, u, c); }
  }

  lemma InvalidBy(s: P, d: P, t: nat, c: Choice)
    requires Inv(s) && t < |s.ts| && d == Step(s, t, c) && !Starts(s, d)
    ensures d.invalid <==> s.invalid || NoRoom(s, t, c)
  {
    hide Shape, Colored, NoRoom;
    if s.ts[t].pc.Rest? {
      StartOrStay(s, d, t, c);
      RestRoom(s, t, c);
    } else { StepInvalid(s, t, c); }
  }

  lemma StartOrStay(s: P, d: P, t: nat, c: Choice)
    requires Inv(s) && t < |s.ts| && d == Step(s, t, c) && !Starts(s, d) && s.ts[t].pc.Rest?
    ensures d == s
  {
    hide GoodStart;
    OnlyStarter(s, t);
  }

  lemma RestRoom(s: P, t: nat, c: Choice)
    requires t < |s.ts| && s.ts[t].pc.Rest?
    ensures !NoRoom(s, t, c)
  {}

  lemma StartValid(s: P, d: P)
    requires Inv(s) && Next(s, d) && Starts(s, d)
    ensures !d.invalid
  {
    hide Shape, Colored, Enabled;
    var t: nat :| t < |s.ts| && (d == Spurious(s, t) || (Enabled(s, t) && exists c :: d == Step(s, t, c)));
    assert s.ts[0].pc.Rest? && d.ts[0].pc.Enter?;
    if d != Spurious(s, t) {
      var c :| d == Step(s, t, c);
      if t != 0 { StepOthers(s, d, t, c); }
    }
  }

  /** A mark is invalid in the end if and only if somewhere in it there was no room, for a part given back or for an object
      pushed. */
  lemma {:induction false} InvalidIff(run: seq<P>, i: nat, j: nat)
    requires IsRun(run) && i < j < |run| && Starts(run[i], run[i + 1])
    requires forall k :: i < k < j ==> !Starts(run[k], run[k + 1])
    ensures run[j].invalid <==> exists k :: i < k < j && Overflowing(run[k], run[k + 1])
    decreases j
  {
    hide Inv, Init, Next, Starts, Overflowing;
    RunInv(run, j - 1);
    assert Next(run[j - 1], run[j - 1 + 1]);
    if j == i + 1 { StartValid(run[i], run[j]); }
    else {
      InvalidIff(run, i, j - 1);
      NextInvalid(run[j - 1], run[j]);
      assert Overflowing(run[j - 1], run[j]) ==> Overflowing(run[j - 1], run[j - 1 + 1]);
    }
  }

  /** What is given back is on the shared stack afterwards, untaken, if there is room for it; otherwise it is dropped. */
  lemma GivenBack(s: P, t: nat, c: Choice)
    requires t < |s.ts| && s.ts[t].pc.WantReturn?
    ensures var d, part := Step(s, t, c), s.ts[t].pc.part;
      if |s.stack| + |part| <= s.cap
      then d.invalid == s.invalid && |d.stack| == |s.stack| + |part| && d.stack[..|s.stack|] == s.stack
           && forall k :: 0 <= k < |part| ==> d.stack[|s.stack| + k] == Slot(false, part[k])
      else d.invalid && d.stack == s.stack
  {}

  /** A mark that fits is valid: if no part given back and no object pushed found its stack full, then in the end marked
      objects lead to marked objects only. */
  lemma FittingMarkIsComplete(run: seq<P>, i: nat, j: nat)
    requires IsRun(run) && i < j < |run| && Starts(run[i], run[i + 1])
    requires forall k :: i < k < j ==> !Starts(run[k], run[k + 1])
    requires forall k, t: nat, c :: i < k < j && t < |run[k].ts| ==> !NoRoom(run[k], t, c)
    requires 0 < |run[j].ts| && StarterPc(run[j].ts[0].pc)
    ensures !run[j].invalid
    ensures forall o, n :: o in run[j].marks && 0 <= n < |Targets(run[j].mem, o)| ==> Targets(run[j].mem, o)[n] in run[j].marks
  {
    hide Inv, Init, Next, Starts, NoRoom, StarterPc;
    InvalidIff(run, i, j);
    ParallelMarkIsComplete(run, j);
  }

  // ---------------------------------------------------------------------------- what is marked

  /** A path from one of the objects in base. */
  ghost predicate IsPath(mem: map<nat, seq<nat>>, base: set<nat>, p: seq<nat>) {
    && p != [] && p[0] in base
    && forall k :: 0 <= k < |p| - 1 ==> p[k + 1] in Targets(mem, p[k])
  }

  ghost predicate Reached(mem: map<nat, seq<nat>>, base: set<nat>, o: nat) {
    exists p :: IsPath(mem, base, p) && p[|p| - 1] == o
  }

  lemma ReachedStep(mem: map<nat, seq<nat>>, base: set<nat>, o: nat, q: nat)
    requires Reached(mem, base, o) && q in Targets(mem, o)
    ensures Reached(mem, base, q)
  {
    var p :| IsPath(mem, base, p) && p[|p| - 1] == o;
    var r := p + [q];
    assert IsPath(mem, base, r) && r[|r| - 1] == q;
  }

  lemma ReachedBase(mem: map<nat, seq<nat>>, base: set<nat>, o: nat)
    requires o in base
    ensures Reached(mem, base, o)
  {
    assert IsPath(mem, base, [o]) && [o][|[o]| - 1] == o;
  }

  ghost predicate AllReached(mem: map<nat, seq<nat>>, base: set<nat>, es: seq<Entry>) {
    forall e :: e in es ==> Reached(mem, base, e.o)
  }

  /** Marked objects, and the objects in all entries, can be reached from base. */
  ghost predicate Sourced(s: P, base: set<nat>) {
    && (forall o :: o in s.marks ==> Reached(s.mem, base, o))
    && (forall k :: 0 <= k < |s.stack| ==> Reached(s.mem, base, s.stack[k].e.o))
    && forall t :: 0 <= t < |s.ts| ==> AllReached(s.mem, base, Held(s.ts[t]))
  }

  /** What a step of thread t has to do for that. */
  ghost predicate SourcedMove(s: P, d: P, t: nat, base: set<nat>)
    requires t < |s.ts|
  {
    && t < |d.ts| && d.mem == s.mem && AllReached(s.mem, base, Held(d.ts[t]))
    && (forall o :: o in d.marks ==> o in s.marks || Reached(s.mem, base, o))
    && (forall k :: 0 <= k < |d.stack| ==> Reached(s.mem, base, d.stack[k].e.o))
  }

  lemma WokenHeld(th: Thread)
    ensures Held(Woken(th)) == Held(th)
  {}

  lemma SourcedMoves(s: P, d: P, t: nat, base: set<nat>)
    requires Sourced(s, base) && t < |s.ts| && OthersWait(s, d, t) && SourcedMove(s, d, t, base)
    ensures Sourced(d, base)
  {
    hide Reached, AllReached, Held, Woken;
    forall u | 0 <= u < |d.ts| ensures AllReached(d.mem, base, Held(d.ts[u])) {
      if u != t { WokenHeld(s.ts[u]); }
    }
  }

  /** The thread holds what it held before, or less; nothing else has changed. */
  lemma HeldMove(s: P, d: P, t: nat, base: set<nat>)
    requires Sourced(s, base) && t < |s.ts| && t < |d.ts| && d.mem == s.mem && d.marks == s.marks && d.stack == s.stack
    requires forall e :: e in Held(d.ts[t]) ==> e in Held(s.ts[t])
    ensures SourcedMove(s, d, t, base)
  {
    hide Reached, Held;
  }

  predicate Empty(pc: Pc) { !pc.Zero? && !pc.WantReturn? }

  lemma GotoSourced(s: P, d: P, t: nat, base: set<nat>)
    requires Sourced(s, base) && t < |s.ts| && t < |d.ts| && d.mem == s.mem && d.marks == s.marks && d.stack == s.stack
    requires d.ts[t].local == s.ts[t].local && Empty(s.ts[t].pc) && Empty(d.ts[t].pc)
    ensures SourcedMove(s, d, t, base)
  {
    hide Sourced, SourcedMove;
    HeldMove(s, d, t, base);
  }

  lemma OutsideSourced(s: P, d: P, t: nat, c: Choice, base: set<nat>)
    requires Sourced(s, base) && t < |s.ts| && OutsidePc(s.ts[t].pc) && d == Step(s, t, c)
    ensures SourcedMove(s, d, t, base)
  {
    hide Sourced, SourcedMove, HelpStep, LeftTestStep, Woken;
    match s.ts[t].pc
    case HelpTest => HelpSourced(s, d, t, base);
    case LeftTest => LeftTestSourced(s, d, t, base);
    case HelpWait(_) => GotoSourced(s, d, t, base);
    case Enter => GotoSourced(s, d, t, base);
    case StarterWait(_) => GotoSourced(s, d, t, base);
    case Finished => GotoSourced(s, d, t, base);
  }

  lemma HelpSourced(s: P, d: P, t: nat, base: set<nat>)
    requires Sourced(s, base) && t < |s.ts| && s.ts[t].pc.HelpTest? && d == HelpStep(s, t)
    ensures SourcedMove(s, d, t, base)
  {
    hide Sourced, SourcedMove;
    GotoSourced(s, d, t, base);
  }

  lemma LeftTestSourced(s: P, d: P, t: nat, base: set<nat>)
    requires Sourced(s, base) && t < |s.ts| && s.ts[t].pc.LeftTest? && d == LeftTestStep(s, t)
    ensures SourcedMove(s, d, t, base)
  {
    hide Sourced, SourcedMove;
    GotoSourced(s, d, t, base);
  }

  lemma LoopSourced(s: P, d: P, t: nat, c: Choice, base: set<nat>)
    requires Sourced(s, base) && t < |s.ts| && LoopPc(s.ts[t].pc) && d == Step(s, t, c)
    ensures SourcedMove(s, d, t, base)
  {
    hide Sourced, SourcedMove;
    match s.ts[t].pc
    case ReadTop => assert d == ReadTopStep(s, t); GotoSourced(s, d, t, base);
    case IdleTest => assert d == IdleTestStep(s, t); GotoSourced(s, d, t, base);
    case _ => GotoSourced(s, d, t, base);
  }

  lemma ScanSourced(s: P, d: P, t: nat, race: bool, base: set<nat>)
    requires Sourced(s, base) && t < |s.ts| && s.ts[t].pc.Mark? && s.ts[t].local != [] && d == ScanLocal(s, t, race)
    ensures SourcedMove(s, d, t, base)
  {
    hide Reached, Held, ScanLocal;
    var l := s.ts[t].local;
    var k := |l| - 1;
    HeldLocal(s.ts[t]);
    assert l[k] in l;
    if l[k].lo < |Targets(s.mem, l[k].o)| { ReachedStep(s.mem, base, l[k].o, Targets(s.mem, l[k].o)[l[k].lo]); }
    ScannedIs(s, d, t, race);
  }

  lemma HeldLocal(th: Thread)
    requires th.pc.Mark?
    ensures Held(th) == th.local
  {}

  /** What is on the local stack after one pointer has been looked at. */
  lemma ScannedIs(s: P, d: P, t: nat, race: bool)
    requires t < |s.ts| && s.ts[t].pc.Mark? && s.ts[t].local != [] && d == ScanLocal(s, t, race)
    ensures var l, k := s.ts[t].local, |s.ts[t].local| - 1;
      var more := l[k].lo < |Targets(s.mem, l[k].o)|;
      && t < |d.ts| && d.mem == s.mem && d.stack == s.stack
      && (forall o :: o in d.marks ==> o in s.marks || (more && o == Targets(s.mem, l[k].o)[l[k].lo]))
      && (forall e :: e in Held(d.ts[t]) ==> e in l || e.o == l[k].o || (more && e.o == Targets(s.mem, l[k].o)[l[k].lo]))
  {
    hide Held;
    var l, k := s.ts[t].local, |s.ts[t].local| - 1;
    var x := Entry(l[k].o, l[k].lo + 1);
    HeldLocal(d.ts[t]);
    InParts(l, k, x, k + 1, x);
    if l[k].lo < |Targets(s.mem, l[k].o)| {
      var y := Entry(Targets(s.mem, l[k].o)[l[k].lo], 0);
      InParts(l, k, x, k + 1, y);
      InParts(l, k, x, if s.discards <= k + 1 then k + 1 - s.discards else 0, y);
      assert (l[..k] + [x])[..k + 1] == l[..k] + [x];
    }
  }

  lemma InParts(l: seq<Entry>, k: nat, x: Entry, n: nat, y: Entry)
    requires k < |l| && n <= k + 1
    ensures forall e :: e in (l[..k] + [x])[..n] + [y] ==> e in l || e == x || e == y
    ensures forall e :: e in l[..k] ==> e in l
  {}

  lemma GiveSourced(s: P, d: P, t: nat, k: nat, base: set<nat>)
    requires Sourced(s, base) && t < |s.ts| && s.ts[t].pc.Mark? && k <= |s.ts[t].local|
    requires d == Set(s, t, s.ts[t].(pc := WantReturn(s.ts[t].local[..k]), local := s.ts[t].local[k..]))
    ensures SourcedMove(s, d, t, base)
  {
    hide Sourced, SourcedMove;
    HeldMove(s, d, t, base);
  }

  lemma MarkSourced(s: P, d: P, t: nat, c: Choice, base: set<nat>)
    requires Sourced(s, base) && t < |s.ts| && s.ts[t].pc.Mark? && s.ts[t].local != [] && d == LocalStep(s, t, c)
    ensures SourcedMove(s, d, t, base)
  {
    hide Sourced, SourcedMove, ScanLocal;
    var l := s.ts[t].local;
    if Scans(s, t, c) { ScanSourced(s, d, t, c.race, base); }
    else if c.move == GiveBack {
      assert l[..|l|] == l && l[|l|..] == [];
      GiveSourced(s, d, t, |l|, base);
    } else { GiveSourced(s, d, t, (|l| - 1) / 2, base); }
  }

  lemma StealSourced(s: P, d: P, t: nat, base: set<nat>)
    requires Sourced(s, base) && t < |s.ts| && s.ts[t].pc.Steal? && d == StealStep(s, t)
    ensures SourcedMove(s, d, t, base)
  {
    hide Reached;
    assert AllReached(s.mem, base, Held(s.ts[t]));
  }

  lemma ZeroSourced(s: P, d: P, t: nat, weight: nat, base: set<nat>)
    requires Sourced(s, base) && t < |s.ts| && s.ts[t].pc.Zero? && s.ts[t].pc.p < |s.stack| && d == ZeroStep(s, t, weight)
    ensures SourcedMove(s, d, t, base)
  {
    hide Reached;
    assert AllReached(s.mem, base, Held(s.ts[t]));
  }

  lemma ReturnSourced(s: P, d: P, t: nat, base: set<nat>)
    requires Sourced(s, base) && t < |s.ts| && s.ts[t].pc.WantReturn? && d == ReturnStack(s, t)
    ensures SourcedMove(s, d, t, base)
  {
    hide Reached;
    var part := s.ts[t].pc.part;
    assert AllReached(s.mem, base, Held(s.ts[t]));
    forall k | 0 <= k < |d.stack| ensures Reached(s.mem, base, d.stack[k].e.o) {
      if k >= |s.stack| { assert part[k - |s.stack|] in Held(s.ts[t]); }
    }
  }

  lemma PlainSourced(s: P, d: P, t: nat, base: set<nat>)
    requires Sourced(s, base) && t < |s.ts|
    requires match s.ts[t].pc
      case Broadcast => d == GotoNotify(s, t, Mark)
      case Left => d == Goto(s.(helpWanted := false), t, LeftTest)
      case Mark => d == Goto(s, t, LoopTop)
      case _ => false
    ensures SourcedMove(s, d, t, base)
  {
    hide Sourced, SourcedMove, Woken;
    GotoSourced(s, d, t, base);
  }

  lemma CompareSourced(s: P, d: P, t: nat, base: set<nat>)
    requires Sourced(s, base) && t < |s.ts| && s.ts[t].pc.Compare? && d == CompareStep(s, t)
    ensures SourcedMove(s, d, t, base)
  {
    hide Sourced, SourcedMove;
    GotoSourced(s, d, t, base);
  }

  lemma ExitSourced(s: P, d: P, t: nat, base: set<nat>)
    requires Sourced(s, base) && t < |s.ts| && s.ts[t].pc.ExitTest? && d == ExitStep(s, t)
    ensures SourcedMove(s, d, t, base)
  {
    hide Sourced, SourcedMove, Woken;
    GotoSourced(s, d, t, base);
  }

  lemma RecheckSourced(s: P, d: P, t: nat, base: set<nat>)
    requires Sourced(s, base) && t < |s.ts| && s.ts[t].pc.Recheck? && d == RecheckStep(s, t)
    ensures SourcedMove(s, d, t, base)
  {
    hide Sourced, SourcedMove, Woken;
    GotoSourced(s, d, t, base);
  }

  lemma WorkSourced(s: P, d: P, t: nat, c: Choice, base: set<nat>)
    requires Sourced(s, base) && t < |s.ts| && !s.ts[t].pc.Rest? && !OutsidePc(s.ts[t].pc) && !LoopPc(s.ts[t].pc)
    requires d == Step(s, t, c) && d != s
    ensures SourcedMove(s, d, t, base)
  {
    hide Sourced, SourcedMove, ExitStep, LocalStep, StealStep, ReturnStack, RecheckStep, CompareStep, ZeroStep;
    match s.ts[t].pc
    case Steal(_, _, _, _) => StealSourced(s, d, t, base);
    case Zero(_, _, _, _, _) => ZeroSourced(s, d, t, c.weight, base);
    case Mark => if s.ts[t].local == [] { PlainSourced(s, d, t, base); } else { MarkSourced(s, d, t, c, base); }
    case WantReturn(_) => ReturnSourced(s, d, t, base);
    case Compare(_) => CompareSourced(s, d, t, base);
    case ExitTest => ExitSourced(s, d, t, base);
    case Recheck => RecheckSourced(s, d, t, base);
    case _ => PlainSourced(s, d, t, base);
  }

  lemma SpuriousSourced(s: P, t: nat, base: set<nat>)
    requires Sourced(s, base) && t < |s.ts|
    ensures Sourced(Spurious(s, t), base) && Spurious(s, t).mem == s.mem
  {
    hide Reached, AllReached, Held, Woken;
    WokenHeld(s.ts[t]);
  }

  lemma NextSourced(s: P, d: P, base: set<nat>)
    requires Inv(s) && Next(s, d) && !Starts(s, d) && Sourced(s, base)
    ensures Sourced(d, base) && d.mem == s.mem
  {
    hide Shape, Colored, Step, Enabled, Starts, Sourced, SourcedMove, OthersWait, Spurious;
    var t: nat :| t < |s.ts| && (d == Spurious(s, t) || (Enabled(s, t) && exists c :: d == Step(s, t, c)));
    if d == Spurious(s, t) { SpuriousSourced(s, t, base); }
    else if d != s {
      var c :| d == Step(s, t, c);
      StepOthers(s, d, t, c);
      if s.ts[t].pc.Rest? { StartOrStay(s, d, t, c); }
      else if OutsidePc(s.ts[t].pc) { OutsideSourced(s, d, t, c, base); }
      else if LoopPc(s.ts[t].pc) { LoopSourced(s, d, t, c, base); }
      else { WorkSourced(s, d, t, c, base); }
      SameMemory(s, d, t, base);
      SourcedMoves(s, d, t, base);
    }
  }

  lemma SameMemory(s: P, d: P, t: nat, base: set<nat>)
    requires t < |s.ts| && SourcedMove(s, d, t, base)
    ensures d.mem == s.mem
  {}

  /** What a mark starts from: marked objects, and the objects (or root areas) on the mark stack. */
  ghost function Origins(s: P): set<nat> { s.marks + (set k | 0 <= k < |s.stack| :: s.stack[k].e.o) }

  lemma StartSourced(s: P, d: P)
    requires Inv(s) && Next(s, d) && Starts(s, d)
    ensures Sourced(d, Origins(d))
  {
    hide Shape, Colored, Enabled;
    var t: nat :| t < |s.ts| && (d == Spurious(s, t) || (Enabled(s, t) && exists c :: d == Step(s, t, c)));
    assert s.ts[0].pc.Rest? && d.ts[0].pc.Enter?;
    if d != Spurious(s, t) {
      var c :| d == Step(s, t, c);
      if t != 0 { StepOthers(s, d, t, c); }
      else { StartedSourced(s, d, c); }
    }
  }

  lemma StartedSourced(s: P, d: P, c: Choice)
    requires Inv(s) && 0 < |s.ts| && s.ts[0].pc.Rest? && d == StartStep(s, c)
    ensures Sourced(d, Origins(d))
  {
    hide Reached, Colored;
    var base := Origins(d);
    forall o | o in base ensures Reached(d.mem, base, o) { ReachedBase(d.mem, base, o); }
    NobodyHolds(s);
    forall t | 0 <= t < |d.ts| ensures Held(d.ts[t]) == [] {
      if t != 0 { WokenHeld(s.ts[t]); }
    }
  }

  lemma NobodyHolds(s: P)
    requires Inv(s) && 0 < |s.ts| && s.ts[0].pc.Rest?
    ensures forall t :: 0 <= t < |s.ts| ==> Held(s.ts[t]) == []
  {
    hide Colored;
  }

  lemma {:induction false} RunSourced(run: seq<P>, i: nat, j: nat)
    requires IsRun(run) && i < j < |run| && Starts(run[i], run[i + 1])
    requires forall k :: i < k < j ==> !Starts(run[k], run[k + 1])
    ensures Sourced(run[j], Origins(run[i + 1])) && run[j].mem == run[i + 1].mem
    decreases j
  {
    hide Inv, Init, Next, Starts, Sourced, Origins;
    RunInv(run, j - 1);
    assert Next(run[j - 1], run[j - 1 + 1]);
    if j == i + 1 { StartSourced(run[i], run[j]); }
    else {
      RunSourced(run, i, j - 1);
      NextSourced(run[j - 1], run[j], Origins(run[i + 1]));
    }
  }

  /** Nothing is marked without reason: at any point of a mark every marked object can be reached from what the mark has
      started from. */
  lemma OnlyReachedMarked(run: seq<P>, i: nat, j: nat, o: nat)
    requires IsRun(run) && i < j < |run| && Starts(run[i], run[i + 1])
    requires forall k :: i < k < j ==> !Starts(run[k], run[k + 1])
    requires o in run[j].marks
    ensures Reached(run[i + 1].mem, Origins(run[i + 1]), o)
  {
    hide Init, Next, Starts, Origins;
    RunSourced(run, i, j);
  }

  lemma {:induction false} PathMarked(s: P, base: set<nat>, p: seq<nat>, k: nat)
    requires IsPath(s.mem, base, p) && base <= s.marks && k < |p|
    requires forall o, n :: o in s.marks && 0 <= n < |Targets(s.mem, o)| ==> Targets(s.mem, o)[n] in s.marks
    ensures p[k] in s.marks
  {
    if k > 0 {
      PathMarked(s, base, p, k - 1);
      assert p[k - 1 + 1] in Targets(s.mem, p[k - 1]);
      var n :| 0 <= n < |Targets(s.mem, p[k - 1])| && Targets(s.mem, p[k - 1])[n] == p[k];
    }
  }

  lemma {:induction false} MarksStay(run: seq<P>, i: nat, j: nat)
    requires IsRun(run) && i <= j < |run| && forall k :: i <= k < j ==> !Starts(run[k], run[k + 1])
    ensures run[i].marks <= run[j].marks
    decreases j
  {
    hide Inv, Init, Next, Starts;
    if i < j {
      MarksStay(run, i, j - 1);
      RunInv(run, j - 1);
      assert Next(run[j - 1], run[j - 1 + 1]);
      NextMarks(run[j - 1], run[j]);
    }
  }

  lemma NextMarks(s: P, d: P)
    requires Inv(s) && Next(s, d) && !Starts(s, d)
    ensures s.marks <= d.marks
  {
    hide Shape, Colored, Step, Enabled, Starts;
    var t: nat :| t < |s.ts| && (d == Spurious(s, t) || (Enabled(s, t) && exists c :: d == Step(s, t, c)));
    if d != Spurious(s, t) {
      var c :| d == Step(s, t, c);
      if s.ts[t].pc.Rest? { StartOrStay(s, d, t, c); } else { MarksGrow(s, t, c); }
    }
  }

  /** A parallel mark is exact: if it started from marked objects only and there was room for everything, then in the end
      exactly those objects are marked that can be reached from the objects marked at the start. */
  lemma ParallelMarkIsExact(run: seq<P>, i: nat, j: nat, o: nat)
    requires IsRun(run) && i < j < |run| && Starts(run[i], run[i + 1])
    requires forall k :: i < k < j ==> !Starts(run[k], run[k + 1])
    requires forall k :: i < k < j ==> !Overflowing(run[k], run[k + 1])
    requires 0 < |run[j].ts| && StarterPc(run[j].ts[0].pc)
    requires Origins(run[i + 1]) <= run[i + 1].marks
    ensures !run[j].invalid && (o in run[j].marks <==> Reached(run[i + 1].mem, run[i + 1].marks, o))
  {
    hide Init, Next, Starts, Overflowing, StarterPc;
    InvalidIff(run, i, j);
    ParallelMarkIsComplete(run, j);
    RunSourced(run, i, j);
    assert Origins(run[i + 1]) == run[i + 1].marks;
    MarksStay(run, i + 1, j);
    if Reached(run[i + 1].mem, run[i + 1].marks, o) {
      var p :| IsPath(run[i + 1].mem, run[i + 1].marks, p) && p[|p| - 1] == o;
      PathMarked(run[j], run[i + 1].marks, p, |p| - 1);
    }
  }
}
