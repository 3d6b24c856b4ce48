/** What GC_finalize guarantees: the order of finalization, and which links disappear. */
module FinalizeTheorems {
  import opened MarkModel
  import opened MarkInvariant
  import opened MarkTheorems
  import opened FinalizeModel

  // --------------------------------------------------------------------------- queueing

  ghost predicate InTable(t: seq<seq<Obj>>, o: Obj) { exists i :: 0 <= i < |t| && o in t[i] }

  /** What the queueing pass over one chain does. */
  ghost predicate Queued(marks: set<Obj>, c: seq<Obj>, now: seq<Obj>, r: (set<Obj>, seq<Obj>, seq<Obj>), add: seq<Obj>) {
    && r.2 == add + now && (forall i, j :: 0 <= i < j < |add| ==> add[i] != add[j])
    && (forall o :: o in add <==> o in c && o !in marks)
    && (forall o :: o in r.0 <==> o in marks || o in c)
    && (forall o :: o in r.1 ==> o in c && (o in marks || o in add))
    && (forall o :: o in c && o in marks ==> o in r.1)
  }

  lemma {:induction false} EnqueueQueues(marks: set<Obj>, c: seq<Obj>, now: seq<Obj>) returns (add: seq<Obj>)
    ensures Queued(marks, c, now, Enqueue(marks, c, now), add)
    decreases |c|
  {
    if c == [] { add := []; }
    else {
      var o := c[0];
      assert forall x :: x in c <==> x == o || x in c[1..];
      if o in marks {
        add := EnqueueQueues(marks, c[1..], now);
      } else {
        var more := EnqueueQueues(marks + {o}, c[1..], [o] + now);
        add := more + [o];
        assert more + ([o] + now) == add + now;
        forall i, j | 0 <= i < j < |add| ensures add[i] != add[j] {
          if j == |more| { assert more[i] in more; }
        }
      }
    }
  }

  /** The objects of a chain that are unmarked when it is their turn. */
  function Fresh(marks: set<Obj>, c: seq<Obj>): seq<Obj>
    decreases |c|
  {
    if c == [] then [] else if c[0] in marks then Fresh(marks, c[1..]) else [c[0]] + Fresh(marks + {c[0]}, c[1..])
  }

  function Backwards(c: seq<Obj>): seq<Obj> { if c == [] then [] else Backwards(c[1..]) + [c[0]] }

  /** The queue is filled from the front: the object met last comes first. */
  lemma {:induction false} QueuedBackwards(marks: set<Obj>, c: seq<Obj>, now: seq<Obj>)
    ensures Enqueue(marks, c, now).2 == Backwards(Fresh(marks, c)) + now
    decreases |c|
  {
    if c != [] {
      var o := c[0];
      if o in marks { QueuedBackwards(marks, c[1..], now); }
      else {
        QueuedBackwards(marks + {o}, c[1..], [o] + now);
        var rest := Fresh(marks + {o}, c[1..]);
        assert ([o] + rest)[1..] == rest;
        assert Backwards(rest) + ([o] + now) == (Backwards(rest) + [o]) + now;
      }
    }
  }

  /** All chains of a table one after the other. */
  function Flat(t: seq<seq<Obj>>): seq<Obj> { if t == [] then [] else t[0] + Flat(t[1..]) }

  lemma {:induction false} BackwardsOfBoth(a: seq<Obj>, b: seq<Obj>)
    ensures Backwards(a + b) == Backwards(b) + Backwards(a)
  {
    if a == [] { assert a + b == b; }
    else {
      BackwardsOfBoth(a[1..], b);
      assert (a + b)[1..] == a[1..] + b;
    }
  }

  lemma {:induction false} FreshOfBoth(marks: set<Obj>, a: seq<Obj>, b: seq<Obj>, now: seq<Obj>)
    ensures Fresh(marks, a + b) == Fresh(marks, a) + Fresh(Enqueue(marks, a, now).0, b)
    decreases |a|
  {
    if a == [] { assert a + b == b; }
    else {
      var o := a[0];
      assert (a + b)[1..] == a[1..] + b;
      if o in marks { FreshOfBoth(marks, a[1..], b, now); } else { FreshOfBoth(marks + {o}, a[1..], b, [o] + now); }
    }
  }

  lemma {:induction false} TableQueuedBackwards(marks: set<Obj>, t: seq<seq<Obj>>, now: seq<Obj>)
    ensures EnqueueTable(marks, t, now).2 == Backwards(Fresh(marks, Flat(t))) + now
    decreases |t|
  {
    if t != [] {
      var (m, kept, q) := Enqueue(marks, t[0], now);
      QueuedBackwards(marks, t[0], now);
      TableQueuedBackwards(m, t[1..], q);
      FreshOfBoth(marks, t[0], Flat(t[1..]), now);
      BackwardsOfBoth(Fresh(marks, t[0]), Fresh(m, Flat(t[1..])));
    }
  }

  ghost predicate TableQueued(marks: set<Obj>, t: seq<seq<Obj>>, now: seq<Obj>, r: (set<Obj>, seq<seq<Obj>>, seq<Obj>), add: seq<Obj>) {
    && r.2 == add + now && (forall i, j :: 0 <= i < j < |add| ==> add[i] != add[j])
    && (forall o :: o in add <==> InTable(t, o) && o !in marks)
    && (forall o :: o in r.0 <==> o in marks || InTable(t, o))
    && |r.1| == |t| && (forall o :: InTable(r.1, o) ==> InTable(t, o))
    && (forall o :: InTable(t, o) && o in marks ==> InTable(r.1, o))
  }

  lemma InTableSplit(t: seq<seq<Obj>>, o: Obj)
    requires t != []
    ensures InTable(t, o) <==> o in t[0] || InTable(t[1..], o)
  {
    if InTable(t[1..], o) {
      var i :| 0 <= i < |t[1..]| && o in t[1..][i];
      assert o in t[i + 1];
    }
    if InTable(t, o) && o !in t[0] {
      var i :| 0 <= i < |t| && o in t[i];
      assert o in t[1..][i - 1];
    }
  }

  lemma {:induction false} EnqueueTableQueues(marks: set<Obj>, t: seq<seq<Obj>>, now: seq<Obj>) returns (add: seq<Obj>)
    ensures TableQueued(marks, t, now, EnqueueTable(marks, t, now), add)
    decreases |t|
  {
    if t == [] { add := []; }
    else {
      var first := EnqueueQueues(marks, t[0], now);
      var (m, kept, q) := Enqueue(marks, t[0], now);
      var more := EnqueueTableQueues(m, t[1..], q);
      add := more + first;
      var r := EnqueueTable(marks, t, now);
      assert r.1[0] == kept && r.1[1..] == EnqueueTable(m, t[1..], q).1;
      assert more + (first + now) == add + now;
      hide InTable;
      forall o ensures InTable(t, o) <==> o in t[0] || InTable(t[1..], o) { InTableSplit(t, o); }
      forall o ensures InTable(r.1, o) <==> o in kept || InTable(r.1[1..], o) { InTableSplit(r.1, o); }
      forall i, j | 0 <= i < j < |add| ensures add[i] != add[j] {
        if i < |more| <= j { assert more[i] in more && first[j - |more|] in first; }
      }
    }
  }

  // ------------------------------------------------------------------------------ order

  /** A path of at least one pointer from a to b. */
  ghost predicate Leads(w: World, p: seq<Obj>, a: Obj, b: Obj) {
    && |p| >= 2 && p[0] == a && p[|p| - 1] == b
    && forall k :: 0 <= k < |p| - 1 ==> Points(w, InHeap(p[k]), p[k + 1])
  }

  lemma {:induction false} PathsMarked(s: S, p: seq<Obj>, a: Obj, b: Obj, k: nat)
    requires Complete(s) && Leads(s.w, p, a, b) && TargetsMarked(s, a) && 1 <= k < |p|
    ensures p[k] in s.marks
  {
    assert Points(s.w, InHeap(p[k - 1]), p[k - 1 + 1]);
    if k > 1 {
      PathsMarked(s, p, a, b, k - 1);
      CompleteTargets(s, p[k - 1]);
    }
  }

  /** The objects that a call of GC_finalize queues. */
  ghost predicate NewlyQueued(f: Fin, g: Fin, o: Obj) {
    exists i :: 0 <= i < |g.now| - |f.now| && g.now[i] == o
  }

  /** What GC_finalize does to marks, queue and table of finalizable objects. */
  lemma FinalizeQueues(f: Fin, ok: (Obj, nat) -> bool) returns (add: seq<Obj>)
    requires Ready(f)
    ensures var s, g := Revived(f, ok), Finalize(f, ok);
      && Complete(s) && s.w == Unlinked(f).w && f.s.marks <= s.marks && (forall o :: InTable(f.fo, o) ==> TargetsMarked(s, o))
      && TableQueued(s.marks, f.fo, f.now, (g.s.marks, g.fo, g.now), add)
      && g.s.w == ClearedTable(s.w, g.s.marks, f.ll, 0) && Fewer(s.w, g.s.w)
  {
    UnlinkedComplete(f);
    MarkTableCompletes(Clean(Unlinked(f)), f.fo, 0, ok);
    var s := Revived(f, ok);
    forall o | InTable(f.fo, o) ensures TargetsMarked(s, o) {
      var i :| 0 <= i < |f.fo| && o in f.fo[i];
    }
    add := EnqueueTableQueues(s.marks, f.fo, f.now);
    ClearedTableFewer(s.w, Finalize(f, ok).s.marks, f.ll, 0);
  }

  /** The order of finalization: no queued object can be reached by a path of at least one pointer from itself
      or from another object queued by the same call, neither once short links have disappeared nor at the end. */
  lemma FinalizationOrder(f: Fin, ok: (Obj, nat) -> bool, a: Obj, b: Obj, p: seq<Obj>)
    requires Ready(f) && NewlyQueued(f, Finalize(f, ok), a) && NewlyQueued(f, Finalize(f, ok), b)
    ensures !Leads(Revived(f, ok).w, p, a, b) && !Leads(Finalize(f, ok).s.w, p, a, b)
  {
    var s, g := Revived(f, ok), Finalize(f, ok);
    var add := FinalizeQueues(f, ok);
    QueuedIs(f, g, add, a);
    QueuedIs(f, g, add, b);
    if Leads(g.s.w, p, a, b) { FewerLeads(s.w, g.s.w, p, a, b); }
    if Leads(s.w, p, a, b) { PathsMarked(s, p, a, b, |p| - 1); }
  }

  lemma FewerLeads(w: World, v: World, p: seq<Obj>, a: Obj, b: Obj)
    requires Fewer(w, v) && Leads(v, p, a, b)
    ensures Leads(w, p, a, b)
  {
    forall i | 0 <= i < |p| - 1 ensures Points(w, InHeap(p[i]), p[i + 1]) { FewerPoints(w, v, InHeap(p[i]), p[i + 1]); }
  }

  lemma QueuedIs(f: Fin, g: Fin, add: seq<Obj>, o: Obj)
    requires g.now == add + f.now
    ensures NewlyQueued(f, g, o) <==> o in add
  {
    if o in add {
      var i :| 0 <= i < |add| && add[i] == o;
      assert g.now[i] == o;
    }
    if NewlyQueued(f, g, o) {
      var i :| 0 <= i < |g.now| - |f.now| && g.now[i] == o;
      assert add[i] == o;
    }
  }

  /** Exactly the finalizable objects that are unmarked after the marking pass are queued, each once, in front of
      those still waiting; they leave the table, and all others stay in it. */
  lemma UnmarkedAreQueued(f: Fin, ok: (Obj, nat) -> bool, o: Obj)
    requires Ready(f)
    ensures var s, g := Revived(f, ok), Finalize(f, ok);
      && (NewlyQueued(f, g, o) <==> InTable(f.fo, o) && o !in s.marks)
      && |f.now| <= |g.now| && g.now[|g.now| - |f.now|..] == f.now
      && (forall i, j :: 0 <= i < j < |g.now| - |f.now| ==> g.now[i] != g.now[j])
      && (InTable(f.fo, o) && o in s.marks ==> InTable(g.fo, o)) && (InTable(g.fo, o) ==> InTable(f.fo, o))
  {
    var add := FinalizeQueues(f, ok);
    QueuedIs(f, Finalize(f, ok), add, o);
  }

  /** The order in which the objects stand in the queue: the object met last, when the table is read from its first
      chain to its last, comes first, and all of them come before those already waiting. */
  lemma QueueOrder(f: Fin, ok: (Obj, nat) -> bool)
    requires Ready(f)
    ensures Finalize(f, ok).now == Backwards(Fresh(Revived(f, ok).marks, Flat(f.fo))) + f.now
  {
    TableQueuedBackwards(Revived(f, ok).marks, f.fo, f.now);
  }

  /** At the end the marked objects include the queued ones and are closed under pointers, no mark is going on, and what the
      program has written since the last one is still known. */
  lemma MarksClosed(f: Fin, ok: (Obj, nat) -> bool, a: Obj, b: Obj)
    requires Ready(f)
    ensures var g := Finalize(f, ok);
      && f.s.marks <= g.s.marks && (NewlyQueued(f, g, a) ==> a in g.s.marks)
      && (a in g.s.marks && Points(g.s.w, InHeap(a), b) ==> b in g.s.marks)
      && g.s.state == None && g.s.stack == [] && g.s.dirty == f.s.dirty && g.s.rootDirty == f.s.rootDirty
  {
    var s, g := Revived(f, ok), Finalize(f, ok);
    var add := FinalizeQueues(f, ok);
    QueuedIs(f, g, add, a);
    if a in g.s.marks && Points(g.s.w, InHeap(a), b) {
      FewerPoints(s.w, g.s.w, InHeap(a), b);
      if a in s.marks { CompleteTargets(s, a); }
    }
  }

  lemma FewerPoints(w: World, t: World, a: Area, q: Obj)
    requires Fewer(w, t) && Points(t, a, q)
    ensures Points(w, a, q)
  {
    var j :| 0 <= j < |Cells(t, a)| && Cells(t, a)[j] == Ref(q) && Valid(t, q);
    assert Cells(w, a)[j] == Ref(q);
  }

  // ------------------------------------------------------------------------------ links

  ghost predicate LinkIn(t: seq<seq<Link>>, l: Link) { exists i :: 0 <= i < |t| && l in t[i] }

  lemma {:induction false} KeptIs(marks: set<Obj>, c: seq<Link>, dangling: bool, l: Link)
    ensures l in Kept(marks, c, dangling) <==> l in c && Stays(marks, l, dangling)
  {
    if c != [] {
      KeptIs(marks, c[1..], dangling, l);
      assert l in c <==> l == c[0] || l in c[1..];
    }
  }

  lemma KeptTableIs(marks: set<Obj>, t: seq<seq<Link>>, dangling: bool, l: Link)
    ensures LinkIn(KeptTable(marks, t, dangling), l) <==> LinkIn(t, l) && Stays(marks, l, dangling)
  {
    var r := KeptTable(marks, t, dangling);
    if LinkIn(r, l) {
      var i :| 0 <= i < |r| && l in r[i];
      KeptIs(marks, t[i], dangling, l);
      assert l in t[i];
    }
    if LinkIn(t, l) && Stays(marks, l, dangling) {
      var i :| 0 <= i < |t| && l in t[i];
      KeptIs(marks, t[i], dangling, l);
      assert l in r[i];
    }
  }

  /** Some link of the chain, or table, at this place is to disappear. */
  ghost predicate Doomed(marks: set<Obj>, c: seq<Link>, loc: Loc) { exists l :: l in c && l.loc == loc && l.obj !in marks }

  ghost predicate DoomedIn(marks: set<Obj>, t: seq<seq<Link>>, i: nat, loc: Loc) {
    exists k :: i <= k < |t| && Doomed(marks, t[k], loc)
  }

  lemma ReadCleared(w: World, loc: Loc, other: Loc)
    ensures ReadLoc(ClearLoc(w, loc), other) == if loc == other then Data else ReadLoc(w, other)
  {}

  lemma {:induction false} ReadChain(w: World, marks: set<Obj>, c: seq<Link>, loc: Loc)
    ensures ReadLoc(Cleared(w, marks, c), loc) == if Doomed(marks, c, loc) then Data else ReadLoc(w, loc)
    decreases |c|
  {
    if c != [] {
      var l := c[0];
      var t := if Stays(marks, l, false) then w else ClearLoc(w, l.loc);
      ReadCleared(w, l.loc, loc);
      ReadChain(t, marks, c[1..], loc);
      assert forall x :: x in c <==> x == l || x in c[1..];
      assert Doomed(marks, c, loc) <==> (l.loc == loc && l.obj !in marks) || Doomed(marks, c[1..], loc);
    }
  }

  lemma {:induction false} ReadTable(w: World, marks: set<Obj>, t: seq<seq<Link>>, i: nat, loc: Loc)
    ensures ReadLoc(ClearedTable(w, marks, t, i), loc) == if DoomedIn(marks, t, i, loc) then Data else ReadLoc(w, loc)
    decreases |t| - i
  {
    if i < |t| {
      ReadChain(w, marks, t[i], loc);
      ReadTable(Cleared(w, marks, t[i]), marks, t, i + 1, loc);
      assert DoomedIn(marks, t, i, loc) <==> Doomed(marks, t[i], loc) || DoomedIn(marks, t, i + 1, loc);
    }
  }

  /** Short and long links.  A short link is set to NULL if its object was unmarked when GC_finalize began, even if
      the object is then kept for its finalizer; a long link if its object is still unmarked at the end; and
      nothing else in memory changes. */
  lemma LinksDisappear(f: Fin, ok: (Obj, nat) -> bool, loc: Loc)
    requires Ready(f)
    ensures var g := Finalize(f, ok);
      ReadLoc(g.s.w, loc) ==
        if DoomedIn(f.s.marks, f.dl, 0, loc) || DoomedIn(g.s.marks, f.ll, 0, loc) then Data else ReadLoc(f.s.w, loc)
  {
    var s, g := Revived(f, ok), Finalize(f, ok);
    var add := FinalizeQueues(f, ok);
    ReadTable(f.s.w, f.s.marks, f.dl, 0, loc);
    ReadTable(s.w, g.s.marks, f.ll, 0, loc);
  }

  /** The tables afterwards: exactly the links that have not disappeared and whose place, if it is in a heap
      object, is not about to be reclaimed; hence no entry has an unmarked object or an unmarked place. */
  lemma TablesAreClean(f: Fin, ok: (Obj, nat) -> bool, l: Link)
    requires Ready(f)
    ensures var g := Finalize(f, ok);
      && (LinkIn(g.dl, l) <==> LinkIn(f.dl, l) && l.obj in f.s.marks && (l.loc.InObject? ==> l.loc.o in g.s.marks))
      && (LinkIn(g.ll, l) <==> LinkIn(f.ll, l) && l.obj in g.s.marks && (l.loc.InObject? ==> l.loc.o in g.s.marks))
      && (LinkIn(g.dl, l) || LinkIn(g.ll, l) ==> l.obj in g.s.marks)
  {
    var g := Finalize(f, ok);
    var add := FinalizeQueues(f, ok);
    KeptTableIs(f.s.marks, f.dl, false, l);
    KeptTableIs(g.s.marks, KeptTable(f.s.marks, f.dl, false), true, l);
    KeptTableIs(g.s.marks, f.ll, false, l);
    KeptTableIs(g.s.marks, KeptTable(g.s.marks, f.ll, false), true, l);
  }
}
