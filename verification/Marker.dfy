/** gc/mark.c as it works: a mark stack in an array with a moving top, mark bits set in place, and the
    global variables of the collector as fields.  Every method is tied to the function of MarkModel that
    the invariants and theorems are about. */
module MarkerObject {
  import opened MarkModel

  class Marker {
    var world: World
    var marks: set<Obj>
    var stack: array<Entry>      // GC_mark_stack; its length is GC_mark_stack_size
    var top: nat                 // number of entries in use
    const init: nat              // INITIAL_MARK_STACK_SIZE
    var tooSmall: bool
    var state: MarkState
    var scanPtr: nat
    var objectsAreMarked: bool
    var dirty: set<nat>
    var grungy: set<nat>
    var rootDirty: set<nat>      // the same for pages of static data
    var rootGrungy: set<nat>

    ghost predicate Valid()
      reads this
    {
      16 <= init <= stack.Length && top <= stack.Length
    }

    function View(): S
      reads this, stack
      requires top <= stack.Length
    {
      S(world, marks, stack[..top], init, stack.Length, tooSmall, state, scanPtr, objectsAreMarked, dirty, grungy,
        rootDirty, rootGrungy)
    }

    /** GC_mark_init on an empty heap. */
    constructor (w: World, initialSize: nat)
      requires 16 <= initialSize
      ensures Valid() && fresh(stack)
      ensures View() == S(w, {}, [], initialSize, initialSize, false, None, 0, false, {}, {}, {}, {})
    {
      world, marks := w, {};
      stack := new Entry[initialSize](_ => Entry(Root(0), 0));
      top, init := 0, initialSize;
      tooSmall, state, scanPtr, objectsAreMarked := false, None, 0, false;
      dirty, grungy, rootDirty, rootGrungy := {}, {}, {}, {};
    }

    /** Store an entry at the next free place; when there is none, throw entries away first. */
    method PushEntry(e: Entry)
      requires Valid()
      modifies this`top, this`state, this`tooSmall, stack
      ensures Valid() && View() == MarkModel.PushEntry(old(View()), e)
    {
      if top < stack.Length {
        stack[top] := e;
        top := top + 1;
      } else {
        state := Invalid;
        tooSmall := true;
        top := top - init / 8;
        stack[top] := e;
        top := top + 1;
      }
    }

    /** GC_push_obj */
    method PushObj(o: Obj)
      requires Valid()
      modifies this`top, this`state, this`tooSmall, stack
      ensures Valid() && View() == MarkModel.PushObj(old(View()), o)
    {
      if Scanned(world, o) { PushEntry(Entry(InHeap(o), 0)); }
    }

    /** PUSH_CONTENTS */
    method PushContents(c: Cell)
      requires Valid()
      modifies this`top, this`state, this`tooSmall, this`marks, stack
      ensures Valid() && View() == MarkModel.PushContents(old(View()), c)
    {
      if c.Ref? && MarkModel.Valid(world, c.target) && c.target !in marks {
        marks := marks + {c.target};
        PushObj(c.target);
      }
    }

    /** Consider the words [lo, hi) of an area, in order. */
    method PushRange(a: Area, lo: nat, hi: nat)
      requires Valid() && lo <= hi <= |Cells(world, a)|
      modifies this`top, this`state, this`tooSmall, this`marks, stack
      ensures Valid() && View() == PushCells(old(View()), Cells(old(world), a)[lo..hi])
    {
      ghost var part := Cells(world, a)[lo..hi];
      for p := lo to hi
        invariant Valid() && world == old(world)
        invariant PushCells(View(), part[p - lo..]) == PushCells(old(View()), part)
      {
        assert part[p - lo..][0] == Cells(world, a)[p];
        assert part[p - lo..][1..] == part[p + 1 - lo..];
        PushContents(Cells(world, a)[p]);
      }
    }

    /** One turn of GC_mark_from's loop: the words of the top entry, or a first part of them if there
        are many, in which case the entry is put back shortened. */
    method MarkFromTop() returns (scanned: nat)
      requires Valid() && top > 0
      modifies this`top, this`state, this`tooSmall, this`marks, stack
      ensures Valid() && View() == ScanTop(old(View())) && scanned == Span(old(View()))
    {
      ghost var before := View();
      var e := stack[top - 1];
      var n := |Cells(world, e.area)|;
      assert before.stack[|before.stack| - 1] == e;
      if n <= e.lo {
        top := top - 1;
        scanned := 0;
      } else if n - e.lo < SPLIT {
        top := top - 1;
        assert stack[..top] == before.stack[..|before.stack| - 1];
        PushRange(e.area, e.lo, n);
        scanned := n - e.lo;
      } else {
        scanned := SPLIT - 1;
        stack[top - 1] := Entry(e.area, e.lo + scanned);
        assert stack[..top] == before.stack[..|before.stack| - 1] + [Entry(e.area, e.lo + scanned)];
        PushRange(e.area, e.lo, e.lo + scanned);
      }
    }

    /** GC_mark_from on the collector's own mark stack. */
    method MarkFromMarkStack()
      requires Valid()
      modifies this`top, this`state, this`tooSmall, this`marks, this`objectsAreMarked, stack
      ensures Valid() && View() == MarkFromStack(old(View()))
    {
      var credit: int := PAGE_WORDS;
      objectsAreMarked := true;
      while top > 0 && credit >= 0
        invariant Valid()
        invariant MarkFrom(View(), credit) == MarkFromStack(old(View()))
        decreases if credit < 0 then 0 else credit + 1, top
      {
        ghost var before := View();
        var scanned := MarkFromTop();
        assert scanned == 0 ==> View() == before.(stack := before.stack[..|before.stack| - 1]);
        credit := credit - scanned;
      }
    }

    /** GC_push_marked */
    method PushMarked(b: nat)
      requires Valid() && b < |world.blocks|
      modifies this`top, this`state, this`tooSmall, this`objectsAreMarked, stack
      ensures Valid() && View() == MarkModel.PushMarked(old(View()), b)
    {
      if !ScannedKind(world.blocks[b].kind) || BlockEmpty(View(), b) { return; }
      objectsAreMarked := true;
      for i := 0 to world.blocks[b].objs
        invariant Valid()
        invariant PushMarkedFrom(View(), b, i) == MarkModel.PushMarked(old(View()), b)
      {
        if Obj(b, i) in marks { PushObj(Obj(b, i)); }
      }
    }

    /** GC_push_next_marked, GC_push_next_marked_dirty, GC_push_next_marked_uncollectable: find the next
        block the scan is interested in, push its marked objects, return the place after it. */
    method PushNextMarked(f: Filter) returns (next: nat)
      requires Valid()
      modifies this`top, this`state, this`tooSmall, this`objectsAreMarked, stack
      ensures Valid() && View().(scan := next) == PushNext(old(View()), f)
      ensures scanPtr == old(scanPtr)
    {
      var h := scanPtr;
      while h < |world.blocks| && !Chosen(View(), f, h)
        invariant NextChosen(View(), f, h) == NextChosen(old(View()), f, scanPtr)
        invariant View() == old(View())
      {
        h := h + 1;
      }
      if h >= |world.blocks| { return 0; }
      PushMarked(h);
      return h + 1;
    }

    /** One root area. */
    method PushRoot(r: nat)
      requires Valid()
      modifies this`top, this`state, this`tooSmall, this`marks, stack
      ensures Valid() && View() == MarkModel.PushRoot(old(View()), r)
    {
      if top - 1 < stack.Length - init / 8 {
        PushEntry(Entry(Root(r), 0));
      } else {
        var n := |Cells(world, Root(r))|;
        assert Cells(world, Root(r))[0..n] == Cells(world, Root(r));
        PushRange(Root(r), 0, n);
      }
    }

    /** GC_push_conditional_static over the pages of static data, and the other root areas the call can see. */
    method PushRoots(all: bool, rs: seq<nat>)
      requires Valid() && (all <==> state != PushRescuers)
      modifies this`top, this`state, this`tooSmall, this`marks, stack
      ensures Valid() && View() == MarkModel.PushRoots(old(View()), StaticPages(old(View()), old(world.statics)) + rs)
    {
      hide MarkModel.PushRoots, MarkModel.PushRoot, Cells;
      ghost var s := View();
      PushRootsNone(s);
      for r := 0 to world.statics
        invariant Valid() && world == s.w && rootGrungy == s.rootGrungy
        invariant View() == MarkModel.PushRoots(s, StaticPages(s, r))
      {
        PushRootsLast(s, StaticPages(s, r), r);
        assert StaticPages(s, r) + [] == StaticPages(s, r);
        if all || r in rootGrungy { PushRoot(r); }
      }
      ghost var pages := StaticPages(s, world.statics);
      assert pages + rs[..0] == pages;
      for i := 0 to |rs|
        invariant Valid() && world == s.w
        invariant View() == MarkModel.PushRoots(s, pages + rs[..i])
      {
        PushRootsLast(s, pages + rs[..i], rs[i]);
        assert pages + rs[..i + 1] == (pages + rs[..i]) + [rs[i]];
        PushRoot(rs[i]);
      }
      assert rs[..|rs|] == rs;
    }

    /** The common tail of three of GC_mark_some's cases. */
    method RootsAndAdvance(all: bool, rs: seq<nat>)
      requires Valid() && (all <==> state != PushRescuers)
      modifies this`top, this`state, this`tooSmall, this`marks, this`objectsAreMarked, stack
      ensures Valid() && View() == MarkModel.RootsAndAdvance(old(View()), rs)
    {
      PushRoots(all, rs);
      objectsAreMarked := true;
      if state != Invalid { state := RootsPushed; }
    }

    /** alloc_mark_stack; `ok` tells whether the new stack could be allocated. */
    method AllocMarkStack(n: nat, ok: bool)
      requires Valid() && init <= n
      modifies this`stack, this`top, this`tooSmall
      ensures Valid() && (stack == old(stack) || fresh(stack))
      ensures View() == old(View()).(tooSmall := false, stack := [], cap := if ok then n else old(stack.Length))
    {
      tooSmall := false;
      if ok { stack := new Entry[n](_ => Entry(Root(0), 0)); }
      top := 0;
    }

    /** GC_mark_some in state MS_PUSH_RESCUERS */
    method PushRescuersStep(rs: seq<nat>)
      requires Valid() && state == PushRescuers
      modifies this`top, this`state, this`tooSmall, this`marks, this`objectsAreMarked, this`scanPtr, stack
      ensures Valid() && (View(), false) == MarkModel.MarkSome(old(View()), rs, false)
    {
      if top - 1 >= stack.Length - init / 2 {
        tooSmall := true;
        MarkFromMarkStack();
      } else {
        scanPtr := PushNextMarked(OnlyGrungy);
        if scanPtr == 0 { RootsAndAdvance(false, rs); }
      }
    }

    /** GC_mark_some in state MS_PUSH_UNCOLLECTABLE */
    method PushUncollectableStep(rs: seq<nat>)
      requires Valid() && state == PushUncollectable
      modifies this`top, this`state, this`tooSmall, this`marks, this`objectsAreMarked, this`scanPtr, stack
      ensures Valid() && (View(), false) == MarkModel.MarkSome(old(View()), rs, false)
    {
      if top - 1 >= stack.Length / 4 {
        MarkFromMarkStack();
      } else {
        scanPtr := PushNextMarked(OnlyUncollectable);
        if scanPtr == 0 { RootsAndAdvance(true, rs); }
      }
    }

    /** The heap scan for marked objects in states MS_INVALID and MS_PARTIALLY_INVALID. */
    method ScanStep(rs: seq<nat>)
      requires Valid()
      modifies this`top, this`state, this`tooSmall, this`marks, this`objectsAreMarked, this`scanPtr, stack
      ensures Valid()
      ensures var t := PushNext(old(View()), AnyAllocated);
        View() == if t.scan == 0 && t.state == PartiallyInvalid then MarkModel.RootsAndAdvance(t, rs) else t
    {
      scanPtr := PushNextMarked(AnyAllocated);
      if scanPtr == 0 && state == PartiallyInvalid { RootsAndAdvance(true, rs); }
    }

    /** GC_mark_some in states MS_INVALID and MS_PARTIALLY_INVALID */
    method InvalidStep(rs: seq<nat>, ok: bool)
      requires Valid() && (state == Invalid || state == PartiallyInvalid)
      modifies this`top, this`state, this`tooSmall, this`marks, this`objectsAreMarked, this`scanPtr,
        this`stack, stack
      ensures Valid() && (stack == old(stack) || fresh(stack))
      ensures (View(), false) == MarkModel.MarkSome(old(View()), rs, ok)
    {
      if !objectsAreMarked {
        state := PushUncollectable;
      } else if top > 0 {
        MarkFromMarkStack();
      } else {
        if scanPtr == 0 && state == Invalid {
          if tooSmall { AllocMarkStack(2 * stack.Length, ok); }
          state := PartiallyInvalid;
        }
        ScanStep(rs);
      }
    }

    /** GC_mark_some */
    method MarkSome(rs: seq<nat>, ok: bool) returns (done: bool)
      requires Valid()
      modifies this`top, this`state, this`tooSmall, this`marks, this`objectsAreMarked, this`scanPtr,
        this`stack, stack
      ensures Valid() && (stack == old(stack) || fresh(stack))
      ensures (View(), done) == MarkModel.MarkSome(old(View()), rs, ok)
    {
      match state {
        case None =>
        case PushRescuers => PushRescuersStep(rs);
        case PushUncollectable => PushUncollectableStep(rs);
        case RootsPushed =>
          if top > 0 {
            MarkFromMarkStack();
          } else {
            state := None;
            if tooSmall { AllocMarkStack(2 * stack.Length, ok); }
            return true;
          }
        case _ => InvalidStep(rs, ok);
      }
      return false;
    }

    /** GC_clear_marks: unmark the objects of all collectable blocks. */
    method ClearMarks()
      requires Valid()
      modifies this`marks, this`objectsAreMarked, this`state, this`scanPtr
      ensures Valid() && View() == MarkModel.ClearMarks(old(View()))
    {
      marks := set o | o in marks && o.blk < |world.blocks| && IsUncollectable(world.blocks[o.blk].kind);
      objectsAreMarked := false;
      state := Invalid;
      scanPtr := 0;
    }

    /** GC_invalidate_mark_state */
    method InvalidateMarkState()
      requires Valid()
      modifies this`state, this`top
      ensures Valid() && View() == Invalidate(old(View()))
    {
      state := Invalid;
      top := 0;
    }

    /** GC_initiate_gc.  The two states it accepts are the only ones in which it is ever called; in any
        other it would abort. */
    method InitiateGc(incremental: bool)
      requires Valid() && (state == None || state == Invalid)
      modifies this`state, this`scanPtr, this`dirty, this`grungy, this`rootDirty, this`rootGrungy
      ensures Valid() && View() == MarkModel.InitiateGc(old(View()), incremental)
    {
      if incremental {
        if state != Invalid { grungy, rootGrungy := dirty, rootDirty; }
        dirty, rootDirty := {}, {};
      }
      if state == None { state := PushRescuers; }
      scanPtr := 0;
    }
  }

  lemma PushRootsNone(s: S)
    ensures MarkModel.PushRoots(s, []) == s && StaticPages(s, 0) == []
  {}

  lemma {:induction false} PushRootsLast(s: S, rs: seq<nat>, r: nat)
    ensures MarkModel.PushRoots(s, rs + [r]) == MarkModel.PushRoot(MarkModel.PushRoots(s, rs), r)
    decreases rs
  {
    if rs == [] {
      assert rs + [r] == [r];
    } else {
      assert (rs + [r])[1..] == rs[1..] + [r];
      PushRootsLast(MarkModel.PushRoot(s, rs[0]), rs[1..], r);
    }
  }
}
