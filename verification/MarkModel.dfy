/** The sequential marker of gc/mark.c as functions on a state value.

    Pages, words and descriptors are abstracted to the level the marker's own
    invariant speaks about: blocks in address order, objects inside blocks, and
    for every scanned area the sequence of words the marker looks at.  A word is
    either plain data or refers to an object; whether a reference is valid is
    decided by the marker at the moment it considers the word, as in the C code.
 */
module MarkModel {

  /** Kinds of blocks; `Free` is an unallocated block, which has a header but no objects. */
  datatype Kind = Free | PtrFree | Normal | Uncollectable | AtomicUncollectable

  datatype Block = Block(kind: Kind, objs: nat)

  /** An object is named by the position of its block in the address order and its position in the block. */
  datatype Obj = Obj(blk: nat, idx: nat)

  datatype Cell = Data | Ref(target: Obj)

  /** Things that are scanned: heap objects, and root areas (static data, stacks, registers). */
  datatype Area = InHeap(o: Obj) | Root(r: nat)

  /** A mark stack entry: the words of `area` from `lo` on still have to be considered. */
  datatype Entry = Entry(area: Area, lo: nat)

  /** The heap and the roots.  The first `statics` root areas are the pages of static data for which dirty bits are kept
      (none if GC_is_vdb_for_static_roots says no); the others are stacks, registers and the like. */
  datatype World = World(blocks: seq<Block>, mem: map<Obj, seq<Cell>>, roots: seq<seq<Cell>>, statics: nat)

  datatype MarkState = None | PushRescuers | PushUncollectable | RootsPushed | PartiallyInvalid | Invalid

  /** The marker's globals.  `init` is INITIAL_MARK_STACK_SIZE, `cap` is GC_mark_stack_size, `scan` is
      GC_scan_ptr: 0 stands for NULL and k + 1 for the address just past block k. */
  datatype S = S(w: World, marks: set<Obj>, stack: seq<Entry>, init: nat, cap: nat, tooSmall: bool,
                 state: MarkState, scan: nat, objsMarked: bool, dirty: set<nat>, grungy: set<nat>,
                 rootDirty: set<nat>, rootGrungy: set<nat>)

  /** SPLIT_RANGE_WORDS */
  const SPLIT: nat := 128
  /** HBLKSIZE in words: the credit GC_mark_from starts with. */
  const PAGE_WORDS: nat := 512

  function MaxObjs(s: S): nat { s.init / 2 }

  /** GC_MARK_STACK_DISCARDS */
  function Discards(s: S): nat { s.init / 8 }

  predicate IsUncollectable(k: Kind) { k == Uncollectable || k == AtomicUncollectable }

  /** Objects of these kinds have a nonzero descriptor. */
  predicate ScannedKind(k: Kind) { k == Normal || k == Uncollectable }

  predicate Valid(w: World, o: Obj) {
    o.blk < |w.blocks| && o.idx < w.blocks[o.blk].objs && w.blocks[o.blk].kind != Free
  }

  predicate Scanned(w: World, o: Obj) {
    o.blk < |w.blocks| && ScannedKind(w.blocks[o.blk].kind)
  }

  /** The words the marker considers when it scans an area. */
  function Cells(w: World, a: Area): seq<Cell> {
    match a
    case Root(r) => if r < |w.roots| then w.roots[r] else []
    case InHeap(o) => if Scanned(w, o) && o in w.mem then w.mem[o] else []
  }

  /** What the collector's configuration guarantees about its tables: the stack can take the objects of
      one more block whenever the marker decides to push one. */
  predicate WF(s: S) {
    && 16 <= s.init <= s.cap
    && |s.stack| <= s.cap
    && (forall b :: 0 <= b < |s.w.blocks| ==> s.w.blocks[b].objs <= MaxObjs(s))
    && (forall o :: o in s.marks ==> Valid(s.w, o))
  }

  // ------------------------------------------------------------------ pushing

  /** GC_push_obj's stack update, with GC_signal_mark_stack_overflow when the stack is full. */
  function PushEntry(s: S, e: Entry): S {
    if |s.stack| < s.cap then s.(stack := s.stack + [e])
    else
      var keep: nat := if Discards(s) <= s.cap then s.cap - Discards(s) else 0;
      s.(state := Invalid, tooSmall := true, stack := s.stack[..keep] + [e])
  }

  function PushObj(s: S, o: Obj): S {
    if Scanned(s.w, o) then PushEntry(s, Entry(InHeap(o), 0)) else s
  }

  /** PUSH_CONTENTS: mark the target if it is a valid unmarked object, and push it. */
  function PushContents(s: S, c: Cell): S {
    match c
    case Data => s
    case Ref(q) => if !Valid(s.w, q) || q in s.marks then s else PushObj(s.(marks := s.marks + {q}), q)
  }

  function PushCells(s: S, cells: seq<Cell>): S
    decreases cells
  {
    if cells == [] then s else PushCells(PushContents(s, cells[0]), cells[1..])
  }

  // ----------------------------------------------------------------- scanning

  /** How many words one turn of GC_mark_from's loop considers. */
  function Span(s: S): nat
    requires s.stack != []
  {
    var e := s.stack[|s.stack| - 1];
    var n := |Cells(s.w, e.area)|;
    if n <= e.lo then 0 else if n - e.lo < SPLIT then n - e.lo else SPLIT - 1
  }

  /** The words one turn considers: all that are left of the top entry, or a first part of them. */
  function TopPart(s: S): seq<Cell>
    requires s.stack != []
  {
    var e := s.stack[|s.stack| - 1];
    var cells := Cells(s.w, e.area);
    if Span(s) == 0 then [] else cells[e.lo..e.lo + Span(s)]
  }

  /** The stack without those words: a long range is put back shortened, a short one is popped. */
  function TopRest(s: S): S
    requires s.stack != []
  {
    var e := s.stack[|s.stack| - 1];
    var below := s.stack[..|s.stack| - 1];
    if Span(s) != 0 && e.lo + Span(s) < |Cells(s.w, e.area)|
    then s.(stack := below + [Entry(e.area, e.lo + Span(s))])
    else s.(stack := below)
  }

  /** One turn of GC_mark_from's loop. */
  function ScanTop(s: S): S
    requires s.stack != []
  {
    PushCells(TopRest(s), TopPart(s))
  }

  /** GC_mark_from: runs until the stack is empty or the credit is used up. */
  function MarkFrom(s: S, credit: int): S
    decreases if credit < 0 then 0 else credit + 1, |s.stack|
  {
    if s.stack == [] || credit < 0 then s
    else MarkFrom(ScanTop(s), credit - Span(s))
  }

  /** MARK_FROM_MARK_STACK */
  function MarkFromStack(s: S): S {
    MarkFrom(s.(objsMarked := true), PAGE_WORDS)
  }

  // ------------------------------------------------------- pushing whole blocks

  predicate BlockEmpty(s: S, b: nat) { forall o :: o in s.marks ==> o.blk != b }

  /** The loop of GC_push_marked over the objects i, i + 1, ... of block b. */
  function PushMarkedFrom(s: S, b: nat, i: nat): S
    requires b < |s.w.blocks|
    decreases s.w.blocks[b].objs - i
  {
    if s.w.blocks[b].objs <= i then s
    else if Obj(b, i) in s.marks then PushMarkedFrom(PushObj(s, Obj(b, i)), b, i + 1)
    else PushMarkedFrom(s, b, i + 1)
  }

  function PushMarked(s: S, b: nat): S
    requires b < |s.w.blocks|
  {
    if !ScannedKind(s.w.blocks[b].kind) || BlockEmpty(s, b) then s
    else PushMarkedFrom(s.(objsMarked := true), b, 0)
  }

  /** Which blocks a heap scan stops at. */
  datatype Filter = AnyAllocated | OnlyGrungy | OnlyUncollectable

  predicate Chosen(s: S, f: Filter, b: nat)
    requires b < |s.w.blocks|
  {
    && s.w.blocks[b].kind != Free
    && match f
       case AnyAllocated => true
       case OnlyGrungy => b in s.grungy
       case OnlyUncollectable => s.w.blocks[b].kind == Uncollectable
  }

  /** The first block at or after k that the scan stops at, or |blocks| when there is none. */
  function NextChosen(s: S, f: Filter, k: nat): nat
    decreases |s.w.blocks| - k
  {
    if |s.w.blocks| <= k then |s.w.blocks|
    else if Chosen(s, f, k) then k
    else NextChosen(s, f, k + 1)
  }

  /** GC_push_next_marked, GC_push_next_marked_dirty and GC_push_next_marked_uncollectable, together with
      the assignment of their result to GC_scan_ptr. */
  function PushNext(s: S, f: Filter): S {
    var b := NextChosen(s, f, s.scan);
    if b < |s.w.blocks| then PushMarked(s, b).(scan := b + 1) else s.(scan := 0)
  }

  // -------------------------------------------------------------------- roots

  /** One root area: pushed as a range while there is room, scanned on the spot otherwise. */
  function PushRoot(s: S, r: nat): S {
    if |s.stack| - 1 < s.cap - Discards(s) then s.(stack := s.stack + [Entry(Root(r), 0)])
    else PushCells(s, Cells(s.w, Root(r)))
  }

  function PushRoots(s: S, rs: seq<nat>): S
    decreases rs
  {
    if rs == [] then s else PushRoots(PushRoot(s, rs[0]), rs[1..])
  }

  /** GC_push_conditional_static: which of the first n pages of static data GC_push_roots pushes.  After the search for
      rescuers these are the grungy ones, otherwise all. */
  function StaticPages(s: S, n: nat): seq<nat> {
    if n == 0 then []
    else StaticPages(s, n - 1) + if s.state == PushRescuers && n - 1 !in s.rootGrungy then [] else [n - 1]
  }

  /** GC_push_roots and the state change that follows it at its three call sites; `rs` are the root areas it sees
      besides static data. */
  function RootsAndAdvance(s: S, rs: seq<nat>): S {
    var t := PushRoots(s, StaticPages(s, s.w.statics) + rs);
    t.(objsMarked := true, state := if t.state == Invalid then Invalid else RootsPushed)
  }

  // ------------------------------------------------------------- GC_mark_some

  /** alloc_mark_stack(2 * GC_mark_stack_size), if the stack was found too small; `ok` tells whether
      memory for the larger stack could be had. */
  function Grow(s: S, ok: bool): S {
    if s.tooSmall then s.(tooSmall := false, cap := if ok then 2 * s.cap else s.cap, stack := []) else s
  }

  /** One call of GC_mark_some.  `rs` lists the root areas the call can see besides static data. */
  function MarkSome(s: S, rs: seq<nat>, ok: bool): (S, bool) {
    match s.state
    case None => (s, false)
    case PushRescuers =>
      if |s.stack| - 1 >= s.cap - s.init / 2 then (MarkFromStack(s.(tooSmall := true)), false)
      else
        var t := PushNext(s, OnlyGrungy);
        (if t.scan == 0 then RootsAndAdvance(t, rs) else t, false)
    case PushUncollectable =>
      if |s.stack| - 1 >= s.cap / 4 then (MarkFromStack(s), false)
      else
        var t := PushNext(s, OnlyUncollectable);
        (if t.scan == 0 then RootsAndAdvance(t, rs) else t, false)
    case RootsPushed =>
      if s.stack != [] then (MarkFromStack(s), false)
      else (Grow(s.(state := None), ok), true)
    case _ =>
      if !s.objsMarked then (s.(state := PushUncollectable), false)
      else if s.stack != [] then (MarkFromStack(s), false)
      else
        var u := if s.scan == 0 && s.state == Invalid then Grow(s, ok).(state := PartiallyInvalid) else s;
        var t := PushNext(u, AnyAllocated);
        (if t.scan == 0 && t.state == PartiallyInvalid then RootsAndAdvance(t, rs) else t, false)
  }

  // --------------------------------------------- starting and giving up a mark

  /** GC_clear_marks */
  function ClearMarks(s: S): S {
    s.(marks := (set o | o in s.marks && o.blk < |s.w.blocks| && IsUncollectable(s.w.blocks[o.blk].kind)),
       objsMarked := false, state := Invalid, scan := 0)
  }

  /** GC_invalidate_mark_state */
  function Invalidate(s: S): S {
    s.(state := Invalid, stack := [])
  }

  /** GC_initiate_gc, in the states in which it does not abort; the dirty bits are fetched when the
      collector is incremental. */
  function InitiateGc(s: S, incremental: bool): S
    requires s.state == None || s.state == Invalid
  {
    var t := if !incremental then s
             else if s.state == Invalid then s.(dirty := {}, rootDirty := {})
             else s.(grungy := s.dirty, dirty := {}, rootGrungy := s.rootDirty, rootDirty := {});
    if s.state == None then t.(state := PushRescuers, scan := 0) else t.(scan := 0)
  }
}
