/** The operations of the allocator: freeing, growing, allocating, merging. */
module HeapOps {
  import opened HeapModel
  import opened BlackListModel

  // --------------------------------------------------------------------------- freeing

  /** Can two free blocks be merged?  Their joint size must fit a signed word. */
  predicate Fits(m: Heap, p: nat, q: nat) { p + q < m.limit }

  /** Is there, right after the block of p pages at a, a free block it can be merged with? */
  predicate MergesNext(m: Heap, a: nat, p: nat) {
    a + p < |m.lay| && m.lay[a + p].Free? && !m.lay[a + p].unmapped && Fits(m, p, m.lay[a + p].pages)
  }

  /** Coalescing with the successor: it leaves its list and becomes part of the block at a. */
  function AbsorbNext(m: Heap, a: nat): Heap
    requires a < |m.lay| && m.lay[a].Free? && |m.lists| == N_HBLK_FLS + 1
  {
    if MergesNext(m, a, m.lay[a].pages) then
      var b := a + m.lay[a].pages;
      Join(Take(m, b, Bin(m.lay[b].pages)), a)
    else m
  }

  predicate MergesPrev(m: Heap, a: nat, prev: nat) {
    && a < |m.lay| && m.lay[a].Free? && prev < |m.lay|
    && m.lay[prev].Free? && prev + m.lay[prev].pages == a && !m.lay[prev].unmapped && Fits(m, m.lay[prev].pages, m.lay[a].pages)
  }

  /** Coalescing with the predecessor, and putting the result on its list. */
  function AbsorbPrev(m: Heap, a: nat, prev: nat): Heap
    requires a < |m.lay| && m.lay[a].Free? && |m.lists| == N_HBLK_FLS + 1
  {
    if MergesPrev(m, a, prev) then Push(Join(Take(m, prev, Bin(m.lay[prev].pages)), prev), prev)
    else Push(m, a)
  }

  /** The end of GC_freehblk: the free block at a, on no list yet, is coalesced with its neighbours. */
  function Settle(m: Heap, a: nat): Heap
    requires 0 < a < |m.lay| && m.lay[a].Free? && |m.lists| == N_HBLK_FLS + 1
  {
    var t := AbsorbNext(m, a);
    AbsorbPrev(t.(largeFree := t.largeFree + m.lay[a].pages), a, EndingAt(m.lay, a))
  }

  /** GC_freehblk of the used block at a. */
  function FreeBlock(m: Heap, a: nat): Heap
    requires 0 < a < |m.lay| && m.lay[a].Used? && |m.lists| == N_HBLK_FLS + 1
  {
    Settle(Convert(m, a, Free(Pages(m.lay[a]), false)), a)
  }

  /** GC_add_to_heap of n pages from page a on: they become a block, which is then freed. */
  function AddSection(m: Heap, a: nat, n: nat): Heap
    requires 2 <= a < |m.lay| && |m.lists| == N_HBLK_FLS + 1
  {
    Settle(m.(lay := m.lay[a := Free(n, false)], heap := m.heap + Range(a, n), mapped := m.mapped + Range(a, n),
              heapSize := m.heapSize + n), a)
  }

  /** The part of GC_add_to_heap that trims the section: nothing near address zero is used, nor the page at
      whose end addresses wrap around. */
  function AddToHeap(m: Heap, a: nat, n: nat): Heap
    requires 0 < n && a + n <= |m.lay| && |m.lists| == N_HBLK_FLS + 1
  {
    var lo := if a < 2 then 2 else a;
    var hi := if a + n == |m.lay| then a + n - 1 else a + n;
    if lo < hi && lo < |m.lay| then AddSection(m, lo, hi - lo) else m
  }

  // ------------------------------------------------------------------------ allocating

  /** What is asked for: objects of sz bytes of a kind, in blocks of `need` pages. */
  datatype Request = Request(sz: nat, kind: nat, ignoreOffPage: bool)

  function Need(q: Request): nat { Blocks(q.sz) }

  predicate Uncollectable(kind: nat) { kind == 2 || kind == 3 }

  predicate PtrFree(kind: nat) { kind == 0 }

  predicate ChecksBlackList(q: Request) {
    !Uncollectable(q.kind) && (!PtrFree(q.kind) || Need(q) > MAX_BLACK_LIST_PAGES)
  }

  /** GC_get_first_part on a block that is off the lists: the first n pages, the rest goes back to a list. */
  function FirstPart(m: Heap, a: nat, n: nat): Heap
    requires a < |m.lay| && m.lay[a].Free? && 0 < n && |m.lists| == N_HBLK_FLS + 1
    requires a + m.lay[a].pages < |m.lay|
  {
    if n < m.lay[a].pages then Push(Split(m, a, n), a + n) else m
  }

  /** GC_split_block on a block that is off the lists: the pages before r go back to a list. */
  function FrontPart(m: Heap, f: nat, r: nat): Heap
    requires f <= r < |m.lay| && m.lay[f].Free? && |m.lists| == N_HBLK_FLS + 1 && r < f + m.lay[f].pages
  {
    if f < r then Push(Split(m, f, r - f), f) else m
  }

  /** Can n pages be cut out of the free block f at page r? */
  predicate Room(m: Heap, f: nat, r: nat, n: nat) {
    && f < |m.lay| && m.lay[f].Free? && 0 < n && f <= r && r + n <= f + m.lay[f].pages < |m.lay|
  }

  /** An object's block is cut out at page r of the free block f, which is on list i. */
  function Carve(m: Heap, f: nat, i: nat, r: nat, q: Request): Heap
    requires |m.lists| == N_HBLK_FLS + 1 && i < |m.lists| && Room(m, f, r, Need(q))
  {
    var m1 := FrontPart(Take(Remap(m, f), f, i), f, r);
    var m2 := Convert(FirstPart(m1, r, Need(q)), r, Used(q.sz, q.kind, q.ignoreOffPage));
    m2.(largeFree := m2.largeFree - Need(q))
  }

  /** A block is given up in one-page chunks, from page a on. */
  function Chunks(m: Heap, a: nat): Heap
    requires a < |m.lay| && m.lay[a].Free? && 0 < m.lay[a].pages && a + m.lay[a].pages < |m.lay|
    decreases m.lay[a].pages
  {
    var one := Used(HBLKSIZE, 0, false);
    if m.lay[a].pages == 1 then Convert(m, a, one)
    else
      var m1 := Convert(Split(m, a, 1), a, one);
      assert Pages(one) == 1 && m1.lay[a + 1] == Free(m.lay[a].pages - 1, m.lay[a].unmapped);
      Chunks(m1, a + 1)
  }

  function Drop(m: Heap, f: nat, i: nat): Heap
    requires f < |m.lay| && m.lay[f].Free? && 0 < m.lay[f].pages && f + m.lay[f].pages < |m.lay| && i < |m.lists|
  {
    var p := m.lay[f].pages;
    var m1 := Chunks(Take(m, f, i), f);
    m1.(largeFree := m1.largeFree - p)
  }

  datatype MaySplit = No | Yes | AvoidRemapped

  /** The surroundings of an allocation: the black lists, BL_LIMIT in pages, GC_find_leak. */
  datatype Env = Env(b: Black, blLimit: nat, findLeak: bool)

  /** What to do with a free block met on the list. */
  datatype Verdict = Skip | TakeAt(r: nat) | Dropping

  /** Is the next block on the list obviously better? */
  predicate NextBetter(m: Heap, env: Env, avail: nat, need: nat, next: seq<nat>)
    requires Wf(env.b) && need > 0
  {
    && next != [] && next[0] < |m.lay| && m.lay[next[0]].Free?
    && need <= m.lay[next[0]].pages < avail && IsBlackListed(env.b, next[0], need) == 0
  }

  function CheckBlack(m: Heap, env: Env, q: Request, f: nat, split: MaySplit): Verdict
    requires Wf(env.b) && Need(q) > 0 && f < |m.lay| && m.lay[f].Free? && Need(q) <= m.lay[f].pages
  {
    var avail, need := m.lay[f].pages, Need(q);
    var s := FindStart(env.b, f, f + avail - need, if q.ignoreOffPage then 1 else need);
    if s <= f + avail - need then
      if s != f && split.AvoidRemapped? && m.lay[f].unmapped then Skip else TakeAt(s)
    else if need > env.blLimit && avail - need > env.blLimit then TakeAt(f)
    else if s == f + avail && need == 1 && !m.lay[f].unmapped && !env.findLeak then Dropping
    else Skip
  }

  /** One block of the list, with `next` the rest of the list. */
  function Judge(m: Heap, env: Env, q: Request, f: nat, next: seq<nat>, split: MaySplit): Verdict
    requires Wf(env.b) && Need(q) > 0 && f < |m.lay| && m.lay[f].Free?
  {
    var avail, need := m.lay[f].pages, Need(q);
    if avail < need then Skip
    else if avail != need && split.No? then Skip
    else if avail != need && NextBetter(m, env, avail, need, next) then Skip
    else if ChecksBlackList(q) then CheckBlack(m, env, q, f, split)
    else TakeAt(f)
  }
}
