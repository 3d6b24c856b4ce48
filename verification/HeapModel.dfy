/** The heap-block allocator of gc/allchblk.c on an abstract heap.

    Addresses are page numbers.  The page index is seen as a flat sequence of cells, one per page of the
    address space: nothing, a forwarding count, or the header of a block.  The free lists are sequences.
    The class in HeapBlocks.dfy works on linked headers and byte counts and is proved to do what is said here.
 */
module HeapModel {
  const HBLKSIZE: nat := 4096
  const MAX_JUMP: nat := 4095            // HBLKSIZE - 1
  const UNIQUE_THRESHOLD: nat := 32
  const HUGE_THRESHOLD: nat := 256
  const FL_COMPRESSION: nat := 8
  const N_HBLK_FLS: nat := 60
  const MAX_BLACK_LIST_PAGES: nat := 2   // MAX_BLACK_LIST_ALLOC

  /** GC_hblk_fl_from_blocks: the free list for blocks of this many pages. */
  function Bin(blocks: nat): (r: nat)
    ensures r <= N_HBLK_FLS
  {
    if blocks <= UNIQUE_THRESHOLD then blocks
    else if blocks >= HUGE_THRESHOLD then N_HBLK_FLS
    else (blocks - UNIQUE_THRESHOLD) / FL_COMPRESSION + UNIQUE_THRESHOLD
  }

  /** Larger blocks are never on lower lists; below the threshold each size has a list of its own, above it a list is for
      at most eight sizes, and the last one for all huge blocks. */
  lemma BinMonotone(p: nat, q: nat)
    requires p <= q
    ensures Bin(p) <= Bin(q)
    ensures Bin(p) == Bin(q) && Bin(p) < UNIQUE_THRESHOLD ==> p == q
    ensures Bin(p) == Bin(q) && Bin(p) < N_HBLK_FLS ==> q - p < FL_COMPRESSION
    ensures Bin(p) == N_HBLK_FLS <==> p >= HUGE_THRESHOLD
  {}

  /** OBJ_SZ_TO_BLOCKS */
  function Blocks(sz: nat): nat { (sz + HBLKSIZE - 1) / HBLKSIZE }

  datatype Cell =
    | Nil
    | Fwd(k: nat)
    | Free(pages: nat, unmapped: bool)
    | Used(sz: nat, kind: nat, ignoreOffPage: bool)

  predicate Head(c: Cell) { c.Free? || c.Used? }

  function Pages(c: Cell): nat
    requires Head(c)
  {
    if c.Free? then c.pages else Blocks(c.sz)
  }

  /** What the index says at the i-th page of a block. */
  function Body(c: Cell, i: nat): Cell
    requires Head(c)
  {
    if c.Free? then Nil else Fwd(if i > MAX_JUMP then MAX_JUMP else i)
  }

  /** `heap` is the union of the heap sections, `mapped` the pages that are really backed by memory.  Amounts
      are in pages.  `limit` is the number of pages whose size in bytes no longer fits a signed word. */
  datatype Heap = Heap(lay: seq<Cell>, lists: seq<seq<nat>>, largeFree: int, heapSize: int, heap: set<nat>,
                       mapped: set<nat>, limit: nat)

  // ------------------------------------------------------------------------ invariants

  /** The block at a lies within the address space and its other pages are marked as such.  The first two
      pages and the last one never belong to the heap. */
  predicate BlockAt(lay: seq<Cell>, a: nat)
    requires a < |lay| && Head(lay[a])
  {
    && 2 <= a && 1 <= Pages(lay[a]) && a + Pages(lay[a]) < |lay|
    && forall x :: a < x < a + Pages(lay[a]) ==> lay[x] == Body(lay[a], x - a)
  }

  predicate Covers(lay: seq<Cell>, a: nat, x: nat) {
    a < |lay| && Head(lay[a]) && a <= x < a + Pages(lay[a])
  }

  predicate Shapes(lay: seq<Cell>) {
    forall a :: 0 <= a < |lay| && Head(lay[a]) ==> BlockAt(lay, a)
  }

  /** The blocks make up the heap sections, and the index is empty elsewhere. */
  ghost predicate Filled(lay: seq<Cell>, heap: set<nat>) {
    && (forall x :: x in heap ==> exists a: nat :: Covers(lay, a, x))
    && (forall a: nat, x: nat :: Covers(lay, a, x) ==> x in heap)
    && (forall x {:trigger x in heap, lay[x]} :: 0 <= x < |lay| && x !in heap ==> lay[x] == Nil)
  }

  /** The blocks tile the heap sections. */
  ghost predicate Tiles(lay: seq<Cell>, heap: set<nat>) { Shapes(lay) && Filled(lay, heap) }

  predicate NoDup(l: seq<nat>) { forall i, j :: 0 <= i < j < |l| ==> l[i] != l[j] }

  /** The i-th list holds free blocks of its sizes, none of them in `off`, and none twice. */
  predicate ListOk(lay: seq<Cell>, l: seq<nat>, i: nat, off: set<nat>) {
    && NoDup(l)
    && forall a :: a in l ==> a < |lay| && lay[a].Free? && Bin(lay[a].pages) == i && a !in off
  }

  predicate IsListed(lay: seq<Cell>, lists: seq<seq<nat>>, a: nat)
    requires |lists| == N_HBLK_FLS + 1
  {
    a < |lay| && lay[a].Free? && a in lists[Bin(lay[a].pages)]
  }

  /** Each free block but those in `off` is on the list its size selects. */
  ghost predicate Listed(lay: seq<Cell>, lists: seq<seq<nat>>, off: set<nat>) {
    && |lists| == N_HBLK_FLS + 1
    && (forall i :: 0 <= i < |lists| ==> ListOk(lay, lists[i], i, off))
    && (forall a :: 0 <= a < |lay| && lay[a].Free? && a !in off ==> IsListed(lay, lists, a))
  }

  /** The flag of a free block tells the truth about all its pages, and used blocks are mapped. */
  ghost predicate Mapping(lay: seq<Cell>, mapped: set<nat>) {
    forall a: nat, x: nat :: Covers(lay, a, x) ==> (x in mapped <==> !(lay[a].Free? && lay[a].unmapped))
  }

  function Weight(c: Cell, used: bool): nat {
    if Head(c) && c.Used? == used then Pages(c) else 0
  }

  /** The pages of the free blocks, or of the used blocks, starting in [lo, hi). */
  function Total(lay: seq<Cell>, used: bool, lo: nat, hi: nat): nat
    requires lo <= hi <= |lay|
  {
    if lo == hi then 0 else Total(lay, used, lo, hi - 1) + Weight(lay[hi - 1], used)
  }

  function FreePages(lay: seq<Cell>): nat { Total(lay, false, 0, |lay|) }

  function UsedPages(lay: seq<Cell>): nat { Total(lay, true, 0, |lay|) }

  /** What holds even in the middle of an operation; `off` are the free blocks it has taken off the lists. */
  ghost predicate Sound(m: Heap, off: set<nat>) {
    && Tiles(m.lay, m.heap) && Listed(m.lay, m.lists, off) && Mapping(m.lay, m.mapped)
    && m.heapSize == |m.heap| == FreePages(m.lay) + UsedPages(m.lay)
  }

  ghost predicate Inv(m: Heap) {
    Sound(m, {}) && m.largeFree == FreePages(m.lay)
  }

  /** No two free blocks are adjacent. */
  predicate Coalesced(lay: seq<Cell>) {
    forall a :: 0 <= a < |lay| && lay[a].Free? && a + lay[a].pages < |lay| ==> !lay[a + lay[a].pages].Free?
  }

  predicate AllMapped(lay: seq<Cell>) {
    forall a :: 0 <= a < |lay| && lay[a].Free? ==> !lay[a].unmapped
  }

  // ------------------------------------------------------------------------- searching

  /** The nearest header at or before page a; 0 if there is none. */
  function PrevHead(lay: seq<Cell>, a: nat): (r: nat)
    requires a < |lay|
    ensures r <= a && (r == 0 || Head(lay[r]))
    ensures forall x :: r < x <= a ==> !Head(lay[x])
  {
    if a == 0 || Head(lay[a]) then a else PrevHead(lay, a - 1)
  }

  /** The block that ends just before page a; 0 if there is none. */
  function EndingAt(lay: seq<Cell>, a: nat): nat
    requires 0 < a <= |lay|
  {
    var p := PrevHead(lay, a - 1);
    if Head(lay[p]) && p + Pages(lay[p]) == a then p else 0
  }

  // ------------------------------------------------------------ the pieces of operations

  function Without(l: seq<nat>, a: nat): seq<nat> {
    if l == [] then [] else if l[0] == a then l[1..] else [l[0]] + Without(l[1..], a)
  }

  /** GC_remove_from_fl_at */
  function Take(m: Heap, a: nat, i: nat): Heap
    requires i < |m.lists|
  {
    m.(lists := m.lists[i := Without(m.lists[i], a)])
  }

  /** GC_add_to_fl: a block is put in front of the list its size selects. */
  function Push(m: Heap, a: nat): Heap
    requires a < |m.lay| && m.lay[a].Free? && |m.lists| == N_HBLK_FLS + 1
  {
    var i := Bin(m.lay[a].pages);
    m.(lists := m.lists[i := [a] + m.lists[i]])
  }

  /** The free block a is split into one of k pages and the rest. */
  function Split(m: Heap, a: nat, k: nat): Heap
    requires a + k < |m.lay| && m.lay[a].Free? && 0 < k < m.lay[a].pages
  {
    var c := m.lay[a];
    m.(lay := m.lay[a := Free(k, c.unmapped)][a + k := Free(c.pages - k, c.unmapped)])
  }

  /** The free block a is joined with the free block that follows it. */
  function Join(m: Heap, a: nat): Heap
    requires a < |m.lay| && m.lay[a].Free? && a + m.lay[a].pages < |m.lay| && m.lay[a + m.lay[a].pages].Free?
  {
    var c := m.lay[a];
    var b := a + c.pages;
    m.(lay := m.lay[b := Nil][a := Free(c.pages + m.lay[b].pages, c.unmapped)])
  }

  /** The block at a becomes the block c of the same length: its header and the other pages' cells change. */
  function PutBlock(lay: seq<Cell>, a: nat, c: Cell): (r: seq<Cell>)
    requires Head(c)
  {
    seq(|lay|, x requires 0 <= x < |lay| =>
      if x == a then c else if a < x < a + Pages(c) then Body(c, x - a) else lay[x])
  }

  function Convert(m: Heap, a: nat, c: Cell): Heap
    requires a < |m.lay| && Head(c)
  {
    m.(lay := PutBlock(m.lay, a, c))
  }

  function Range(a: nat, n: nat): (r: set<nat>)
    ensures |r| == n
    ensures forall x :: x in r <==> a <= x < a + n
  {
    if n == 0 then {} else Range(a, n - 1) + {a + n - 1}
  }

  /** GC_remap of a whole free block, if it is unmapped. */
  function Remap(m: Heap, a: nat): Heap
    requires a < |m.lay| && m.lay[a].Free?
  {
    var p := m.lay[a].pages;
    if !m.lay[a].unmapped then m
    else m.(lay := m.lay[a := Free(p, false)], mapped := m.mapped + Range(a, p))
  }

  /** GC_unmap of a whole free block. */
  function Unmap(m: Heap, a: nat): Heap
    requires a < |m.lay| && m.lay[a].Free?
  {
    var p := m.lay[a].pages;
    m.(lay := m.lay[a := Free(p, true)], mapped := m.mapped - Range(a, p))
  }
}
