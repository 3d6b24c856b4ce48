/** The page index of gc/headers.c: from any page to the header of its block. */
module PageIndexModel {
  import opened Arithmetic
  import opened HeapModel
  import opened HeapProofs

  /** The fields of a block header: hb_sz, hb_next, hb_prev, the flags, hb_obj_kind.  A free block's size is a
      whole number of pages, a used one's is the size of its objects; page 0 stands for a null pointer. */
  datatype Hdr = Hdr(sz: nat, next: nat, prev: nat, free: bool, unmapped: bool, kind: nat, ignoreOffPage: bool)

  /** An entry of a bottom-level index. */
  datatype Ent = NoHeader | Forward(k: nat) | Header(h: Hdr)

  /** What an entry says about the layout. */
  function CellOf(e: Ent): Cell {
    match e
    case NoHeader => Nil
    case Forward(k) => Fwd(k)
    case Header(h) => if h.free then Free(h.sz / HBLKSIZE, h.unmapped) else Used(h.sz, h.kind, h.ignoreOffPage)
  }

  function Layout(flat: seq<Ent>): (lay: seq<Cell>)
    ensures |lay| == |flat|
  {
    seq(|flat|, x requires 0 <= x < |flat| => CellOf(flat[x]))
  }

  /** A forwarding count stays within its block, and what it skips are forwarding counts. */
  lemma JumpStays(lay: seq<Cell>, heap: set<nat>, x: nat) returns (o: nat)
    requires Tiles(lay, heap) && x < |lay| && lay[x].Fwd?
    ensures Covers(lay, o, x) && lay[o].Used? && 1 <= lay[x].k <= MAX_JUMP && o <= x - lay[x].k
    ensures forall y :: o < y <= x ==> lay[y].Fwd?
  {
    assert x in heap;
    o :| Covers(lay, o, x);
    assert BlockAt(lay, o);
    assert lay[x] == Body(lay[o], x - o);
  }

  /** Following the forwarding counts from page x. */
  function Follow(lay: seq<Cell>, x: nat): (r: nat)
    requires x < |lay|
    ensures r <= x && !(lay[r].Fwd? && 1 <= lay[r].k <= r)
    decreases x
  {
    if lay[x].Fwd? && 1 <= lay[x].k <= x then Follow(lay, x - lay[x].k) else x
  }

  /** From any page of a block in use the counts lead to its first page. */
  lemma {:induction false} FollowReaches(lay: seq<Cell>, heap: set<nat>, o: nat, x: nat)
    requires Tiles(lay, heap) && Covers(lay, o, x) && lay[o].Used? && x < |lay|
    ensures Follow(lay, x) == o
    decreases x
  {
    assert BlockAt(lay, o);
    if x != o {
      assert lay[x] == Body(lay[o], x - o);
      FollowReaches(lay, heap, o, x - lay[x].k);
    }
  }

  /** How many counts are followed from page x. */
  function Jumps(lay: seq<Cell>, x: nat): nat
    requires x < |lay|
    decreases x
  {
    if lay[x].Fwd? && 1 <= lay[x].k <= x then 1 + Jumps(lay, x - lay[x].k) else 0
  }

  /** One jump goes as far as a count can say, so one is enough within the first 4096 pages of a block. */
  lemma {:induction false} JumpsAreFew(lay: seq<Cell>, heap: set<nat>, o: nat, x: nat)
    requires Tiles(lay, heap) && Covers(lay, o, x) && lay[o].Used? && x < |lay|
    ensures Jumps(lay, x) == (x - o + MAX_JUMP - 1) / MAX_JUMP
    decreases x
  {
    assert BlockAt(lay, o);
    if x != o {
      assert lay[x] == Body(lay[o], x - o);
      JumpsAreFew(lay, heap, o, x - lay[x].k);
    }
  }

  /** Pages inside free blocks say nothing. */
  lemma FreePagesAreNil(lay: seq<Cell>, heap: set<nat>, o: nat, x: nat)
    requires Tiles(lay, heap) && Covers(lay, o, x) && lay[o].Free? && x != o
    ensures x < |lay| && lay[x] == Nil
  {
    assert BlockAt(lay, o);
  }

  lemma PrevIs(lay: seq<Cell>, a: nat, r: nat)
    requires a < |lay| && r <= a && (forall x :: r < x <= a ==> !Head(lay[x])) && (Head(lay[r]) || r == 0)
    ensures PrevHead(lay, a) == r
  {}

  /** Blocks in use, and free ones only if wanted. */
  predicate Wanted(c: Cell, allowFree: bool) { c.Used? || (allowFree && c.Free?) }

  /** The first wanted block at or after page a; 0 if there is none. */
  function NextHead(lay: seq<Cell>, a: nat, allowFree: bool): (r: nat)
    ensures r != 0 ==> a <= r < |lay| && (lay[r].Used? || (allowFree && lay[r].Free?))
    ensures r != 0 ==> forall x :: a <= x < r ==> !lay[x].Used? && !(allowFree && lay[x].Free?)
    ensures r == 0 && a > 0 ==> forall x :: a <= x < |lay| ==> !lay[x].Used? && !(allowFree && lay[x].Free?)
    decreases |lay| - a
  {
    if a >= |lay| then 0 else if Wanted(lay[a], allowFree) then a else NextHead(lay, a + 1, allowFree)
  }

  lemma {:induction false} NextIs(lay: seq<Cell>, a: nat, allowFree: bool, r: nat)
    requires r != 0 ==> a <= r < |lay| && Wanted(lay[r], allowFree)
    requires forall x :: a <= x < (if r == 0 then |lay| else r) ==> !Wanted(lay[x], allowFree)
    ensures NextHead(lay, a, allowFree) == r
    decreases |lay| - a
  {
    if a < |lay| && (r == 0 || a < r) { NextIs(lay, a + 1, allowFree, r); }
  }

  // ------------------------------------------------------------------ objects and addresses

  const WORD: nat := 8

  /** Object sizes are multiples of the word size. */
  predicate Aligned(lay: seq<Cell>) {
    forall o :: 0 <= o < |lay| && lay[o].Used? ==> lay[o].sz % WORD == 0
  }

  /** Is the n-th slot of the block at page o an object?  A block of small objects holds as many as fit its one
      page, a larger block holds one object. */
  predicate IsObject(lay: seq<Cell>, o: nat, n: nat) {
    o < |lay| && lay[o].Used? && (if lay[o].sz <= HBLKSIZE then (n + 1) * lay[o].sz <= HBLKSIZE else n == 0)
  }

  function ObjectStart(lay: seq<Cell>, o: nat, n: nat): nat
    requires IsObject(lay, o, n)
  {
    o * HBLKSIZE + n * lay[o].sz
  }

  predicate InObject(lay: seq<Cell>, o: nat, n: nat, p: nat) {
    IsObject(lay, o, n) && ObjectStart(lay, o, n) <= p < ObjectStart(lay, o, n) + lay[o].sz
  }

  /** The end of GC_base for the address p, once the page o where its block starts and the object size are known. */
  function BaseIn(o: nat, sz: nat, p: nat): nat
    requires sz > 0
  {
    var r0 := if p / HBLKSIZE == o then p else o * HBLKSIZE;
    var r1 := r0 - r0 % WORD;
    var r := r1 - (r1 % HBLKSIZE) % sz;
    if r < 0 || (r + sz > (o + 1) * HBLKSIZE && sz <= HBLKSIZE) then 0
    else if p >= r + sz then 0
    else r
  }

  /** GC_base */
  function Base(lay: seq<Cell>, p: nat): nat
    requires p / HBLKSIZE < |lay|
  {
    var o := Follow(lay, p / HBLKSIZE);
    if lay[o].Used? && lay[o].sz > 0 then BaseIn(o, lay[o].sz, p) else 0
  }

  lemma SameSlot(n: nat, k: nat, sz: nat, x: nat)
    requires n * sz <= x < n * sz + sz && k * sz <= x < k * sz + sz
    ensures k == n
  {
    TimesMonotone(n + 1, k, sz);
    TimesMonotone(k + 1, n, sz);
    assert (n + 1) * sz == n * sz + sz && (k + 1) * sz == k * sz + sz;
  }

  lemma SlotOf(n: nat, sz: nat, x: nat)
    requires sz > 0 && n * sz <= x < n * sz + sz
    ensures x / sz == n && x % sz == x - n * sz
  {
    var k := x / sz;
    assert x == k * sz + x % sz && 0 <= x % sz < sz;
    SameSlot(n, k, sz, x);
  }

  lemma SlotAligned(n: nat, sz: nat)
    requires sz % WORD == 0
    ensures (n * sz) % WORD == 0
  {
    var k := sz / WORD;
    assert n * sz == WORD * (n * k);
  }

  lemma PageAndOffset(o: nat, x: nat)
    requires x < HBLKSIZE
    ensures (o * HBLKSIZE + x) / HBLKSIZE == o && (o * HBLKSIZE + x) % HBLKSIZE == x
  {}

  lemma WordOffset(o: nat, x: nat)
    ensures (o * HBLKSIZE + x) % WORD == x % WORD
  {
    var k := 512 * o + x / WORD;
    assert o * HBLKSIZE + x == k * WORD + x % WORD;
    SlotOf(k, WORD, o * HBLKSIZE + x);
  }

  lemma FirstPageOffset(o: nat, p: nat)
    requires p / HBLKSIZE == o
    ensures var r := p - p % WORD; r % HBLKSIZE == r - o * HBLKSIZE && o * HBLKSIZE <= r <= p < (o + 1) * HBLKSIZE
  {
    var x := p - o * HBLKSIZE;
    assert p == o * HBLKSIZE + p % HBLKSIZE;
    WordOffset(o, x);
    PageAndOffset(o, x - x % WORD);
  }

  lemma SmallMod(x: nat, sz: nat)
    requires x < sz
    ensures x % sz == x
  {
    SlotOf(0, sz, x);
  }

  lemma BaseOfLarge(o: nat, sz: nat, p: nat)
    requires sz > HBLKSIZE && o <= p / HBLKSIZE
    ensures BaseIn(o, sz, p) == if p < o * HBLKSIZE + sz then o * HBLKSIZE else 0
  {
    if p / HBLKSIZE == o {
      FirstPageOffset(o, p);
      SmallMod(p - p % WORD - o * HBLKSIZE, sz);
    } else {
      FirstPageOffset(o, o * HBLKSIZE);
      SmallMod(0, sz);
    }
  }

  /** The slot a small object's address falls into. */
  lemma BaseOfSmall(o: nat, sz: nat, p: nat, n: nat)
    requires 0 < sz <= HBLKSIZE && o == p / HBLKSIZE && n * sz <= p - p % WORD - o * HBLKSIZE < n * sz + sz
    ensures BaseIn(o, sz, p) == if (n + 1) * sz <= HBLKSIZE && p < o * HBLKSIZE + n * sz + sz then o * HBLKSIZE + n * sz else 0
  {
    FirstPageOffset(o, p);
    var x := p - p % WORD - o * HBLKSIZE;
    SlotOf(n, sz, x);
    var r1 := p - p % WORD;
    assert r1 - (r1 % HBLKSIZE) % sz == o * HBLKSIZE + n * sz;
    assert (n + 1) * sz == n * sz + sz;
  }

  /** GC_base finds the object: for every address inside an object it returns the object's start. */
  lemma BaseFinds(lay: seq<Cell>, heap: set<nat>, o: nat, n: nat, p: nat)
    requires Tiles(lay, heap) && Aligned(lay) && InObject(lay, o, n, p) && p / HBLKSIZE < |lay|
    ensures Base(lay, p) == ObjectStart(lay, o, n)
  {
    var sz := lay[o].sz;
    assert BlockAt(lay, o);
    if sz <= HBLKSIZE {
      assert n * sz + sz == (n + 1) * sz <= HBLKSIZE;
      assert p / HBLKSIZE == o;
      assert Covers(lay, o, o);
      FollowReaches(lay, heap, o, o);
      SlotAligned(n, sz);
      FirstPageOffset(o, p);
      AlignedBelow(n * sz, p - o * HBLKSIZE, o);
      BaseOfSmall(o, sz, p, n);
    } else {
      var x := p / HBLKSIZE;
      LargeCovers(o, sz, p);
      assert Covers(lay, o, x);
      FollowReaches(lay, heap, o, x);
      BaseOfLarge(o, sz, p);
    }
  }

  lemma AlignedBelow(m: nat, x: nat, o: nat)
    requires m % WORD == 0 && m <= x
    ensures m <= o * HBLKSIZE + x - (o * HBLKSIZE + x) % WORD - o * HBLKSIZE <= x
  {}

  lemma LargeCovers(o: nat, sz: nat, p: nat)
    requires o * HBLKSIZE <= p < o * HBLKSIZE + sz
    ensures o <= p / HBLKSIZE < o + Blocks(sz)
  {}

  /** Where GC_base looks: at the block that the page belongs to. */
  lemma BaseBlock(lay: seq<Cell>, heap: set<nat>, x: nat) returns (o: nat)
    requires Tiles(lay, heap) && x < |lay| && lay[Follow(lay, x)].Used?
    ensures o == Follow(lay, x) && o <= x && lay[o].sz > 0 && (lay[o].sz <= HBLKSIZE ==> o == x)
  {
    o := x;
    if lay[x].Fwd? {
      o := JumpStays(lay, heap, x);
      FollowReaches(lay, heap, o, x);
    }
    assert BlockAt(lay, o);
  }

  lemma BaseSlot(o: nat, sz: nat, p: nat) returns (n: nat)
    requires sz > 0 && BaseIn(o, sz, p) != 0 && o <= p / HBLKSIZE && (sz <= HBLKSIZE ==> o == p / HBLKSIZE)
    ensures if sz <= HBLKSIZE then (n + 1) * sz <= HBLKSIZE else n == 0
    ensures BaseIn(o, sz, p) == o * HBLKSIZE + n * sz <= p < o * HBLKSIZE + n * sz + sz
  {
    hide BaseIn;
    n := 0;
    if sz > HBLKSIZE {
      BaseOfLarge(o, sz, p);
      PageStart(o, p);
    } else {
      FirstPageOffset(o, p);
      n := Slot(p - p % WORD - o * HBLKSIZE, sz);
      BaseOfSmall(o, sz, p, n);
    }
  }

  lemma PageStart(o: nat, p: nat)
    requires o <= p / HBLKSIZE
    ensures o * HBLKSIZE <= p
  {}

  lemma Slot(x: nat, sz: nat) returns (n: nat)
    requires sz > 0
    ensures n * sz <= x < n * sz + sz
  {
    n := x / sz;
    assert x == n * sz + x % sz;
  }

  /** What GC_base returns, if not 0, is the start of an object that contains the address. */
  lemma BaseIsObject(lay: seq<Cell>, heap: set<nat>, p: nat) returns (o: nat, n: nat)
    requires Tiles(lay, heap) && p / HBLKSIZE < |lay| && Base(lay, p) != 0
    ensures InObject(lay, o, n, p) && Base(lay, p) == ObjectStart(lay, o, n)
  {
    hide Tiles, BaseIn, Follow;
    o := BaseBlock(lay, heap, p / HBLKSIZE);
    n := BaseSlot(o, lay[o].sz, p);
  }

  // ------------------------------------------------------------------------- header cache

  /** What GC_header_cache_miss answers for the address p: the page of a header or 0, and whether p is to be
      black-listed. */
  datatype Found = Found(page: nat, blackList: bool)

  /** The header that is relevant for a pointer to p: only the first page of a block counts, unless interior
      pointers are recognized, the block does not ignore them, and p lies in the object. */
  function HeaderFor(lay: seq<Cell>, interior: bool, p: nat): Found
    requires p / HBLKSIZE < |lay|
  {
    var x := p / HBLKSIZE;
    var o := Follow(lay, x);
    if lay[x].Nil? || lay[x].Free? then Found(0, true)
    else if lay[x].Used? then Found(x, false)
    else if !interior || !lay[o].Used? || lay[o].ignoreOffPage then Found(0, false)
    else if p >= o * HBLKSIZE + lay[o].sz then Found(0, true)
    else Found(o, false)
  }

  /** A header is returned only for addresses in blocks in use; past the first page only with interior pointers
      and for addresses in the object. */
  lemma HeaderForIsUsed(lay: seq<Cell>, heap: set<nat>, interior: bool, p: nat)
    requires Tiles(lay, heap) && p / HBLKSIZE < |lay|
    ensures var r := HeaderFor(lay, interior, p);
      && (r.page != 0 ==> Covers(lay, r.page, p / HBLKSIZE) && lay[r.page].Used? && !r.blackList)
      && (r.page != 0 && r.page != p / HBLKSIZE ==> interior && InObject(lay, r.page, 0, p))
      && (r.blackList ==> forall o, n :: !InObject(lay, o, n, p))
  {
    hide Tiles, Covers, Follow, IsObject, ObjectStart, InObject;
    var x := p / HBLKSIZE;
    forall o: nat, n: nat | InObject(lay, o, n, p) ensures !HeaderFor(lay, interior, p).blackList {
      NotBlack(lay, heap, interior, p, o, n);
    }
    if lay[x].Fwd? {
      var o := JumpStays(lay, heap, x);
      FollowReaches(lay, heap, o, x);
      if o * HBLKSIZE <= p < o * HBLKSIZE + lay[o].sz && o != x { LaterPage(lay, heap, o, x, p); }
      Before(lay, o, x, p);
    }
    if lay[x].Used? { CoversItself(lay, heap, x); }
  }

  /** A header is found, and it is that of the object, exactly for the addresses of an object that are on the first page
      of its block, or on a later one if interior pointers are recognised there. */
  lemma HeaderForFinds(lay: seq<Cell>, heap: set<nat>, interior: bool, p: nat, o: nat, n: nat)
    requires Tiles(lay, heap) && p / HBLKSIZE < |lay| && InObject(lay, o, n, p)
    ensures HeaderFor(lay, interior, p).page == o <==> p / HBLKSIZE == o || (interior && !lay[o].ignoreOffPage)
    ensures HeaderFor(lay, interior, p).page != o ==> HeaderFor(lay, interior, p).page == 0
  {
    hide Tiles, Covers, Follow;
    var x := p / HBLKSIZE;
    ObjectPages(lay, o, n, p);
    InUse(lay, heap, o, x);
    FollowReaches(lay, heap, o, x);
    NotAtZero(lay, heap, o);
    if x != o { WithinSize(lay, o, n, p); }
  }

  /** And what is no object: any address on the first page of a block in use finds its header; an address past the end of a
      large object, or in no block in use, is to be black-listed, the former where interior pointers count. */
  lemma HeaderForElsewhere(lay: seq<Cell>, heap: set<nat>, interior: bool, p: nat)
    requires Tiles(lay, heap) && p / HBLKSIZE < |lay|
    ensures var r, x := HeaderFor(lay, interior, p), p / HBLKSIZE;
      && (lay[x].Used? ==> r == Found(x, false))
      && ((forall o: nat :: o < |lay| && Covers(lay, o, x) ==> !lay[o].Used?) ==> r == Found(0, true))
      && (forall o: nat :: o < |lay| && Covers(lay, o, x) && lay[o].Used? && o != x ==>
            (r.blackList <==> interior && !lay[o].ignoreOffPage && p >= o * HBLKSIZE + lay[o].sz))
  {
    hide Tiles, Covers, Follow;
    var r, x := HeaderFor(lay, interior, p), p / HBLKSIZE;
    if lay[x].Fwd? { var o := JumpStays(lay, heap, x); }
    if lay[x].Used? { CoversItself(lay, heap, x); }
    forall o: nat | o < |lay| && Covers(lay, o, x) && lay[o].Used? && o != x
      ensures r.blackList <==> interior && !lay[o].ignoreOffPage && p >= o * HBLKSIZE + lay[o].sz
    {
      InUse(lay, heap, o, x);
      FollowReaches(lay, heap, o, x);
    }
  }

  lemma NotAtZero(lay: seq<Cell>, heap: set<nat>, o: nat)
    requires Tiles(lay, heap) && o < |lay| && lay[o].Used?
    ensures 2 <= o
  {
    assert BlockAt(lay, o);
  }

  lemma CoversItself(lay: seq<Cell>, heap: set<nat>, x: nat)
    requires Tiles(lay, heap) && x < |lay| && lay[x].Used?
    ensures Covers(lay, x, x)
  {
    assert BlockAt(lay, x);
  }

  lemma Before(lay: seq<Cell>, o: nat, x: nat, p: nat)
    requires Covers(lay, o, x) && x == p / HBLKSIZE
    ensures o <= x && o * HBLKSIZE <= p
  {}

  /** Past the first page of a block only large objects reach. */
  lemma LaterPage(lay: seq<Cell>, heap: set<nat>, o: nat, x: nat, p: nat)
    requires Tiles(lay, heap) && Covers(lay, o, x) && lay[o].Used? && o != x && x == p / HBLKSIZE
    requires o * HBLKSIZE <= p < o * HBLKSIZE + lay[o].sz
    ensures InObject(lay, o, 0, p)
  {
    hide Tiles;
  }

  /** The address of an object is not black-listed. */
  lemma NotBlack(lay: seq<Cell>, heap: set<nat>, interior: bool, p: nat, o: nat, n: nat)
    requires Tiles(lay, heap) && p / HBLKSIZE < |lay| && InObject(lay, o, n, p)
    ensures !HeaderFor(lay, interior, p).blackList
  {
    hide Tiles, Covers, Follow;
    var x := p / HBLKSIZE;
    ObjectPages(lay, o, n, p);
    InUse(lay, heap, o, x);
    FollowReaches(lay, heap, o, x);
    if x != o { WithinSize(lay, o, n, p); }
  }

  lemma InUse(lay: seq<Cell>, heap: set<nat>, o: nat, x: nat)
    requires Tiles(lay, heap) && Covers(lay, o, x) && lay[o].Used? && x < |lay|
    ensures lay[x].Fwd? || (x == o && lay[x].Used?)
  {
    assert BlockAt(lay, o);
    if x != o { assert lay[x] == Body(lay[o], x - o); }
  }

  lemma WithinSize(lay: seq<Cell>, o: nat, n: nat, p: nat)
    requires InObject(lay, o, n, p) && p / HBLKSIZE != o
    ensures p < o * HBLKSIZE + lay[o].sz
  {
    var sz := lay[o].sz;
    if sz <= HBLKSIZE { assert n * sz + sz == (n + 1) * sz <= HBLKSIZE; }
  }

  lemma ObjectPages(lay: seq<Cell>, o: nat, n: nat, p: nat)
    requires InObject(lay, o, n, p) && p / HBLKSIZE < |lay|
    ensures Covers(lay, o, p / HBLKSIZE)
  {
    var sz := lay[o].sz;
    if sz <= HBLKSIZE { assert n * sz + sz == (n + 1) * sz <= HBLKSIZE; }
    else { LargeCovers(o, sz, p); }
  }
}

module PageIndexObject {
  import opened HeapModel
  import opened HeapProofs
  import opened PageIndexModel

  const BOTTOM_SZ: nat := 1024

  /** The forwarding count of the i-th page of a block. */
  function Count(i: nat): Ent { Forward(if i > MAX_JUMP then MAX_JUMP else i) }

  /** The two-level index: bottom-level indices, each for BOTTOM_SZ pages, and the list of their keys in ascending
      order (GC_all_bottom_indices).  A page without bottom-level index has no header. */
  class PageIndex {
    const size: nat
    var keys: seq<nat>
    var rows: map<nat, seq<Ent>>

    ghost predicate Valid()
      reads this
    {
      && size % BOTTOM_SZ == 0
      && (forall i, j :: 0 <= i < j < |keys| ==> keys[i] < keys[j])
      && (forall k :: k in keys <==> k in rows)
      && (forall k :: k in rows ==> |rows[k]| == BOTTOM_SZ && (k + 1) * BOTTOM_SZ <= size)
    }

    /** HDR */
    function Look(x: nat): Ent
      requires Valid()
      reads this
    {
      if x / BOTTOM_SZ in rows then rows[x / BOTTOM_SZ][x % BOTTOM_SZ] else NoHeader
    }

    ghost function Flat(): (f: seq<Ent>)
      requires Valid()
      reads this
      ensures |f| == size
    {
      seq(size, x requires 0 <= x < size reads this requires Valid() => Look(x))
    }

    constructor (n: nat)
      requires n % BOTTOM_SZ == 0
      ensures Valid() && size == n && forall x :: 0 <= x < n ==> Flat()[x] == NoHeader
    {
      size := n;
      keys, rows := [], map[];
    }

    /** Where the list of keys reaches hi. */
    method Position(hi: nat) returns (i: nat)
      requires Valid()
      ensures i <= |keys| && (forall k :: 0 <= k < i ==> keys[k] < hi) && (i < |keys| ==> hi <= keys[i])
    {
      i := 0;
      while i < |keys| && keys[i] < hi
        invariant i <= |keys| && forall k :: 0 <= k < i ==> keys[k] < hi
      {
        i := i + 1;
      }
    }

    /** get_index: a bottom-level index for page p is put into its place in the list if there is none. */
    method GetIndex(p: nat)
      requires Valid() && p < size
      modifies this
      ensures Valid() && p / BOTTOM_SZ in rows && Flat() == old(Flat()) && forall k :: k in old(rows) ==> k in rows
    {
      var hi := p / BOTTOM_SZ;
      if hi in rows { return; }
      var i := Position(hi);
      RowFits(p, size);
      ListInsert(keys, i, hi);
      keys := keys[..i] + [hi] + keys[i..];
      rows := rows[hi := EmptyRow()];
      assert Flat() == old(Flat()) by {
        forall x | 0 <= x < size ensures Flat()[x] == old(Flat())[x] {
          if x / BOTTOM_SZ == hi { assert EmptyRow()[x % BOTTOM_SZ] == NoHeader; }
        }
      }
    }

    /** SET_HDR, where there is a bottom-level index. */
    method Set(p: nat, e: Ent)
      requires Valid() && p < size && p / BOTTOM_SZ in rows
      modifies this
      ensures Valid() && Flat() == old(Flat())[p := e] && rows.Keys == old(rows.Keys)
    {
      rows := rows[p / BOTTOM_SZ := rows[p / BOTTOM_SZ][p % BOTTOM_SZ := e]];
      forall x | 0 <= x < size ensures Flat()[x] == old(Flat())[p := e][x] {
        if x / BOTTOM_SZ == p / BOTTOM_SZ && x % BOTTOM_SZ == p % BOTTOM_SZ { assert x == p; }
      }
    }

    method Get(x: nat) returns (e: Ent)
      requires Valid() && x < size
      ensures e == Flat()[x]
    {
      e := Look(x);
    }

    /** A header is changed in place. */
    method Update(x: nat, h: Hdr)
      requires Valid() && x < size && Flat()[x].Header?
      modifies this
      ensures Valid() && Flat() == old(Flat())[x := Header(h)]
    {
      Set(x, Header(h));
    }

    /** GC_install_header */
    method InstallHeader(p: nat, h: Hdr)
      requires Valid() && p < size
      modifies this
      ensures Valid() && Flat() == old(Flat())[p := Header(h)]
    {
      GetIndex(p);
      Set(p, Header(h));
    }

    /** GC_remove_header */
    method RemoveHeader(p: nat)
      requires Valid() && p < size && Flat()[p].Header?
      modifies this
      ensures Valid() && Flat() == old(Flat())[p := NoHeader]
    {
      Set(p, NoHeader);
    }

    /** The first part of GC_install_counts: bottom-level indices for all pages of the block. */
    method CoverRows(p: nat, n: nat)
      requires Valid() && 0 < n && p + n <= size
      modifies this
      ensures Valid() && Flat() == old(Flat()) && forall x :: p <= x < p + n ==> x / BOTTOM_SZ in rows
    {
      var q := p;
      while q < p + n
        invariant Valid() && Flat() == old(Flat()) && p <= q && (q - p) % BOTTOM_SZ == 0
        invariant forall k: nat :: p / BOTTOM_SZ <= k < p / BOTTOM_SZ + (q - p) / BOTTOM_SZ ==> k in rows
      {
        GetIndex(q);
        NextRow(p, q);
        q := q + BOTTOM_SZ;
      }
      GetIndex(p + n - 1);
      forall x | p <= x < p + n ensures x / BOTTOM_SZ in rows { RowCovered(p, n, q, x); }
    }

    /** GC_install_counts */
    method InstallCounts(p: nat, n: nat)
      requires Valid() && 0 < n && p + n <= size
      modifies this
      ensures Valid()
      ensures forall x :: 0 <= x < size ==> Flat()[x] == if p < x < p + n then Count(x - p) else old(Flat())[x]
    {
      hide Flat, Look;
      CoverRows(p, n);
      var q := p + 1;
      while q < p + n
        invariant Valid() && p < q <= p + n
        invariant forall x :: p <= x < p + n ==> x / BOTTOM_SZ in rows
        invariant forall x :: 0 <= x < size ==> Flat()[x] == if p < x < q then Count(x - p) else old(Flat())[x]
      {
        var i := q - p;
        ghost var before := rows.Keys;
        Set(q, Forward(if i > MAX_JUMP then MAX_JUMP else i));
        assert forall k :: k in before ==> k in rows;
        q := q + 1;
      }
    }

    /** GC_remove_counts: nothing is done if the second page has no count, as for new memory. */
    method RemoveCounts(p: nat, n: nat)
      requires Valid() && p + n <= size
      requires (forall x :: p < x < p + n ==> !Flat()[x].NoHeader?) || (forall x :: p < x < p + n ==> Flat()[x].NoHeader?)
      modifies this
      ensures Valid()
      ensures forall x :: 0 <= x < size ==> Flat()[x] == if p < x < p + n then NoHeader else old(Flat())[x]
    {
      if n <= 1 { return; }
      assert Flat()[p + 1] == Look(p + 1);
      if Look(p + 1).NoHeader? { return; }
      var q := p + 1;
      while q < p + n
        invariant Valid() && p < q <= p + n
        invariant forall x :: 0 <= x < size ==> Flat()[x] == if p < x < q then NoHeader else old(Flat())[x]
      {
        assert Flat()[q] == Look(q);
        Set(q, NoHeader);
        q := q + 1;
      }
    }

    /** The first page of the j-th entry of the i-th bottom-level index. */
    ghost function At(i: int, j: int): int
      requires 0 <= i < |keys|
      reads this
    {
      keys[i] * BOTTOM_SZ + j
    }

    /** Pages in no row have no entry. */
    lemma Missing(i: nat, x: nat)
      requires Valid() && i <= |keys| && x < size
      requires (i > 0 ==> keys[i - 1] < x / BOTTOM_SZ) && (i < |keys| ==> x / BOTTOM_SZ < keys[i])
      ensures Flat()[x] == NoHeader
    {}

    lemma MissingRange(i: nat, lo: int, hi: int)
      requires Valid() && i <= |keys| && 0 <= lo && hi <= if i < |keys| then At(i, 0) else size
      requires i > 0 ==> keys[i - 1] < lo / BOTTOM_SZ
      ensures hi <= size == |Layout(Flat())| && forall x :: lo <= x < hi ==> Layout(Flat())[x] == Nil
    {
      if i < |keys| { assert keys[i] in keys; }
      forall x | lo <= x < hi ensures Layout(Flat())[x] == Nil { Missing(i, x); }
    }

    lemma RowOrder(i: nat)
      requires Valid() && i + 1 < |keys|
      ensures At(i, BOTTOM_SZ) <= At(i + 1, 0)
    {
      assert keys[i] < keys[i + 1];
    }

    lemma InRow(i: nat, j: nat)
      requires Valid() && i < |keys| && j < BOTTOM_SZ
      ensures At(i, j) / BOTTOM_SZ == keys[i] && At(i, j) % BOTTOM_SZ == j
      ensures keys[i] in rows && |rows[keys[i]]| == BOTTOM_SZ
      ensures At(i, j) < size && Flat()[At(i, j)] == rows[keys[i]][j]
    {
      assert keys[i] in keys;
    }

    /** The loops that follow forwarding counts, from a page inside a block in use to its header. */
    method FollowCounts(x: nat, ghost heap: set<nat>) returns (o: nat)
      requires Valid() && x < size && Tiles(Layout(Flat()), heap)
      ensures o == Follow(Layout(Flat()), x) < size && !Look(o).Forward?
    {
      hide Tiles;
      ghost var lay := Layout(Flat());
      o := x;
      while Look(o).Forward?
        invariant o < size && Follow(lay, o) == Follow(lay, x)
        decreases o
      {
        ghost var b := JumpStays(lay, heap, o);
        assert lay[o] == CellOf(Look(o));
        o := o - Look(o).k;
      }
      assert lay[o] == CellOf(Look(o));
    }

    /** GC_base of an address. */
    method GcBase(p: nat, ghost heap: set<nat>) returns (r: nat)
      requires Valid() && p / HBLKSIZE < size && Tiles(Layout(Flat()), heap)
      ensures r == Base(Layout(Flat()), p)
    {
      hide Tiles, BaseIn;
      ghost var lay := Layout(Flat());
      var x := p / HBLKSIZE;
      assert lay[x] == CellOf(Look(x));
      if Look(x).NoHeader? { return 0; }
      var o := FollowCounts(x, heap);
      assert lay[o] == CellOf(Look(o));
      if !Look(o).Header? || Look(o).h.free { return 0; }
      UsedSize(lay, heap, o);
      r := ObjectAt(o, Look(o).h.sz, p);
    }

    /** GC_header_cache_miss */
    method HeaderCacheMiss(p: nat, interior: bool, ghost heap: set<nat>) returns (f: Found)
      requires Valid() && p / HBLKSIZE < size && Tiles(Layout(Flat()), heap)
      ensures f == HeaderFor(Layout(Flat()), interior, p)
    {
      hide Tiles;
      ghost var lay := Layout(Flat());
      var x := p / HBLKSIZE;
      assert lay[x] == CellOf(Look(x));
      match Look(x)
      case NoHeader => f := Found(0, true);
      case Header(h) => f := if h.free then Found(0, true) else Found(x, false);
      case Forward(_) =>
        if !interior { return Found(0, false); }
        var o := FollowCounts(x, heap);
        ghost var b := JumpStays(lay, heap, x);
        FollowReaches(lay, heap, b, x);
        assert lay[o] == CellOf(Look(o));
        var h := Look(o).h;
        if h.ignoreOffPage { return Found(0, false); }
        if h.free || p - o * HBLKSIZE >= h.sz { return Found(0, true); }
        f := Found(o, false);
    }

    /** Down a bottom-level index, from entry j0: where the nearest header is; negative if there is none. */
    method PrevInRow(i: nat, j0: nat, ghost heap: set<nat>) returns (j: int)
      requires Valid() && i < |keys| && j0 < BOTTOM_SZ && Tiles(Layout(Flat()), heap)
      ensures j <= j0 && 0 < At(i, BOTTOM_SZ) <= size && (j >= 0 ==> Head(Layout(Flat())[At(i, j)]))
      ensures forall x :: At(i, 0) <= x <= At(i, j0) && At(i, j) < x ==> !Head(Layout(Flat())[x])
    {
      hide Tiles, Head;
      ghost var lay := Layout(Flat());
      InRow(i, j0);
      j := j0;
      while j >= 0
        invariant j <= j0
        invariant forall x :: At(i, 0) <= x <= At(i, j0) && At(i, j) < x ==> !Head(lay[x])
      {
        InRow(i, j);
        var e := rows[keys[i]][j];
        HeadCell(lay[At(i, j)]);
        match e
        case NoHeader => j := j - 1;
        case Forward(k) =>
          ghost var o := JumpStays(lay, heap, At(i, j));
          NoHeads(lay, o, At(i, j));
          j := j - k;
        case Header(_) => break;
      }
    }

    /** GC_prev_block finds the nearest block at or before page p. */
    method PrevBlock(p: nat, ghost heap: set<nat>) returns (r: nat)
      requires Valid() && p < size && Tiles(Layout(Flat()), heap)
      ensures r == PrevHead(Layout(Flat()), p)
    {
      hide Tiles, PrevHead, Head, Layout, Flat, Look, CellOf, Valid;
      ghost var lay := Layout(Flat());
      var i: int := Position(p / BOTTOM_SZ);
      var j: int := p % BOTTOM_SZ;
      if i == |keys| || keys[i] != p / BOTTOM_SZ {
        ghost var lo := if i > 0 then At(i - 1, BOTTOM_SZ) else 0;
        MissingRange(i, lo, p + 1);
        NilHeads(lay, lo, p + 1);
        i, j := i - 1, BOTTOM_SZ - 1;
      }
      while i >= 0
        invariant -1 <= i < |keys| && 0 <= j < BOTTOM_SZ && (i >= 0 ==> At(i, j) <= p)
        invariant forall x :: 0 <= x <= p && (i >= 0 ==> At(i, j) < x) ==> !Head(lay[x])
      {
        var k := PrevInRow(i, j, heap);
        if k >= 0 {
          PrevIs(lay, p, At(i, k));
          return keys[i] * BOTTOM_SZ + k;
        }
        ghost var lo := if i > 0 then At(i - 1, BOTTOM_SZ) else 0;
        MissingRange(i, lo, At(i, 0));
        NilHeads(lay, lo, At(i, 0));
        i, j := i - 1, BOTTOM_SZ - 1;
      }
      PrevIs(lay, p, 0);
      r := 0;
    }

    /** Up a bottom-level index, from entry j0: where the first wanted block is; past the end if there is none. */
    method NextInRow(i: nat, j0: nat, allowFree: bool, ghost heap: set<nat>) returns (j: nat)
      requires Valid() && i < |keys| && j0 < BOTTOM_SZ && Tiles(Layout(Flat()), heap)
      ensures j0 <= j && At(i, BOTTOM_SZ) <= size && (j < BOTTOM_SZ ==> Wanted(Layout(Flat())[At(i, j)], allowFree))
      ensures forall x :: At(i, j0) <= x < At(i, BOTTOM_SZ) && x < At(i, j) ==> !Wanted(Layout(Flat())[x], allowFree)
    {
      hide Tiles;
      ghost var lay := Layout(Flat());
      InRow(i, j0);
      j := j0;
      while j < BOTTOM_SZ
        invariant j0 <= j
        invariant forall x :: At(i, j0) <= x < At(i, BOTTOM_SZ) && x < At(i, j) ==> !Wanted(lay[x], allowFree)
        decreases BOTTOM_SZ - j
      {
        InRow(i, j);
        var e := rows[keys[i]][j];
        match e
        case Header(h) =>
          if allowFree || !h.free { break; }
          FreeBodies(lay, heap, At(i, j));
          j := j + h.sz / HBLKSIZE;
        case _ => j := j + 1;
      }
    }

    /** GC_next_block finds the first block at or after page p. */
    method NextBlock(p: nat, allowFree: bool, ghost heap: set<nat>) returns (r: nat)
      requires Valid() && p < size && Tiles(Layout(Flat()), heap)
      ensures r == NextHead(Layout(Flat()), p, allowFree)
    {
      hide Tiles, NextHead, Wanted, Layout, Flat, Look, CellOf, Valid;
      ghost var lay := Layout(Flat());
      var i := Position(p / BOTTOM_SZ);
      var j: nat := p % BOTTOM_SZ;
      if i == |keys| || keys[i] != p / BOTTOM_SZ {
        j := 0;
        ghost var hi := if i < |keys| then At(i, 0) else size;
        MissingRange(i, p, hi);
        NilUnwanted(lay, p, hi, allowFree);
      }
      while i < |keys|
        invariant i <= |keys| && (i < |keys| ==> j < BOTTOM_SZ && p <= At(i, j))
        invariant forall x :: p <= x < size && (i < |keys| ==> x < At(i, j)) ==> !Wanted(lay[x], allowFree)
      {
        var k := NextInRow(i, j, allowFree, heap);
        if k < BOTTOM_SZ {
          NotZero(lay, heap, At(i, k), allowFree);
          NextIs(lay, p, allowFree, At(i, k));
          return keys[i] * BOTTOM_SZ + k;
        }
        ghost var hi := if i + 1 < |keys| then At(i + 1, 0) else size;
        if i + 1 < |keys| { RowOrder(i); }
        MissingRange(i + 1, At(i, BOTTOM_SZ), hi);
        NilUnwanted(lay, At(i, BOTTOM_SZ), hi, allowFree);
        i, j := i + 1, 0;
      }
      NextIs(lay, p, allowFree, 0);
      r := 0;
    }

    /** GC_apply_to_all_blocks visits each block in use exactly once; the result lists them in the order in
        which they are visited. */
    method ApplyToAllBlocks(ghost heap: set<nat>) returns (visited: seq<nat>)
      requires Valid() && Tiles(Layout(Flat()), heap)
      ensures NoDup(visited) && forall x: nat :: x in visited <==> x < size && Layout(Flat())[x].Used?
    {
      hide Tiles;
      ghost var lay := Layout(Flat());
      visited := [];
      var i := 0;
      ghost var done: int := 0;
      while i < |keys|
        invariant i <= |keys| && 0 <= done <= size && done == if i == 0 then 0 else At(i - 1, BOTTOM_SZ)
        invariant NoDup(visited) && forall x: nat :: x in visited <==> x < done && lay[x].Used?
      {
        assert keys[i] in keys;
        forall x | done <= x < At(i, 0) ensures lay[x] == Nil { Missing(i, x); }
        var more := VisitRow(i, heap);
        NoDupConcat(visited, more);
        visited := visited + more;
        done := At(i, BOTTOM_SZ);
        i := i + 1;
      }
      forall x | done <= x < size ensures lay[x] == Nil { Missing(i, x); }
    }

    /** The blocks in use that start in the i-th bottom-level index. */
    method VisitRow(i: nat, ghost heap: set<nat>) returns (visited: seq<nat>)
      requires Valid() && i < |keys| && Tiles(Layout(Flat()), heap)
      ensures At(i, BOTTOM_SZ) <= size && NoDup(visited)
      ensures forall x: nat :: x in visited <==> At(i, 0) <= x < At(i, BOTTOM_SZ) && Layout(Flat())[x].Used?
    {
      hide Tiles;
      ghost var lay := Layout(Flat());
      visited := [];
      var j: int := BOTTOM_SZ - 1;
      InRow(i, j);
      while j >= 0
        invariant j < BOTTOM_SZ && NoDup(visited)
        invariant forall x: nat :: x in visited <==> At(i, 0) <= x < At(i, BOTTOM_SZ) && At(i, j) < x && lay[x].Used?
        decreases j
      {
        InRow(i, j);
        var e := rows[keys[i]][j];
        match e
        case NoHeader => j := j - 1;
        case Forward(k) =>
          ghost var o := JumpStays(lay, heap, At(i, j));
          j := j - k;
        case Header(h) =>
          if !h.free {
            NoDupConcat(visited, [keys[i] * BOTTOM_SZ + j]);
            visited := visited + [keys[i] * BOTTOM_SZ + j];
          }
          j := j - 1;
      }
    }
  }

  lemma NoDupConcat(l: seq<nat>, r: seq<nat>)
    requires NoDup(l) && NoDup(r) && forall x :: x in l ==> x !in r
    ensures NoDup(l + r)
  {
    forall i, j | 0 <= i < j < |l + r| ensures (l + r)[i] != (l + r)[j] {
      if i < |l| <= j { assert l[i] in l && r[j - |l|] in r; }
    }
  }

  lemma NotZero(lay: seq<Cell>, heap: set<nat>, a: nat, allowFree: bool)
    requires Tiles(lay, heap) && a < |lay| && Wanted(lay[a], allowFree)
    ensures 2 <= a
  {
    assert BlockAt(lay, a);
  }

  /** The last part of GC_base: p is moved to the beginning of its object. */
  method ObjectAt(o: nat, sz: nat, p: nat) returns (r: nat)
    requires sz > 0
    ensures r == BaseIn(o, sz, p)
  {
    var r0 := if p / HBLKSIZE == o then p else o * HBLKSIZE;
    var r1 := r0 - r0 % WORD;
    SlotBelow(r1, sz);
    var start := r1 - (r1 % HBLKSIZE) % sz;
    var limit := start + sz;
    if limit > (o + 1) * HBLKSIZE && sz <= HBLKSIZE { return 0; }
    if p >= limit { return 0; }
    r := start;
  }

  lemma UsedSize(lay: seq<Cell>, heap: set<nat>, o: nat)
    requires Tiles(lay, heap) && o < |lay| && lay[o].Used?
    ensures lay[o].sz > 0
  {
    assert BlockAt(lay, o);
  }

  lemma SlotBelow(r: nat, sz: nat)
    requires sz > 0
    ensures (r % HBLKSIZE) % sz <= r
  {
    var x := r % HBLKSIZE;
    var n := Slot(x, sz);
    SlotOf(n, sz, x);
  }

  lemma HeadCell(c: Cell)
    ensures Head(c) <==> c.Free? || c.Used?
  {}

  lemma NilHeads(lay: seq<Cell>, lo: int, hi: int)
    requires 0 <= lo && hi <= |lay| && forall x :: lo <= x < hi ==> lay[x] == Nil
    ensures forall x :: lo <= x < hi ==> !Head(lay[x])
  {}

  lemma NilUnwanted(lay: seq<Cell>, lo: int, hi: int, allowFree: bool)
    requires 0 <= lo && hi <= |lay| && forall x :: lo <= x < hi ==> lay[x] == Nil
    ensures forall x :: lo <= x < hi ==> !Wanted(lay[x], allowFree)
  {}

  lemma NoHeads(lay: seq<Cell>, o: nat, x: nat)
    requires x < |lay| && forall y :: o < y <= x ==> lay[y].Fwd?
    ensures forall y :: o < y <= x ==> !Head(lay[y])
  {}

  lemma FreeBodies(lay: seq<Cell>, heap: set<nat>, a: nat)
    requires Tiles(lay, heap) && a < |lay| && lay[a].Free?
    ensures 0 < lay[a].pages && forall x :: a < x < a + lay[a].pages && x < |lay| ==> lay[x] == Nil
  {
    assert BlockAt(lay, a);
  }

  function EmptyRow(): (r: seq<Ent>)
    ensures |r| == BOTTOM_SZ && forall j :: 0 <= j < BOTTOM_SZ ==> r[j] == NoHeader
  {
    seq(BOTTOM_SZ, _ => NoHeader)
  }

  lemma RowFits(p: nat, size: nat)
    requires p < size && size % BOTTOM_SZ == 0
    ensures (p / BOTTOM_SZ + 1) * BOTTOM_SZ <= size
  {}

  /** Inserting a key at its place keeps the list ascending. */
  lemma ListInsert(l: seq<nat>, i: nat, hi: nat)
    requires forall a, b :: 0 <= a < b < |l| ==> l[a] < l[b]
    requires i <= |l| && hi !in l && (forall k :: 0 <= k < i ==> l[k] < hi) && (i < |l| ==> hi <= l[i])
    ensures var r := l[..i] + [hi] + l[i..];
      && (forall a, b :: 0 <= a < b < |r| ==> r[a] < r[b]) && forall k :: k in r <==> k in l || k == hi
  {
    var r := l[..i] + [hi] + l[i..];
    assert l == l[..i] + l[i..];
    forall a, b | 0 <= a < b < |r| ensures r[a] < r[b] {
      InsertedAt(l, i, hi, a);
      InsertedAt(l, i, hi, b);
      if i < |l| { assert l[i] in l; }
    }
  }

  lemma InsertedAt(l: seq<nat>, i: nat, hi: nat, k: nat)
    requires i <= |l| && k <= |l|
    ensures (l[..i] + [hi] + l[i..])[k] == if k < i then l[k] else if k == i then hi else l[k - 1]
  {}

  lemma NextRow(p: nat, q: nat)
    requires p <= q && (q - p) % BOTTOM_SZ == 0
    ensures q / BOTTOM_SZ == p / BOTTOM_SZ + (q - p) / BOTTOM_SZ
    ensures (q + BOTTOM_SZ - p) % BOTTOM_SZ == 0 && (q + BOTTOM_SZ - p) / BOTTOM_SZ == (q - p) / BOTTOM_SZ + 1
  {}

  /** Every page of a block is in a row that starts within the block's rows, or in the last page's row. */
  lemma RowCovered(p: nat, n: nat, q: nat, x: nat)
    requires 0 < n && p <= x < p + n <= q && (q - p) % BOTTOM_SZ == 0
    ensures p / BOTTOM_SZ <= x / BOTTOM_SZ < p / BOTTOM_SZ + (q - p) / BOTTOM_SZ || x / BOTTOM_SZ == (p + n - 1) / BOTTOM_SZ
  {}
}
