/** gc/allchblk.c as it works on block headers: doubly linked free lists threaded through the headers, byte
    counts, and the page index.  Each method is proved to do to the abstract heap what HeapOps says. */
module FreeLists {
  import opened HeapModel
  import opened HeapProofs
  import opened PageIndexModel

  /** The list l is linked through the headers, from `head` on. */
  predicate Chain(flat: seq<Ent>, head: nat, l: seq<nat>) {
    && head == (if l == [] then 0 else l[0])
    && NoDup(l)
    && forall j :: 0 <= j < |l| ==> Linked(flat, l, j)
  }

  predicate Linked(flat: seq<Ent>, l: seq<nat>, j: nat)
    requires j < |l|
  {
    && 0 < l[j] < |flat| && flat[l[j]].Header? && flat[l[j]].h.free
    && flat[l[j]].h.next == (if j + 1 < |l| then l[j + 1] else 0)
    && flat[l[j]].h.prev == (if j > 0 then l[j - 1] else 0)
  }

  lemma ChainFrame(flat: seq<Ent>, t: seq<Ent>, head: nat, l: seq<nat>)
    requires Chain(flat, head, l) && |flat| == |t| && forall x :: x in l ==> x < |flat| ==> flat[x] == t[x]
    ensures Chain(t, head, l)
  {
    forall j | 0 <= j < |l| ensures Linked(t, l, j) {
      assert Linked(flat, l, j) && l[j] in l;
    }
  }

  function WithNext(e: Ent, n: nat): Ent
    requires e.Header?
  {
    Header(e.h.(next := n))
  }

  function WithPrev(e: Ent, p: nat): Ent
    requires e.Header?
  {
    Header(e.h.(prev := p))
  }

  /** A block is put in front of a list. */
  lemma ChainPush(flat: seq<Ent>, t: seq<Ent>, head: nat, l: seq<nat>, a: nat, h: Hdr)
    requires Chain(flat, head, l) && 0 < a < |flat| && a !in l && h.free && h.next == head && h.prev == 0
    requires head != 0 ==> head < |flat| && flat[head].Header?
    requires t == if head == 0 then flat[a := Header(h)] else flat[a := Header(h)][head := WithPrev(flat[head], a)]
    ensures Chain(t, a, [a] + l)
  {
    var r := [a] + l;
    forall j | 0 <= j < |r| ensures Linked(t, r, j) {
      if j > 0 {
        assert Linked(flat, l, j - 1) && r[j] == l[j - 1] && l[j - 1] in l;
        if j > 1 { assert l[0] != l[j - 1]; }
      }
    }
    assert NoDup(r);
  }

  /** A block is unlinked: its neighbours are linked to each other, and the head moves on if it was first. */
  function Unlinked(flat: seq<Ent>, a: nat): seq<Ent>
    requires a < |flat| && flat[a].Header?
    requires flat[a].h.prev < |flat| && flat[a].h.next < |flat|
    requires flat[a].h.prev != 0 ==> flat[flat[a].h.prev].Header?
    requires flat[a].h.next != 0 ==> flat[flat[a].h.next].Header?
  {
    var h := flat[a].h;
    var t := if h.prev == 0 then flat else flat[h.prev := WithNext(flat[h.prev], h.next)];
    if h.next == 0 then t else t[h.next := WithPrev(t[h.next], h.prev)]
  }

  lemma LinkedHere(flat: seq<Ent>, head: nat, l: seq<nat>, k: nat)
    requires Chain(flat, head, l) && k < |l|
    ensures 0 < l[k] < |flat| && flat[l[k]].Header? && flat[l[k]].h.free
    ensures flat[l[k]].h.next == (if k + 1 < |l| then l[k + 1] else 0) < |flat|
    ensures flat[l[k]].h.prev == (if k > 0 then l[k - 1] else 0) < |flat|
    ensures k > 0 ==> flat[l[k - 1]].Header?
    ensures k + 1 < |l| ==> flat[l[k + 1]].Header? && l[k + 1] != 0
    ensures k > 0 ==> l[k - 1] != 0
  {
    assert Linked(flat, l, k);
    if k > 0 { assert Linked(flat, l, k - 1); }
    if k + 1 < |l| { assert Linked(flat, l, k + 1); }
  }

  lemma ChainRemove(flat: seq<Ent>, t: seq<Ent>, head: nat, l: seq<nat>, k: nat)
    requires Chain(flat, head, l) && k < |l|
    requires 0 < l[k] < |flat| && flat[l[k]].Header? && flat[l[k]].h.next < |flat| && flat[l[k]].h.prev < |flat|
    requires flat[l[k]].h.prev != 0 ==> flat[flat[l[k]].h.prev].Header?
    requires flat[l[k]].h.next != 0 ==> flat[flat[l[k]].h.next].Header?
    requires t == Unlinked(flat, l[k])
    ensures Chain(t, if flat[l[k]].h.prev == 0 then flat[l[k]].h.next else head, l[..k] + l[k + 1..])
  {
    LinkedHere(flat, head, l, k);
    var r := l[..k] + l[k + 1..];
    forall j | 0 <= j < |r| ensures Linked(t, r, j) {
      var i := if j < k then j else j + 1;
      assert r[j] == l[i] && Linked(flat, l, i);
      LinkedHere(flat, head, l, i);
    }
    forall i, j | 0 <= i < j < |r| ensures r[i] != r[j] {
      var x := if i < k then i else i + 1;
      var y := if j < k then j else j + 1;
      assert r[i] == l[x] && r[j] == l[y];
    }
  }
}

module HeapBlocks {
  import opened HeapModel
  import opened HeapProofs
  import opened HeapOps
  import opened HeapTheorems
  import opened HeapAlloc
  import opened HeapAllochblk
  import opened HeapBlack
  import opened PageIndexModel
  import opened PageIndexObject
  import opened FreeLists
  import opened BlackListModel
  import opened HeapMerge

  /** The sizes in the headers of free blocks are whole numbers of pages, and used blocks are not flagged as
      unmapped. */
  predicate WholePages(flat: seq<Ent>) {
    forall a :: 0 <= a < |flat| && flat[a].Header? ==>
      if flat[a].h.free then flat[a].h.sz % HBLKSIZE == 0 else !flat[a].h.unmapped
  }

  /** No block is on two lists. */
  predicate Separate(lists: seq<seq<nat>>) {
    forall i, j, x :: 0 <= i < |lists| && 0 <= j < |lists| && x in lists[i] && x in lists[j] ==> i == j
  }

  ghost predicate Threaded(flat: seq<Ent>, heads: seq<nat>, counts: seq<int>, lists: seq<seq<nat>>) {
    && |lists| == |heads| == |counts| == N_HBLK_FLS + 1 && WholePages(flat) && Separate(lists)
    && (forall i :: 0 <= i < |lists| ==> Chain(flat, heads[i], lists[i]))
    && (forall i :: 0 <= i < |lists| ==> counts[i] == ListPages(Layout(flat), lists[i]))
  }

  lemma PlaceOf(l: seq<nat>, a: nat) returns (k: nat)
    requires a in l
    ensures k < |l| && l[k] == a
  {
    k :| 0 <= k < |l| && l[k] == a;
  }

  lemma ThreadedSizes(flat: seq<Ent>, heads: seq<nat>, counts: seq<int>, lists: seq<seq<nat>>)
    requires Threaded(flat, heads, counts, lists)
    ensures |lists| == |heads| == |counts| == N_HBLK_FLS + 1 && WholePages(flat)
  {}

  lemma ThreadedAt(flat: seq<Ent>, heads: seq<nat>, counts: seq<int>, lists: seq<seq<nat>>, i: nat, k: nat)
    requires Threaded(flat, heads, counts, lists) && i < |lists| && k < |lists[i]|
    ensures |lists| == N_HBLK_FLS + 1 && k <= |lists[i]|
    ensures var l := lists[i];
      && 0 < l[k] < |flat| && flat[l[k]].Header? && flat[l[k]].h.free && flat[l[k]].h.sz % HBLKSIZE == 0
      && flat[l[k]].h.next == (if k + 1 < |l| then l[k + 1] else 0) < |flat| && flat[l[k]].h.next != l[k]
      && flat[l[k]].h.prev == (if k > 0 then l[k - 1] else 0) < |flat| && flat[l[k]].h.prev != l[k]
      && (flat[l[k]].h.next != 0 ==> flat[flat[l[k]].h.next].Header?)
      && (flat[l[k]].h.prev != 0 ==> flat[flat[l[k]].h.prev].Header?)
      && (flat[l[k]].h.prev == 0 <==> k == 0) && (flat[l[k]].h.next == 0 <==> k + 1 == |l|)
  {
    assert Chain(flat, heads[i], lists[i]);
    LinkedHere(flat, heads[i], lists[i], k);
  }

  lemma UnlinkedLayout(flat: seq<Ent>, a: nat)
    requires a < |flat| && flat[a].Header?
    requires flat[a].h.prev < |flat| && flat[a].h.next < |flat|
    requires flat[a].h.prev != 0 ==> flat[flat[a].h.prev].Header?
    requires flat[a].h.next != 0 ==> flat[flat[a].h.next].Header?
    ensures Layout(Unlinked(flat, a)) == Layout(flat)
    ensures WholePages(flat) ==> WholePages(Unlinked(flat, a))
  {}

  lemma {:induction false} ListPagesWithout(lay: seq<Cell>, l: seq<nat>, a: nat)
    requires a in l && a < |lay| && lay[a].Free?
    ensures ListPages(lay, Without(l, a)) == ListPages(lay, l) - lay[a].pages
  {
    if l[0] != a {
      ListPagesWithout(lay, l[1..], a);
      assert Without(l, a)[1..] == Without(l[1..], a);
    }
  }

  lemma RemoveThreaded(flat: seq<Ent>, t: seq<Ent>, heads: seq<nat>, heads': seq<nat>, counts: seq<int>, counts': seq<int>,
                       lists: seq<seq<nat>>, i: nat, k: nat)
    requires Threaded(flat, heads, counts, lists) && i < |lists| && k < |lists[i]|
    requires 0 < lists[i][k] < |flat| && flat[lists[i][k]].Header? && flat[lists[i][k]].h.next < |flat| && flat[lists[i][k]].h.prev < |flat|
    requires flat[lists[i][k]].h.prev != 0 ==> flat[flat[lists[i][k]].h.prev].Header?
    requires flat[lists[i][k]].h.next != 0 ==> flat[flat[lists[i][k]].h.next].Header?
    requires t == Unlinked(flat, lists[i][k])
    requires heads' == if flat[lists[i][k]].h.prev == 0 then heads[i := flat[lists[i][k]].h.next] else heads
    requires counts' == counts[i := counts[i] - flat[lists[i][k]].h.sz / HBLKSIZE]
    ensures Threaded(t, heads', counts', lists[i := Without(lists[i], lists[i][k])]) && Layout(t) == Layout(flat)
  {
    var a := lists[i][k];
    var l := lists[i];
    var ls := lists[i := Without(l, a)];
    LinkedHere(flat, heads[i], l, k);
    UnlinkedLayout(flat, a);
    WithoutAt(l, k);
    ListPagesWithout(Layout(flat), l, a);
    ChainRemove(flat, t, heads[i], l, k);
    WithoutIn(l, a);
    forall j | 0 <= j < |ls| && j != i ensures Chain(t, heads'[j], ls[j]) {
      forall x | x in lists[j] && x < |flat| ensures flat[x] == t[x] {
        OtherList(lists, i, j, k, x);
      }
      ChainFrame(flat, t, heads[j], lists[j]);
    }
  }

  lemma HeadOf(flat: seq<Ent>, heads: seq<nat>, counts: seq<int>, lists: seq<seq<nat>>, i: nat)
    requires Threaded(flat, heads, counts, lists) && i < |lists|
    ensures heads[i] == (if lists[i] == [] then 0 else lists[i][0])
    ensures heads[i] != 0 ==> heads[i] < |flat| && flat[heads[i]].Header? && heads[i] in lists[i]
  {
    assert Chain(flat, heads[i], lists[i]);
    if lists[i] != [] { LinkedHere(flat, heads[i], lists[i], 0); }
  }

  lemma AddThreaded(flat: seq<Ent>, t: seq<Ent>, heads: seq<nat>, counts: seq<int>, lists: seq<seq<nat>>, i: nat, a: nat, h: Hdr)
    requires Threaded(flat, heads, counts, lists) && i < |lists| && 0 < a < |flat| && flat[a].Header?
    requires (forall j :: 0 <= j < |lists| ==> a !in lists[j]) && h.sz % HBLKSIZE == 0
    requires h.free && h.prev == 0 && h.next == heads[i] && heads[i] < |flat| && (heads[i] != 0 ==> flat[heads[i]].Header?)
    requires t == if heads[i] == 0 then flat[a := Header(h)] else flat[a := Header(h)][heads[i] := WithPrev(flat[heads[i]], a)]
    ensures Threaded(t, heads[i := a], counts[i := counts[i] + h.sz / HBLKSIZE], lists[i := [a] + lists[i]])
    ensures Layout(t) == Layout(flat)[a := Free(h.sz / HBLKSIZE, h.unmapped)]
  {
    var ls := lists[i := [a] + lists[i]];
    HeadOf(flat, heads, counts, lists, i);
    ChainPush(flat, t, heads[i], lists[i], a, h);
    PushedLayout(flat, t, heads[i], a, h);
    forall j | 0 <= j < |ls| && j != i ensures Chain(t, heads[i := a][j], ls[j]) {
      ChainFrame(flat, t, heads[j], lists[j]);
    }
    forall j | 0 <= j < |lists| ensures ListPages(Layout(t), lists[j]) == ListPages(Layout(flat), lists[j]) {
      ListPagesSame(Layout(flat), Layout(t), lists[j]);
    }
    assert ls[i][1..] == lists[i];
    PushSeparate(lists, i, a);
  }

  lemma PushSeparate(lists: seq<seq<nat>>, i: nat, a: nat)
    requires Separate(lists) && i < |lists| && forall j :: 0 <= j < |lists| ==> a !in lists[j]
    ensures Separate(lists[i := [a] + lists[i]])
  {
    var ls := lists[i := [a] + lists[i]];
    forall j, k, x | 0 <= j < |ls| && 0 <= k < |ls| && x in ls[j] && x in ls[k] ensures j == k {
      assert x == a || (x in lists[j] && x in lists[k]);
    }
  }

  lemma PushedLayout(flat: seq<Ent>, t: seq<Ent>, head: nat, a: nat, h: Hdr)
    requires WholePages(flat) && 0 < a < |flat| && head < |flat| && head != a && h.free && h.sz % HBLKSIZE == 0
    requires head != 0 ==> flat[head].Header?
    requires t == if head == 0 then flat[a := Header(h)] else flat[a := Header(h)][head := WithPrev(flat[head], a)]
    ensures WholePages(t) && Layout(t) == Layout(flat)[a := Free(h.sz / HBLKSIZE, h.unmapped)]
  {}

  /** The neighbours of a block on one list are on no other list. */
  lemma OtherList(lists: seq<seq<nat>>, i: nat, j: nat, k: nat, x: nat)
    requires Separate(lists) && i < |lists| && j < |lists| && i != j && k < |lists[i]| && x in lists[j]
    ensures x != lists[i][k] && (k > 0 ==> x != lists[i][k - 1]) && (k + 1 < |lists[i]| ==> x != lists[i][k + 1])
  {
    assert lists[i][k] in lists[i];
    if k > 0 { assert lists[i][k - 1] in lists[i]; }
    if k + 1 < |lists[i]| { assert lists[i][k + 1] in lists[i]; }
  }

  predicate SameOnList(flat: seq<Ent>, t: seq<Ent>, l: seq<nat>) {
    forall x :: x in l ==> x < |flat| && x < |t| && t[x] == flat[x]
  }

  /** The entries of listed blocks are the same. */
  predicate SameOn(flat: seq<Ent>, t: seq<Ent>, lists: seq<seq<nat>>) {
    forall i :: 0 <= i < |lists| ==> SameOnList(flat, t, lists[i])
  }

  /** Entries of pages that are on no list may change. */
  lemma ThreadedFrame(flat: seq<Ent>, t: seq<Ent>, heads: seq<nat>, counts: seq<int>, lists: seq<seq<nat>>)
    requires Threaded(flat, heads, counts, lists) && WholePages(t) && |t| == |flat|
    requires SameOn(flat, t, lists)
    ensures Threaded(t, heads, counts, lists)
  {
    forall i | 0 <= i < |lists| ensures Chain(t, heads[i], lists[i]) && counts[i] == ListPages(Layout(t), lists[i]) {
      assert SameOnList(flat, t, lists[i]);
      ChainFrame(flat, t, heads[i], lists[i]);
      ListPagesSame(Layout(flat), Layout(t), lists[i]);
    }
  }

  /** What the search for the preceding block finds if the page before a has no header entry. */
  lemma EndingAfterNil(lay: seq<Cell>, heap: set<nat>, a: nat)
    requires Tiles(lay, heap) && 2 <= a < |lay| && lay[a - 1] == Nil
    ensures var p := PrevHead(lay, a - 1);
      EndingAt(lay, a) == if lay[p].Free? && p + lay[p].pages == a then p else 0
    ensures var p := PrevHead(lay, a - 1); lay[p].Used? ==> p * HBLKSIZE + lay[p].sz != a * HBLKSIZE
    ensures var p := PrevHead(lay, a - 1); p == 0 ==> !Head(lay[p])
  {
    var p := PrevHead(lay, a - 1);
    if Head(lay[p]) {
      assert BlockAt(lay, p);
      assert forall x :: p < x < p + Pages(lay[p]) ==> lay[x] == Body(lay[p], x - p);
    }
  }

  /** ... and if it has one. */
  lemma EndingAfterBlock(lay: seq<Cell>, heap: set<nat>, a: nat, o: nat)
    requires Tiles(lay, heap) && 2 <= a < |lay| && Head(lay[a]) && o == Follow(lay, a - 1) && lay[a - 1] != Nil
    ensures EndingAt(lay, a) == o && Head(lay[o])
  {
    assert BlockAt(lay, a);
    if lay[a - 1].Fwd? {
      var b := JumpStays(lay, heap, a - 1);
      FollowReaches(lay, heap, b, a - 1);
    }
    assert BlockAt(lay, o);
    Apart(lay, o, a);
    EndingFound(lay, o, a);
  }

  /** A block that is on no list, seen from its entry. */
  lemma OffLists(m: Heap, off: set<nat>, a: nat)
    requires Sound(m, off) && a in off
    ensures forall j :: 0 <= j < |m.lists| ==> a !in m.lists[j]
  {
    forall j | 0 <= j < |m.lists| ensures a !in m.lists[j] {
      if a in m.lists[j] { ListedAt(m.lay, m.lists, off, j, a); }
    }
  }

  /** A free block's page is a header's and on the list of its size. */
  lemma FreeEntry(flat: seq<Ent>, m: Heap, off: set<nat>, b: nat)
    requires m.lay == Layout(flat) && Sound(m, off) && b < |flat| && m.lay[b].Free? && b !in off && WholePages(flat)
    ensures flat[b].Header? && flat[b].h.free && flat[b].h.sz == m.lay[b].pages * HBLKSIZE
    ensures |m.lists| == N_HBLK_FLS + 1 && b in m.lists[Bin(m.lay[b].pages)] && 2 <= b
  {
    assert BlockAt(m.lay, b);
    assert IsListed(m.lay, m.lists, b);
  }

  lemma EntryOf(flat: seq<Ent>, a: nat)
    requires a < |flat| && Layout(flat)[a].Free?
    ensures flat[a].Header? && flat[a].h.free && flat[a].h.sz / HBLKSIZE == Layout(flat)[a].pages
    ensures flat[a].h.unmapped == Layout(flat)[a].unmapped
    ensures WholePages(flat) ==> flat[a].h.sz == Layout(flat)[a].pages * HBLKSIZE
  {}

  lemma CellIs(flat: seq<Ent>, a: nat)
    requires a < |flat|
    ensures |Layout(flat)| == |flat| && Layout(flat)[a] == CellOf(flat[a])
    ensures WholePages(flat) && flat[a].Header? ==> if flat[a].h.free then flat[a].h.sz % HBLKSIZE == 0 else !flat[a].h.unmapped
  {}

  lemma NothingAtZero(m: Heap, off: set<nat>)
    requires Sound(m, off)
    ensures forall x :: 0 <= x < |m.lay| && Head(m.lay[x]) ==> 2 <= x
  {
    assert forall x :: 0 <= x < |m.lay| && Head(m.lay[x]) ==> BlockAt(m.lay, x);
  }

  /** The effect on layout and lists of joining block a with the block b behind it, b having left its list. */
  lemma JoinThreaded(flat: seq<Ent>, t: seq<Ent>, heads: seq<nat>, counts: seq<int>, lists: seq<seq<nat>>, a: nat, b: nat)
    requires Threaded(flat, heads, counts, lists) && a < b < |flat|
    requires flat[a].Header? && flat[a].h.free && flat[b].Header? && flat[b].h.free
    requires forall j :: 0 <= j < |lists| ==> a !in lists[j] && b !in lists[j]
    requires t == flat[a := Header(flat[a].h.(sz := flat[a].h.sz + flat[b].h.sz))][b := NoHeader]
    ensures Threaded(t, heads, counts, lists)
    ensures var lay := Layout(flat); Layout(t) == lay[b := Nil][a := Free(lay[a].pages + lay[b].pages, lay[a].unmapped)]
  {
    JoinedLayout(flat, t, a, b);
    forall i | 0 <= i < |lists| ensures SameOnList(flat, t, lists[i]) {
      forall x | x in lists[i] ensures x < |flat| && x < |t| && t[x] == flat[x] { OnChain(flat, heads, counts, lists, i, x); }
    }
    ThreadedFrame(flat, t, heads, counts, lists);
  }

  lemma OnChain(flat: seq<Ent>, heads: seq<nat>, counts: seq<int>, lists: seq<seq<nat>>, i: nat, x: nat)
    requires Threaded(flat, heads, counts, lists) && i < |lists| && x in lists[i]
    ensures x < |flat| && flat[x].Header? && flat[x].h.free
  {
    var k := PlaceOf(lists[i], x);
    ThreadedAt(flat, heads, counts, lists, i, k);
  }

  lemma JoinedLayout(flat: seq<Ent>, t: seq<Ent>, a: nat, b: nat)
    requires WholePages(flat) && a < b < |flat|
    requires flat[a].Header? && flat[a].h.free && flat[b].Header? && flat[b].h.free
    requires t == flat[a := Header(flat[a].h.(sz := flat[a].h.sz + flat[b].h.sz))][b := NoHeader]
    ensures WholePages(t)
    ensures var lay := Layout(flat); Layout(t) == lay[b := Nil][a := Free(lay[a].pages + lay[b].pages, lay[a].unmapped)]
  {
    var lay := Layout(flat);
    assert t[a].h.sz / HBLKSIZE == lay[a].pages + lay[b].pages;
  }

  lemma ReleasedLayout(flat: seq<Ent>, t: seq<Ent>, a: nat, p: nat)
    requires WholePages(flat) && a < |flat| == |t| && flat[a].Header? && !flat[a].h.free && p == Blocks(flat[a].h.sz)
    requires t[a] == Header(flat[a].h.(sz := p * HBLKSIZE, free := true))
    requires forall x :: 0 <= x < |flat| && x != a ==> t[x] == if a < x < a + p then NoHeader else flat[x]
    ensures WholePages(t) && Layout(t) == PutBlock(Layout(flat), a, Free(p, false))
  {
    hide Layout, PutBlock, WholePages, Blocks;
    var lay, c := Layout(flat), Free(p, false);
    PutFreeAt(lay, a, c, a);
    forall x: nat | x < |flat| ensures Layout(t)[x] == PutBlock(lay, a, c)[x] {
      CellIs(flat, x);
      CellIs(t, x);
      PutFreeAt(lay, a, c, x);
      if x == a { assert t[a].h.sz / HBLKSIZE == p; }
    }
    assert Layout(t) == PutBlock(lay, a, c);
    StillWhole(flat, t, a);
  }

  lemma StillWhole(flat: seq<Ent>, t: seq<Ent>, a: nat)
    requires WholePages(flat) && a < |flat| == |t| && t[a].Header? && t[a].h.free && t[a].h.sz % HBLKSIZE == 0
    requires forall x :: 0 <= x < |flat| && x != a ==> t[x] == NoHeader || t[x] == flat[x]
    ensures WholePages(t)
  {
    forall x | 0 <= x < |t| && t[x].Header? ensures if t[x].h.free then t[x].h.sz % HBLKSIZE == 0 else !t[x].h.unmapped {
      if x != a { assert flat[x].Header? && flat[x] == t[x]; }
    }
  }

  lemma JoinCell(m: Heap, a: nat)
    requires a < |m.lay| && m.lay[a].Free? && a + m.lay[a].pages < |m.lay| && m.lay[a + m.lay[a].pages].Free?
    ensures Join(m, a).lists == m.lists && |Join(m, a).lay| == |m.lay| && Join(m, a).lay[a].Free?
  {}

  /** A used block as it becomes free, on no list yet. */
  function Released(m: Heap, a: nat): Heap
    requires a < |m.lay| && Head(m.lay[a])
  {
    Convert(m, a, Free(Pages(m.lay[a]), false))
  }

  /** The pages of a block after the first have all a forwarding count, or none of them has an entry. */
  predicate Uniform(flat: seq<Ent>, a: nat, p: nat) {
    && a + p <= |flat|
    && ((forall x :: a < x < a + p ==> !flat[x].NoHeader?) || (forall x :: a < x < a + p ==> flat[x].NoHeader?))
    && (forall x :: a < x < a + p ==> !flat[x].Header?)
  }

  lemma ReleasedThreaded(flat: seq<Ent>, t: seq<Ent>, heads: seq<nat>, counts: seq<int>, lists: seq<seq<nat>>, a: nat, p: nat)
    requires Threaded(flat, heads, counts, lists) && a < |flat| == |t| && flat[a].Header? && !flat[a].h.free
    requires Uniform(flat, a, p) && WholePages(t)
    requires forall x :: 0 <= x < |flat| && x != a && !(a < x < a + p) ==> t[x] == flat[x]
    ensures Threaded(t, heads, counts, lists)
  {
    forall i | 0 <= i < |lists| ensures SameOnList(flat, t, lists[i]) {
      forall x | x in lists[i] ensures x < |flat| && x < |t| && t[x] == flat[x] { OnChain(flat, heads, counts, lists, i, x); }
    }
    ThreadedFrame(flat, t, heads, counts, lists);
  }

  lemma ReleasedFacts(m: Heap, a: nat)
    requires a < |m.lay| && Head(m.lay[a])
    ensures |Released(m, a).lay| == |m.lay| && Released(m, a).lay[a] == Free(Pages(m.lay[a]), false)
    ensures Released(m, a) == m.(lay := Released(m, a).lay)
  {}

  /** In a heap that is in order any block may be freed (GC_freehblk aborts if it is free already). */
  lemma MayFree(flat: seq<Ent>, m: Heap, a: nat)
    requires m.lay == Layout(flat) && Inv(m) && a < |flat| && Head(m.lay[a])
    ensures 2 <= a && a + Pages(m.lay[a]) < |flat| && Uniform(flat, a, Pages(m.lay[a]))
    ensures m.lay[a].Used? ==> Sound(Released(m, a), {a})
  {
    hide Layout, Sound, PutBlock;
    InvBlock(m, a);
    forall x | a < x < a + Pages(m.lay[a])
      ensures !flat[x].Header? && (flat[x].NoHeader? <==> m.lay[a].Free?)
    {
      CellIs(flat, x);
    }
    if m.lay[a].Used? {
      ReleaseSound(m, {}, a);
      assert {} + {a} == {a};
    }
  }

  lemma InvBlock(m: Heap, a: nat)
    requires Inv(m) && a < |m.lay| && Head(m.lay[a])
    ensures BlockAt(m.lay, a) && Sound(m, {})
  {}

  lemma SoundLarge(m: Heap, off: set<nat>, n: int)
    requires Sound(m, off)
    ensures Sound(m.(largeFree := n), off)
  {}

  lemma EndingFacts(lay: seq<Cell>, a: nat)
    requires 0 < a <= |lay|
    ensures var r := EndingAt(lay, a); r != 0 ==> r < a && Head(lay[r]) && r + Pages(lay[r]) == a
  {}

  lemma SoundTiles(m: Heap, off: set<nat>)
    requires Sound(m, off)
    ensures Tiles(m.lay, m.heap)
  {}

  // --------------------------------------------------------------------------- growing

  /** Memory that is no part of the heap yet has no entries. */
  lemma NewMemory(m: Heap, flat: seq<Ent>, p: nat, n: nat)
    requires Inv(m) && m.lay == Layout(flat) && p + n < |flat|
    requires forall x :: p <= x < p + n ==> x !in m.heap
    ensures |m.lists| == N_HBLK_FLS + 1 && forall x :: p <= x < p + n ==> flat[x].NoHeader? && m.lay[x] == Nil
  {
    forall x | p <= x < p + n ensures flat[x].NoHeader? && m.lay[x] == Nil {
      assert x !in m.heap;
      assert m.lay[x] == Nil;
      CellIs(flat, x);
    }
  }

  lemma NewHeader(flat: seq<Ent>, t: seq<Ent>, heads: seq<nat>, counts: seq<int>, lists: seq<seq<nat>>, p: nat, n: nat)
    requires Threaded(flat, heads, counts, lists) && 0 < n && p + n < |flat| && forall x :: p <= x < p + n ==> flat[x].NoHeader?
    requires t == flat[p := Header(Hdr(n * HBLKSIZE, 0, 0, false, false, 0, false))]
    ensures Threaded(t, heads, counts, lists) && Layout(t) == Layout(flat)[p := Used(n * HBLKSIZE, 0, false)]
    ensures Uniform(t, p, n) && Blocks(n * HBLKSIZE) == n
  {
    forall i | 0 <= i < |lists| ensures SameOnList(flat, t, lists[i]) {
      forall x | x in lists[i] ensures x < |flat| && x < |t| && t[x] == flat[x] { OnChain(flat, heads, counts, lists, i, x); }
    }
    ThreadedFrame(flat, t, heads, counts, lists);
  }

  lemma NewReleased(lay: seq<Cell>, m: Heap, g: Heap, p: nat, n: nat)
    requires p + n < |lay| && forall x :: p <= x < p + n ==> lay[x] == Nil
    requires m.lay == lay[p := Used(n * HBLKSIZE, 0, false)] && g == m.(lay := lay[p := Free(n, false)]) && Blocks(n * HBLKSIZE) == n
    ensures Released(m, p) == g
  {
    var t := Released(m, p).lay;
    forall x | 0 <= x < |lay| ensures t[x] == g.lay[x] {}
    assert t == g.lay;
  }

  // ------------------------------------------------------------------------ allocating

  lemma FlagThreaded(flat: seq<Ent>, t: seq<Ent>, heads: seq<nat>, counts: seq<int>, lists: seq<seq<nat>>, f: nat, u: bool)
    requires Threaded(flat, heads, counts, lists) && f < |flat| && flat[f].Header? && flat[f].h.free
    requires t == flat[f := Header(flat[f].h.(unmapped := u))]
    ensures Threaded(t, heads, counts, lists) && Layout(t) == Layout(flat)[f := Free(flat[f].h.sz / HBLKSIZE, u)]
  {
    forall i | 0 <= i < |lists| ensures Chain(t, heads[i], lists[i]) && ListPages(Layout(t), lists[i]) == ListPages(Layout(flat), lists[i]) {
      assert Chain(flat, heads[i], lists[i]);
      forall j | 0 <= j < |lists[i]| ensures Linked(t, lists[i], j) { assert Linked(flat, lists[i], j); }
      ListPagesAlike(Layout(flat), Layout(t), lists[i]);
    }
  }

  lemma {:induction false} ListPagesAlike(lay: seq<Cell>, t: seq<Cell>, l: seq<nat>)
    requires |lay| == |t|
    requires forall x :: 0 <= x < |lay| ==> lay[x].Free? == t[x].Free? && (lay[x].Free? ==> lay[x].pages == t[x].pages)
    ensures ListPages(lay, l) == ListPages(t, l)
  {
    if l != [] { ListPagesAlike(lay, t, l[1..]); }
  }

  function PlaceIn(l: seq<nat>, a: nat): (k: nat)
    requires a in l
    ensures k < |l| && l[k] == a
  {
    if l[0] == a then 0 else 1 + PlaceIn(l[1..], a)
  }

  lemma InsideFree(flat: seq<Ent>, m: Heap, f: nat, n: nat)
    requires m.lay == Layout(flat) && Sound(m, {}) && f < n < |flat| && m.lay[f].Free? && n < f + m.lay[f].pages
    ensures flat[n].NoHeader?
  {
    FreePagesAreNil(m.lay, m.heap, f, n);
    CellIs(flat, n);
  }

  /** In the middle of GC_split_block: n has replaced f as the k-th block of list i. */
  function Splitting(m: Heap, f: nat, n: nat, i: nat, k: nat): Heap
    requires f < n < |m.lay| && m.lay[f].Free? && n < f + m.lay[f].pages && i < |m.lists| && k < |m.lists[i]|
  {
    m.(lay := m.lay[f := Free(n - f, m.lay[f].unmapped)][n := Free(f + m.lay[f].pages - n, false)],
       lists := m.lists[i := Put(m.lists[i], k, n)])
  }

  lemma SplitThreaded(m: Heap, flat: seq<Ent>, t: seq<Ent>, heads: seq<nat>, heads': seq<nat>, counts: seq<int>, counts': seq<int>,
                      f: nat, n: nat, i: nat, k: nat)
    requires Threaded(flat, heads, counts, m.lists) && m.lay == Layout(flat) && f < n < |flat| && i < |m.lists| && k < |m.lists[i]|
    requires flat[f].Header? && flat[f].h.free && flat[f].h.prev < |flat| && flat[f].h.next < |flat| && m.lists[i][k] == f
    requires flat[n].NoHeader? && n < f + flat[f].h.sz / HBLKSIZE
    requires t == Replaced(flat, f, n)
    requires heads' == if flat[f].h.prev == 0 then heads[i := n] else heads
    requires counts' == counts[i := counts[i] - (n - f)]
    ensures Threaded(t, heads', counts', m.lists[i := Put(m.lists[i], k, n)])
    ensures Layout(t) == Splitting(m, f, n, i, k).lay && OffAll(m.lists[i := Put(m.lists[i], k, n)], f)
  {
    hide Chain, ListPages, Layout, Replaced, Put, NoDup, Separate;
    var l, r := m.lists[i], Put(m.lists[i], k, n);
    var ls := m.lists[i := r];
    assert Chain(flat, heads[i], l);
    SplitLayout(flat, t, f, n, k, l, heads[i]);
    SplitChain(flat, t, heads[i], l, f, n, k);
    forall j | 0 <= j < |ls| && j != i ensures Chain(t, heads'[j], ls[j]) && ListPages(Layout(t), ls[j]) == ListPages(Layout(flat), ls[j]) && f !in ls[j] && n !in ls[j] {
      SplitOther(flat, t, heads, counts, m.lists, f, n, i, j, k);
    }
    CellIs(flat, f);
    SplitPagesOf(flat, t, heads[i], l, f, n, k);
    SplitSeparate(m.lists, i, k, n);
  }

  predicate OffAll(lists: seq<seq<nat>>, a: nat) { forall j :: 0 <= j < |lists| ==> a !in lists[j] }

  function Put(l: seq<nat>, k: nat, n: nat): seq<nat>
    requires k < |l|
  {
    l[k := n]
  }

  lemma SplitLayout(flat: seq<Ent>, t: seq<Ent>, f: nat, n: nat, k: nat, l: seq<nat>, head: nat)
    requires WholePages(flat) && Chain(flat, head, l) && k < |l| && l[k] == f && f < n < |flat|
    requires flat[f].Header? && flat[f].h.free && flat[f].h.prev < |flat| && flat[f].h.next < |flat|
    requires flat[n].NoHeader? && n < f + flat[f].h.sz / HBLKSIZE && t == Replaced(flat, f, n)
    ensures WholePages(t)
    ensures var lay := Layout(flat);
      Layout(t) == lay[f := Free(n - f, lay[f].unmapped)][n := Free(f + lay[f].pages - n, false)]
  {
    LinkedHere(flat, head, l, k);
    var h := flat[f].h;
    assert h.prev != f && h.next != f by { assert Linked(flat, l, k); }
    assert (h.sz - (n - f) * HBLKSIZE) % HBLKSIZE == 0 && (h.sz - (n - f) * HBLKSIZE) / HBLKSIZE == f + h.sz / HBLKSIZE - n;
    var lay := Layout(flat);
    var d := lay[f := Free(n - f, lay[f].unmapped)][n := Free(f + lay[f].pages - n, false)];
    forall x | 0 <= x < |flat| ensures Layout(t)[x] == d[x] {}
  }

  lemma SplitChain(flat: seq<Ent>, t: seq<Ent>, head: nat, l: seq<nat>, f: nat, n: nat, k: nat)
    requires Chain(flat, head, l) && k < |l| && l[k] == f && f < n < |flat|
    requires flat[f].Header? && flat[f].h.prev < |flat| && flat[f].h.next < |flat|
    requires flat[n].NoHeader? && n < f + flat[f].h.sz / HBLKSIZE && t == Replaced(flat, f, n)
    ensures Chain(t, if flat[f].h.prev == 0 then n else head, Put(l, k, n)) && f !in Put(l, k, n) && n !in l
  {
    var r := Put(l, k, n);
    LinkedHere(flat, head, l, k);
    forall j | 0 <= j < |l| ensures l[j] != n && (j != k ==> l[j] != f) { assert Linked(flat, l, j); }
    forall j | 0 <= j < |r| ensures Linked(t, r, j) {
      assert Linked(flat, l, j);
      LinkedHere(flat, head, l, j);
    }
  }

  lemma SplitOther(flat: seq<Ent>, t: seq<Ent>, heads: seq<nat>, counts: seq<int>, lists: seq<seq<nat>>, f: nat, n: nat, i: nat, j: nat, k: nat)
    requires Threaded(flat, heads, counts, lists) && i < |lists| && j < |lists| && i != j && k < |lists[i]| && lists[i][k] == f
    requires f < n < |flat| && flat[f].Header? && flat[f].h.prev < |flat| && flat[f].h.next < |flat|
    requires flat[n].NoHeader? && n < f + flat[f].h.sz / HBLKSIZE && t == Replaced(flat, f, n)
    ensures Chain(t, heads[j], lists[j]) && ListPages(Layout(t), lists[j]) == ListPages(Layout(flat), lists[j])
    ensures f !in lists[j] && n !in lists[j]
  {
    ThreadedAt(flat, heads, counts, lists, i, k);
    forall x | x in lists[j] ensures x < |flat| && t[x] == flat[x] && x != f && x != n {
      OtherList(lists, i, j, k, x);
      OnChain(flat, heads, counts, lists, j, x);
    }
    ChainFrame(flat, t, heads[j], lists[j]);
    ListPagesSame(Layout(flat), Layout(t), lists[j]);
  }

  lemma {:induction false} SplitPages(lay: seq<Cell>, t: seq<Cell>, l: seq<nat>, k: nat, n: nat)
    requires k < |l| && |lay| == |t| && n < |t| && t[n].Free? && l[k] < |lay| && lay[l[k]].Free?
    requires NoDup(l) && forall x :: x in l && x != l[k] ==> x < |lay| && t[x] == lay[x]
    ensures ListPages(t, Put(l, k, n)) == ListPages(lay, l) - lay[l[k]].pages + t[n].pages
  {
    if k == 0 {
      assert Put(l, 0, n)[1..] == l[1..];
      forall x | x in l[1..] && x < |lay| ensures lay[x] == t[x] { assert x in l && x != l[0]; }
      ListPagesSame(lay, t, l[1..]);
    } else {
      assert Put(l, k, n)[1..] == Put(l[1..], k - 1, n);
      assert l[1..][k - 1] == l[k];
      forall x | x in l[1..] && x != l[k] ensures x < |lay| && t[x] == lay[x] { assert x in l; }
      SplitPages(lay, t, l[1..], k - 1, n);
      assert l[0] in l && l[0] != l[k];
    }
  }

  lemma SplitPagesOf(flat: seq<Ent>, t: seq<Ent>, head: nat, l: seq<nat>, f: nat, n: nat, k: nat)
    requires Chain(flat, head, l) && k < |l| && l[k] == f && f < n < |flat| == |t| && n !in l && Layout(flat)[f].Free?
    requires n < f + Layout(flat)[f].pages
    requires var lay := Layout(flat);
      Layout(t) == lay[f := Free(n - f, lay[f].unmapped)][n := Free(f + lay[f].pages - n, false)]
    ensures ListPages(Layout(t), Put(l, k, n)) == ListPages(Layout(flat), l) - (n - f)
  {
    forall x | x in l && x != f ensures x < |flat| && Layout(t)[x] == Layout(flat)[x] {
      var j := PlaceOf(l, x);
      LinkedHere(flat, head, l, j);
    }
    hide Chain, Layout;
    SplitPages(Layout(flat), Layout(t), l, k, n);
  }

  lemma SplitSeparate(lists: seq<seq<nat>>, i: nat, k: nat, n: nat)
    requires Separate(lists) && i < |lists| && k < |lists[i]| && forall j :: 0 <= j < |lists| && j != i ==> n !in lists[j]
    ensures Separate(lists[i := Put(lists[i], k, n)])
  {
    var ls := lists[i := Put(lists[i], k, n)];
    forall j, q, x | 0 <= j < |ls| && 0 <= q < |ls| && x in ls[j] && x in ls[q] ensures j == q {
      assert x == n || (x in lists[j] && x in lists[q]);
    }
  }

  /** The entries after n has taken the place of f on its list. */
  function Replaced(flat: seq<Ent>, f: nat, n: nat): seq<Ent>
    requires f < n < |flat| && flat[f].Header? && flat[f].h.prev < |flat| && flat[f].h.next < |flat|
    requires n < f + flat[f].h.sz / HBLKSIZE
  {
    var h := flat[f].h;
    var t0 := flat[n := Header(Hdr(h.sz - (n - f) * HBLKSIZE, h.next, h.prev, true, false, 0, false))];
    var t1 := if h.prev != 0 && t0[h.prev].Header? then t0[h.prev := WithNext(t0[h.prev], n)] else t0;
    var t2 := if h.next != 0 && t1[h.next].Header? then t1[h.next := WithPrev(t1[h.next], n)] else t1;
    t2[f := Header(h.(sz := (n - f) * HBLKSIZE))]
  }

  lemma NoFront(m: Heap, f: nat)
    requires f < |m.lay| && m.lay[f].Free? && |m.lists| == N_HBLK_FLS + 1 && 0 < m.lay[f].pages
    ensures FrontPart(m, f, f) == m
  {}

  /** Once the second part has left its list again, the lists are as if the whole block had been removed and its
      first part added. */
  lemma SplitTake(m: Heap, f: nat, r: nat, i: nat)
    requires Sound(m, {}) && f < r < |m.lay| && m.lay[f].Free? && !m.lay[f].unmapped && r < f + m.lay[f].pages
    requires i == Bin(m.lay[f].pages) && |m.lists| == N_HBLK_FLS + 1 && f in m.lists[i]
    ensures var s := Splitting(m, f, r, i, PlaceIn(m.lists[i], f));
      && |s.lay| == |m.lay| && s.lay[f].Free? && |s.lists| == N_HBLK_FLS + 1
      && r in Push(s, f).lists[i] && Take(Push(s, f), r, i) == FrontPart(Take(m, f, i), f, r)
  {
    hide Sound, Bin, Without, ListOk, NoDup;
    var l, k := m.lists[i], PlaceIn(m.lists[i], f);
    var s := Splitting(m, f, r, i, k);
    NotListed(m, f, r, i);
    PutWithout(l, k, r);
    PutAt(l, k, r);
    TakePushed(s, m.lists[i := Put(l, k, r)], f, r, i, Put(l, k, r), Without(l, f), Bin(r - f));
    assert Take(Push(s, f), r, i).lists == FrontPart(Take(m, f, i), f, r).lists;
  }

  lemma NotListed(m: Heap, f: nat, r: nat, i: nat)
    requires Sound(m, {}) && f < r < |m.lay| && m.lay[f].Free? && r < f + m.lay[f].pages && i < |m.lists|
    ensures r !in m.lists[i] && NoDup(m.lists[i])
  {
    assert ListOk(m.lay, m.lists[i], i, {});
    if r in m.lists[i] { ListedAt(m.lay, m.lists, {}, i, r); FreePagesAreNil(m.lay, m.heap, f, r); }
  }

  lemma PutAt(l: seq<nat>, k: nat, r: nat)
    requires k < |l|
    ensures r in Put(l, k, r)
  {
    assert Put(l, k, r)[k] == r;
  }

  /** f is pushed on list j and r then taken off list i. */
  lemma TakePushed(s: Heap, lists: seq<seq<nat>>, f: nat, r: nat, i: nat, put: seq<nat>, rest: seq<nat>, j: nat)
    requires f < r && f < |s.lay| && s.lay[f].Free? && |s.lists| == N_HBLK_FLS + 1 && i < |s.lists| && j == Bin(s.lay[f].pages)
    requires s.lists == lists && lists[i] == put && r in put && Without(put, r) == rest
    ensures r in Push(s, f).lists[i]
    ensures Take(Push(s, f), r, i).lists ==
      if j == i then lists[i := [f] + rest] else lists[j := [f] + lists[j]][i := rest]
  {
    hide Bin;
    var p := Push(s, f);
    if j == i {
      assert p.lists[i] == [f] + put && p.lists[i][0] == f && p.lists[i][1..] == put;
      assert r in p.lists[i][1..];
    } else {
      assert p.lists[i] == put;
    }
  }

  lemma {:induction false} PutWithout(l: seq<nat>, k: nat, r: nat)
    requires NoDup(l) && k < |l| && r !in l
    ensures Without(Put(l, k, r), r) == Without(l, l[k])
  {
    if k == 0 {
      assert Put(l, 0, r)[1..] == l[1..];
    } else {
      assert Put(l, k, r)[1..] == Put(l[1..], k - 1, r);
      assert l[1..][k - 1] == l[k];
      PutWithout(l[1..], k - 1, r);
    }
  }

  lemma InsideOff(flat: seq<Ent>, m: Heap, f: nat, n: nat)
    requires m.lay == Layout(flat) && Sound(m, {f}) && f < n < |flat| && m.lay[f].Free? && n < f + m.lay[f].pages
    ensures flat[n].NoHeader?
  {
    FreePagesAreNil(m.lay, m.heap, f, n);
    CellIs(flat, n);
  }

  lemma RestThreaded(flat: seq<Ent>, t: seq<Ent>, heads: seq<nat>, counts: seq<int>, lists: seq<seq<nat>>, a: nat, sz: nat)
    requires Threaded(flat, heads, counts, lists) && a < |flat| && flat[a].NoHeader? && sz % HBLKSIZE == 0
    requires t == flat[a := Header(Hdr(sz, 0, 0, true, false, 0, false))]
    ensures Threaded(t, heads, counts, lists) && Layout(t) == Layout(flat)[a := Free(sz / HBLKSIZE, false)] && OffAll(lists, a)
  {
    forall i | 0 <= i < |lists| ensures SameOnList(flat, t, lists[i]) && a !in lists[i] {
      forall x | x in lists[i] ensures x < |flat| && x < |t| && t[x] == flat[x] && x != a { OnChain(flat, heads, counts, lists, i, x); }
    }
    ThreadedFrame(flat, t, heads, counts, lists);
  }

  lemma RestSize(sz: nat, need: nat)
    requires sz % HBLKSIZE == 0 && need < sz / HBLKSIZE
    ensures (sz - need * HBLKSIZE) % HBLKSIZE == 0 && sz - need * HBLKSIZE > 0
    ensures (sz - need * HBLKSIZE) / HBLKSIZE == sz / HBLKSIZE - need
  {}

  lemma NothingBack(m: Heap, r: nat, need: nat)
    requires r < |m.lay| && m.lay[r].Free? && 0 < need && m.lay[r].pages <= need && |m.lists| == N_HBLK_FLS + 1
    requires r + m.lay[r].pages < |m.lay|
    ensures m == FirstPart(m, r, need).(lay := m.lay) && m.lay == FirstPart(m, r, need).lay[r := m.lay[r]]
  {}

  lemma GivenBack(m: Heap, t: Heap, r: nat, need: nat)
    requires r < |m.lay| && m.lay[r].Free? && !m.lay[r].unmapped && 0 < need < m.lay[r].pages && r + m.lay[r].pages < |m.lay|
    requires |m.lists| == N_HBLK_FLS + 1
    requires var c := m.lay[r + need := Free(m.lay[r].pages - need, false)]; t == Push(m.(lay := c[r + need := Free(m.lay[r].pages - need, false)]), r + need)
    ensures t == FirstPart(m, r, need).(lay := t.lay) && t.lay == FirstPart(m, r, need).lay[r := m.lay[r]]
  {
    var s := Split(m, r, need);
    assert s.lay[r + need] == Free(m.lay[r].pages - need, false);
    assert t.lay == s.lay[r := m.lay[r]];
  }

  lemma SetUpThreaded(flat: seq<Ent>, t: seq<Ent>, heads: seq<nat>, counts: seq<int>, lists: seq<seq<nat>>, r: nat, q: Request)
    requires Threaded(flat, heads, counts, lists) && r < |flat| == |t| && OffAll(lists, r) && 0 < Need(q) && r + Need(q) <= |flat|
    requires forall x :: r < x < r + Need(q) ==> flat[x].NoHeader?
    requires t[r] == Header(Hdr(q.sz, 0, 0, false, false, q.kind, q.ignoreOffPage))
    requires forall x :: 0 <= x < |flat| && x != r ==> t[x] == if r < x < r + Need(q) then Count(x - r) else flat[x]
    ensures Threaded(t, heads, counts, lists) && Layout(t) == PutBlock(Layout(flat), r, NewBlock(q))
  {
    forall i | 0 <= i < |lists| ensures SameOnList(flat, t, lists[i]) {
      forall x | x in lists[i] ensures x < |flat| && x < |t| && t[x] == flat[x] { OnChain(flat, heads, counts, lists, i, x); }
    }
    forall x | 0 <= x < |t| && t[x].Header? ensures if t[x].h.free then t[x].h.sz % HBLKSIZE == 0 else !t[x].h.unmapped {
      if x != r { assert flat[x].Header? && flat[x] == t[x]; }
    }
    ThreadedFrame(flat, t, heads, counts, lists);
    SetUpLayout(flat, t, r, q);
  }

  lemma SetUpLayout(flat: seq<Ent>, t: seq<Ent>, r: nat, q: Request)
    requires r < |flat| == |t| && t[r] == Header(Hdr(q.sz, 0, 0, false, false, q.kind, q.ignoreOffPage))
    requires forall x :: 0 <= x < |flat| && x != r ==> t[x] == if r < x < r + Need(q) then Count(x - r) else flat[x]
    ensures Layout(t) == PutBlock(Layout(flat), r, NewBlock(q))
  {
    var c, d := NewBlock(q), PutBlock(Layout(flat), r, NewBlock(q));
    assert Pages(c) == Need(q);
    forall x | 0 <= x < |t| ensures Layout(t)[x] == d[x] {
      if r < x < r + Need(q) {
        assert t[x] == Count(x - r);
        assert d[x] == Body(c, x - r) == Fwd(if x - r > MAX_JUMP then MAX_JUMP else x - r);
      }
    }
  }

  /** The pages of the new block are in the state that setting up its header needs. */
  lemma ReadyToSetUp(m2: Heap, m3: Heap, v: Heap, flat: seq<Ent>, r: nat, need: nat)
    requires Sound(m2, {r}) && Sound(m3, {r}) && r < |m2.lay| && m2.lay[r].Free? && 0 < need <= m2.lay[r].pages
    requires |m2.lay| == |m3.lay| && m3.lay[r].Free? && m3.lay[r].pages == need
    requires v.lists == m3.lists && v.lay == m3.lay[r := m2.lay[r]] && v.lay == Layout(flat)
    ensures flat[r].Header? && OffAll(v.lists, r) && r + need < |flat|
    ensures forall x :: r < x < r + need ==> flat[x].NoHeader?
  {
    assert BlockAt(m3.lay, r);
    CellIs(flat, r);
    OffLists(m3, {r}, r);
    forall x | r < x < r + need ensures flat[x].NoHeader? {
      CellIs(flat, x);
      assert m3.lay[x] == Body(m3.lay[r], x - r);
    }
  }

  lemma PutOver(lay: seq<Cell>, r: nat, b: Cell, c: Cell)
    requires r < |lay| && Head(c)
    ensures PutBlock(lay[r := b], r, c) == PutBlock(lay, r, c)
  {}

  // -------------------------------------------------------------------------- dropping

  const CHUNK: Hdr := Hdr(HBLKSIZE, 0, 0, false, false, 0, false)

  lemma SameEntry(flat: seq<Ent>, t: seq<Ent>, f: nat)
    requires f < |flat| == |t| && t[f] == flat[f] && flat[f].Header?
    ensures t[f].Header?
  {}

  lemma DroppedThreaded(m: Heap, flat: seq<Ent>, t: seq<Ent>, heads: seq<nat>, counts: seq<int>, f: nat)
    requires Sound(m, {f}) && m.lay == Layout(flat) && Threaded(flat, heads, counts, m.lists)
    requires f < |flat| == |t| && m.lay[f].Free?
    requires forall y :: 0 <= y < |flat| ==> t[y] == if f <= y < f + m.lay[f].pages then Header(CHUNK) else flat[y]
    ensures Threaded(t, heads, counts, m.lists)
    ensures forall y :: 0 <= y < |flat| ==>
              Layout(t)[y] == if f <= y < f + m.lay[f].pages then Used(HBLKSIZE, 0, false) else Layout(flat)[y]
  {
    assert BlockAt(m.lay, f);
    assert forall x :: f < x < f + m.lay[f].pages ==> m.lay[x] == Nil;
    OffLists(m, {f}, f);
    forall i | 0 <= i < |m.lists| ensures SameOnList(flat, t, m.lists[i]) {
      forall x | x in m.lists[i] ensures x < |flat| && x < |t| && t[x] == flat[x] {
        OnChain(flat, heads, counts, m.lists, i, x);
      }
    }
    ThreadedFrame(flat, t, heads, counts, m.lists);
  }

  lemma OneList(m: Heap, i: nat)
    requires Inv(m) && i < |m.lists|
    ensures NoDup(m.lists[i]) && forall x :: x in m.lists[i] ==> x != 0
  {
    assert ListOk(m.lay, m.lists[i], i, {});
    forall x | x in m.lists[i] ensures x != 0 {
      ListedAt(m.lay, m.lists, {}, i, x);
      assert BlockAt(m.lay, x);
    }
  }

  /** One round of the search, as GC_allochblk_nth goes about it. */
  lemma AllocStep(m: Heap, env: Env, q: Request, i: nat, es: seq<nat>, split: MaySplit, met: nat)
    requires Inv(m) && Wf(env.b) && Need(q) > 0 && i < |m.lists| == N_HBLK_FLS + 1 && Rest(m.lists[i], es) && es != []
    ensures var f, next := es[0], es[1..];
      && f < |m.lay| && m.lay[f].Free? && Bin(m.lay[f].pages) == i && f + m.lay[f].pages < |m.lay| && 0 < m.lay[f].pages
      && Rest(m.lists[i], next) && (next != [] ==> next[0] != 0) && f != 0
    ensures var f, next := es[0], es[1..]; var o := AllocFrom(m, env, q, i, es, split, met);
      match Judge(m, env, q, f, next, split)
      case TakeAt(r) => Room(m, f, r, Need(q)) && o == Outcome(Carve(m, f, i, r, q), r, met)
      case Skip => o == AllocFrom(m, env, q, i, next, split, met)
      case Dropping =>
        if m.lay[f].unmapped then false
        else if (met + 1) % 4 != 0 then o == AllocFrom(m, env, q, i, next, split, met + 1)
        else
          var d := Drop(m, f, i);
          Inv(d) && i < |d.lists| == N_HBLK_FLS + 1 && Rest(d.lists[i], next) && o == AllocFrom(d, env, q, i, next, split, met + 1)
  {
    hide Inv, Judge, Carve, Drop, Need;
    RestFirst(m, i, es);
    JudgeRoom(m, env, q, es[0], es[1..], split);
    OneList(m, i);
    if es[1..] != [] { assert es[1..][0] in m.lists[i]; }
    if Judge(m, env, q, es[0], es[1..], split).Dropping? { DropKeeps(m, Drop(m, es[0], i), es[0], i); }
  }

  lemma AllocDone(m: Heap, env: Env, q: Request, i: nat, split: MaySplit, met: nat)
    requires Inv(m) && Wf(env.b) && Need(q) > 0 && i < |m.lists| == N_HBLK_FLS + 1 && Rest(m.lists[i], [])
    ensures AllocFrom(m, env, q, i, [], split, met) == Outcome(m, 0, met)
  {}

  lemma RestAll(l: seq<nat>)
    ensures Rest(l, l)
  {}

  /** The links of the first block of the rest of a list. */
  lemma RestLinks(flat: seq<Ent>, heads: seq<nat>, counts: seq<int>, lists: seq<seq<nat>>, i: nat, es: seq<nat>)
    requires Threaded(flat, heads, counts, lists) && i < |lists| && Rest(lists[i], es) && es != []
    ensures 0 < es[0] < |flat| && flat[es[0]].Header? && flat[es[0]].h.free
    ensures flat[es[0]].h.next == if es[1..] == [] then 0 else es[1..][0]
    ensures es[1..] != [] ==> 0 < es[1..][0] < |flat| && flat[es[1..][0]].Header? && flat[es[1..][0]].h.free
    ensures flat[es[0]].h.prev == if |lists[i]| == |es| then 0 else lists[i][|lists[i]| - |es| - 1]
  {
    var k := |lists[i]| - |es|;
    ThreadedAt(flat, heads, counts, lists, i, k);
    if |es| > 1 { ThreadedAt(flat, heads, counts, lists, i, k + 1); }
  }

  lemma RestBefore(l: seq<nat>, es: seq<nat>)
    requires NoDup(l) && Rest(l, es) && es != []
    ensures |Without(l, es[0])| == |l| - 1 && Rest(Without(l, es[0]), es[1..])
    ensures |l| > |es| ==> Without(l, es[0])[|l| - |es| - 1] == l[|l| - |es| - 1]
  {
    assert es[0] == l[|l| - |es|];
    WithoutAt(l, |l| - |es|);
  }

  /** Where the search goes on after a block has been dropped. */
  lemma NextAfterDrop(flat: seq<Ent>, heads: seq<nat>, counts: seq<int>, lists: seq<seq<nat>>, i: nat, es: seq<nat>, prev: nat)
    requires Threaded(flat, heads, counts, lists) && i < |lists| && Rest(lists[i], es) && 0 < |flat|
    requires prev == if |lists[i]| == |es| then 0 else lists[i][|lists[i]| - |es| - 1]
    ensures prev < |flat| && (prev != 0 ==> flat[prev].Header?)
    ensures (if prev == 0 then heads[i] else flat[prev].h.next) == if es == [] then 0 else es[0]
  {
    var k := |lists[i]| - |es|;
    if k > 0 { ThreadedAt(flat, heads, counts, lists, i, k - 1); }
    HeadOf(flat, heads, counts, lists, i);
  }

  // --------------------------------------------------------------------------- merging

  lemma EnoughStep(m: Heap, pages: int, max: int, n: nat)
    requires n < |m.lists|
    ensures var sum := pages + ListPages(m.lay, m.lists[n]);
      EnoughFrom(m, pages, max, n) == if sum >= max || n == 0 then n else EnoughFrom(m, sum, max, n - 1)
  {}

  lemma FirstAt(m: Heap, l: seq<nat>, k: nat)
    requires k < |l| && Mergeable(m, l[k]) && forall j :: 0 <= j < k ==> !Mergeable(m, l[j])
    ensures FirstMergeable(m, l) == k
  {
    hide Mergeable;
  }

  lemma MergeListStep(m: Heap, i: nat, k: nat)
    requires Inv(m) && i < |m.lists| && k < |m.lists[i]| && Mergeable(m, m.lists[i][k])
    requires forall j :: 0 <= j < k ==> !Mergeable(m, m.lists[i][j])
    ensures var a := m.lists[i][k];
      && 0 < m.lay[a].pages && |m.lists| == N_HBLK_FLS + 1 && i == Bin(m.lay[a].pages)
      && Inv(MergeStep(m, a)) && |MergeStep(m, a).lists| == N_HBLK_FLS + 1
      && FreeSet(MergeStep(m, a).lay) < FreeSet(m.lay) && MergeList(m, i) == MergeList(MergeStep(m, a), i)
  {
    hide Inv, MergeStep, FreeSet;
    var a := m.lists[i][k];
    MergeFacts(m, a);
    MergeNext(m, MergeStep(m, a), a, a + m.lay[a].pages);
    FirstAt(m, m.lists[i], k);
    OnItsList(m, i, k);
  }

  lemma MergeListEnd(m: Heap, i: nat)
    requires Inv(m) && i < |m.lists| && forall j :: 0 <= j < |m.lists[i]| ==> !Mergeable(m, m.lists[i][j])
    ensures MergeList(m, i) == m
  {
    hide Inv, Mergeable;
  }

  class Allocator {
    const index: PageIndex
    const hblkfreelist: array<nat>
    const freePages: array<int>
    const limit: nat
    var largeFree: int
    var met: nat   // how many completely black-listed blocks have been met
    var heapSize: int
    ghost var lists: seq<seq<nat>>
    ghost var heap: set<nat>
    ghost var mapped: set<nat>

    ghost predicate Valid()
      reads this, index, hblkfreelist, freePages
    {
      && index.Valid() && hblkfreelist.Length == N_HBLK_FLS + 1 && freePages.Length == N_HBLK_FLS + 1
      && Threaded(index.Flat(), hblkfreelist[..], freePages[..], lists)
    }

    ghost function View(): Heap
      requires index.Valid()
      reads this, index
    {
      Heap(Layout(index.Flat()), lists, largeFree, heapSize, heap, mapped, limit)
    }

    constructor (pages: nat, limit: nat)
      requires pages % BOTTOM_SZ == 0
      ensures Valid() && fresh(index) && fresh(hblkfreelist) && fresh(freePages) && this.limit == limit
      ensures heap == {} && mapped == {} && largeFree == 0 && heapSize == 0 && |View().lay| == pages
      ensures (forall x :: 0 <= x < pages ==> View().lay[x] == Nil) && forall i :: 0 <= i < |lists| ==> lists[i] == []
    {
      index := new PageIndex(pages);
      hblkfreelist := new nat[N_HBLK_FLS + 1](_ => 0);
      freePages := new int[N_HBLK_FLS + 1](_ => 0);
      this.limit := limit;
      largeFree, heapSize, met := 0, 0, 0;
      lists, heap, mapped := seq(N_HBLK_FLS + 1, _ => []), {}, {};
    }

    /** GC_remove_from_fl_at */
    method RemoveFromFlAt(a: nat, i: nat)
      requires Valid() && i <= N_HBLK_FLS && a in lists[i]
      modifies this`lists, index, hblkfreelist, freePages
      ensures Valid() && View() == Take(old(View()), a, i)
    {
      hide Threaded, Layout, Without, PageIndex.Flat, PageIndex.Look;
      ghost var flat := index.Flat();
      ThreadedSizes(flat, hblkfreelist[..], freePages[..], lists);
      ghost var l := lists[i];
      ghost var k := PlaceOf(l, a);
      ThreadedAt(flat, hblkfreelist[..], freePages[..], lists, i, k);
      var e := index.Get(a);
      var h := e.h;
      if h.prev == 0 {
        hblkfreelist[i] := h.next;
      } else {
        var p := index.Get(h.prev);
        index.Update(h.prev, p.h.(next := h.next));
      }
      freePages[i] := freePages[i] - h.sz / HBLKSIZE;
      if h.next != 0 {
        var n := index.Get(h.next);
        index.Update(h.next, n.h.(prev := h.prev));
      }
      lists := lists[i := Without(l, a)];
      assert index.Flat() == Unlinked(flat, a);
      RemoveThreaded(flat, index.Flat(), old(hblkfreelist[..]), hblkfreelist[..], old(freePages[..]), freePages[..], old(lists), i, k);
    }

    /** GC_add_to_fl */
    method AddToFl(a: nat)
      requires Valid() && 0 < a < index.size && index.Flat()[a].Header? && index.Flat()[a].h.sz % HBLKSIZE == 0
      requires forall j :: 0 <= j < |lists| ==> a !in lists[j]
      modifies this`lists, index, hblkfreelist, freePages
      ensures Valid()
      ensures var m := old(View());
        View() == Push(m.(lay := m.lay[a := Free(old(index.Flat())[a].h.sz / HBLKSIZE, old(index.Flat())[a].h.unmapped)]), a)
    {
      hide Threaded, Layout, PageIndex.Flat, PageIndex.Look;
      ghost var flat := index.Flat();
      ThreadedSizes(flat, hblkfreelist[..], freePages[..], lists);
      var e := index.Get(a);
      var h := e.h;
      var i := Bin(h.sz / HBLKSIZE);
      var second := hblkfreelist[i];
      HeadOf(flat, hblkfreelist[..], freePages[..], lists, i);
      hblkfreelist[i] := a;
      freePages[i] := freePages[i] + h.sz / HBLKSIZE;
      index.Update(a, h.(next := second, prev := 0, free := true));
      if second != 0 {
        var s := index.Get(second);
        index.Update(second, s.h.(prev := a));
      }
      lists := lists[i := [a] + lists[i]];
      AddThreaded(flat, index.Flat(), old(hblkfreelist[..]), old(freePages[..]), old(lists), i, a, h.(next := second, prev := 0, free := true));
      assert hblkfreelist[..] == old(hblkfreelist[..])[i := a];
      assert freePages[..] == old(freePages[..])[i := old(freePages[i]) + h.sz / HBLKSIZE];
    }

    /** get_block_ending_at, for the first page of a block. */
    method BlockEndingAt(a: nat) returns (r: nat)
      requires index.Valid() && WholePages(index.Flat()) && 2 <= a < index.size
      requires Tiles(Layout(index.Flat()), heap) && Head(Layout(index.Flat())[a])
      ensures r == EndingAt(Layout(index.Flat()), a) && (r != 0 ==> r < a && Head(Layout(index.Flat())[r]))
    {
      hide Tiles, EndingAt, PrevHead, Follow, PageIndex.Look;
      ghost var lay := Layout(index.Flat());
      var e := index.Get(a - 1);
      if !e.NoHeader? {
        r := index.FollowCounts(a - 1, heap);
        EndingAfterBlock(lay, heap, a, r);
      } else {
        EndingAfterNil(lay, heap, a);
        r := index.PrevBlock(a - 1, heap);
        if r != 0 {
          var f := index.Get(r);
          if r * HBLKSIZE + f.h.sz != a * HBLKSIZE { r := 0; }
        }
      }
    }

    /** The block at a grows by the block b behind it, whose header goes away; both are on no list. */
    method JoinInPlace(a: nat, b: nat)
      requires Valid() && a < b < index.size && View().lay[a].Free? && View().lay[b].Free? && b == a + View().lay[a].pages
      requires forall j :: 0 <= j < |lists| ==> a !in lists[j] && b !in lists[j]
      modifies index
      ensures Valid() && View() == Join(old(View()), a)
    {
      hide Threaded, PageIndex.Look, PageIndex.Flat, Layout;
      ghost var flat := index.Flat();
      ThreadedSizes(flat, hblkfreelist[..], freePages[..], lists);
      EntryOf(flat, a);
      EntryOf(flat, b);
      var hhdr := index.Get(a);
      var nexthdr := index.Get(b);
      index.Update(a, hhdr.h.(sz := hhdr.h.sz + nexthdr.h.sz));
      index.RemoveHeader(b);
      JoinThreaded(flat, index.Flat(), hblkfreelist[..], freePages[..], lists, a, b);
    }

    /** Coalescing with the successor, if possible. */
    method AbsorbNextInPlace(a: nat)
      requires Valid() && Sound(View(), {a}) && a < index.size && View().lay[a].Free?
      modifies this`lists, index, hblkfreelist, freePages
      ensures Valid() && View() == AbsorbNext(old(View()), a)
    {
      hide Sound, Threaded, PageIndex.Look, PageIndex.Flat, Layout, Without, Join;
      ghost var m := View();
      ThreadedSizes(index.Flat(), hblkfreelist[..], freePages[..], lists);
      SoundFacts(m, {a});
      EntryOf(index.Flat(), a);
      var hhdr := index.Get(a);
      var next := a + hhdr.h.sz / HBLKSIZE;
      var e := index.Get(next);
      CellIs(index.Flat(), next);
      if e.Header? && e.h.free && !e.h.unmapped && (hhdr.h.sz + e.h.sz) / HBLKSIZE < limit {
        FreeEntry(index.Flat(), m, {a}, next);
        RemoveFromFlAt(next, Bin(e.h.sz / HBLKSIZE));
        TakeSound(m, {a}, next);
        OffLists(View(), {a} + {next}, a);
        OffLists(View(), {a} + {next}, next);
        JoinInPlace(a, next);
      }
    }

    /** Coalescing with the predecessor, if possible; the result goes to its list. */
    method AbsorbPrevInPlace(a: nat, prev: nat)
      requires Valid() && Sound(View(), {a}) && 0 < a < index.size && View().lay[a].Free?
      requires prev != 0 ==> prev < a && Head(View().lay[prev]) && prev + Pages(View().lay[prev]) == a
      modifies this`lists, index, hblkfreelist, freePages
      ensures Valid() && View() == AbsorbPrev(old(View()), a, prev)
    {
      hide Sound, Threaded, PageIndex.Look, PageIndex.Flat, Layout, Without, Join;
      ghost var m := View();
      ThreadedSizes(index.Flat(), hblkfreelist[..], freePages[..], lists);
      SoundFacts(m, {a});
      EntryOf(index.Flat(), a);
      OffLists(m, {a}, a);
      NothingAtZero(m, {a});
      var hhdr := index.Get(a);
      var h := a;
      if prev != 0 {
        var e := index.Get(prev);
        CellIs(index.Flat(), prev);
        if e.Header? && e.h.free && !e.h.unmapped && (hhdr.h.sz + e.h.sz) / HBLKSIZE < limit {
          FreeEntry(index.Flat(), m, {a}, prev);
          RemoveFromFlAt(prev, Bin(e.h.sz / HBLKSIZE));
          TakeSound(m, {a}, prev);
          OffLists(View(), {a} + {prev}, a);
          OffLists(View(), {a} + {prev}, prev);
          JoinCell(View(), prev);
          JoinInPlace(prev, a);
          h := prev;
        }
      }
      ThreadedSizes(index.Flat(), hblkfreelist[..], freePages[..], lists);
      EntryOf(index.Flat(), h);
      AddToFl(h);
    }

    /** GC_freehblk.  The abort on absurd sizes and on blocks that are free already is reported by `ok`. */
    method Freehblk(a: nat) returns (ok: bool)
      requires Valid() && 2 <= a < index.size && Head(View().lay[a]) && a + Pages(View().lay[a]) < index.size
      requires Uniform(index.Flat(), a, Pages(View().lay[a]))
      requires View().lay[a].Used? ==> Sound(Released(View(), a), {a})
      modifies this, index, hblkfreelist, freePages
      ensures Valid()
      ensures ok <==> old(View().lay[a].Used? && Pages(View().lay[a]) < limit)
      ensures View() == if ok then FreeBlock(old(View()), a) else old(View())
    {
      hide Sound, Threaded, PageIndex.Look, PageIndex.Flat, Layout, AbsorbNext, AbsorbPrev, EndingAt, PutBlock;
      ghost var m, flat := View(), index.Flat();
      ThreadedSizes(flat, hblkfreelist[..], freePages[..], lists);
      CellIs(flat, a);
      var hhdr := index.Get(a);
      var size := Blocks(hhdr.h.sz);
      if size >= limit || hhdr.h.free { return false; }
      ReleaseInPlace(a, size);
      ReleasedFacts(m, a);
      ThreadedSizes(index.Flat(), hblkfreelist[..], freePages[..], lists);
      SoundTiles(View(), {a});
      AbsorbNextSound(View(), a);
      EndingSame(View(), a);
      EndingFacts(AbsorbNext(View(), a).lay, a);
      SoundLarge(AbsorbNext(View(), a), {a}, largeFree + size);
      var prev := BlockEndingAt(a);
      AbsorbNextInPlace(a);
      largeFree := largeFree + size;
      AbsorbPrevInPlace(a, prev);
      ok := true;
    }

    /** The first part of GC_freehblk: the forwarding counts go away, and the header becomes that of a free block. */
    method ReleaseInPlace(a: nat, size: nat)
      requires Valid() && 0 < a < index.size && View().lay[a].Used? && size == Pages(View().lay[a]) && a + size < index.size
      requires Uniform(index.Flat(), a, size)
      modifies index
      ensures Valid() && View() == Released(old(View()), a)
    {
      hide Threaded, PageIndex.Look, PageIndex.Flat, Layout, PutBlock;
      ghost var flat := index.Flat();
      ThreadedSizes(flat, hblkfreelist[..], freePages[..], lists);
      CellIs(flat, a);
      index.RemoveCounts(a, size);
      var hhdr := index.Get(a);
      index.Update(a, hhdr.h.(sz := size * HBLKSIZE, free := true));
      ReleasedLayout(flat, index.Flat(), a, size);
      ReleasedThreaded(flat, index.Flat(), hblkfreelist[..], freePages[..], lists, a, size);
    }

    /** GC_add_to_heap.  (The heap size is brought up to date before the new memory is freed.) */
    method AddToHeap(start: nat, n: nat) returns (ok: bool)
      requires Valid() && Inv(View()) && 0 < n && start + n <= index.size
      requires forall x :: start <= x < start + n ==> x !in heap
      modifies this, index, hblkfreelist, freePages
      ensures n < limit ==> ok
      ensures ok ==> Valid() && View() == HeapOps.AddToHeap(old(View()), start, n)
    {
      hide Inv, Sound, Threaded, Layout, PageIndex.Look, PageIndex.Flat, FreeBlock, AddSection, PutBlock;
      var p, pages := start, n;
      while p <= 1
        invariant p <= 2 + start && start <= p && p + pages == start + n && 0 < pages
        invariant p == start || p <= 2
        decreases pages
      {
        p := p + 1;
        pages := pages - 1;
        if pages == 0 { return true; }
      }
      if p + pages == index.size {
        pages := pages - 1;
        if pages == 0 { return true; }
      }
      ok := AddSectionInPlace(p, pages);
    }

    method AddSectionInPlace(p: nat, n: nat) returns (ok: bool)
      requires Valid() && Inv(View()) && 2 <= p && 0 < n && p + n < index.size
      requires forall x :: p <= x < p + n ==> x !in heap
      modifies this, index, hblkfreelist, freePages
      ensures ok <==> n < limit
      ensures ok ==> Valid() && View() == AddSection(old(View()), p, n)
    {
      hide Inv, Sound, Threaded, Layout, PageIndex.Look, PageIndex.Flat, Settle, Range, PutBlock;
      ghost var m, flat := View(), index.Flat();
      NewMemory(m, flat, p, n);
      ThreadedSizes(flat, hblkfreelist[..], freePages[..], lists);
      ghost var h := Hdr(n * HBLKSIZE, 0, 0, false, false, 0, false);
      index.InstallHeader(p, Hdr(n * HBLKSIZE, 0, 0, false, false, 0, false));
      NewHeader(flat, index.Flat(), hblkfreelist[..], freePages[..], lists, p, n);
      heap, mapped := heap + Range(p, n), mapped + Range(p, n);
      heapSize := heapSize + n;
      ghost var g := m.(lay := m.lay[p := Free(n, false)], heap := heap, mapped := mapped, heapSize := heapSize);
      NewReleased(m.lay, View(), g, p, n);
      GrowSound(m, g, p, n);
      AddSectionIs(m, g, p, n);
      ok := Freehblk(p);
    }

    /** GC_remap of a whole free block that is unmapped, and its flag. */
    method RemapInPlace(f: nat)
      requires Valid() && f < index.size && View().lay[f].Free?
      modifies this`mapped, index
      ensures Valid() && View() == Remap(old(View()), f)
    {
      hide Threaded, Layout, PageIndex.Look, PageIndex.Flat, Range;
      ghost var flat := index.Flat();
      EntryOf(flat, f);
      var hhdr := index.Get(f);
      if hhdr.h.unmapped {
        index.Update(f, hhdr.h.(unmapped := false));
        mapped := mapped + Range(f, hhdr.h.sz / HBLKSIZE);
        FlagThreaded(flat, index.Flat(), hblkfreelist[..], freePages[..], lists, f, false);
      }
    }

    /** The headers in GC_split_block: n gets one and takes the place of f, whose size is cut. */
    method ReplaceOnList(f: nat, h: Hdr, n: nat, i: nat)
      requires index.Valid() && i < hblkfreelist.Length && f < n < index.size && index.Flat()[f] == Header(h)
      requires h.prev < index.size && h.next < index.size && n < f + h.sz / HBLKSIZE && index.Flat()[n].NoHeader?
      requires (h.prev != 0 ==> index.Flat()[h.prev].Header? && h.prev != f) && (h.next != 0 ==> index.Flat()[h.next].Header? && h.next != f)
      modifies index, hblkfreelist
      ensures index.Valid() && index.Flat() == Replaced(old(index.Flat()), f, n)
      ensures hblkfreelist[..] == if h.prev == 0 then old(hblkfreelist[..])[i := n] else old(hblkfreelist[..])
    {
      hide PageIndex.Look, PageIndex.Flat;
      var size := (n - f) * HBLKSIZE;
      index.InstallHeader(n, Hdr(h.sz - size, h.next, h.prev, true, false, 0, false));
      if h.prev != 0 {
        var p := index.Get(h.prev);
        index.Update(h.prev, p.h.(next := n));
      } else {
        hblkfreelist[i] := n;
      }
      if h.next != 0 {
        var e := index.Get(h.next);
        index.Update(h.next, e.h.(prev := n));
      }
      index.Update(f, h.(sz := size));
    }

    /** GC_split_block.  Block n takes the place of block f on list i, whatever its size, since it is about to be
        allocated; the pages of f before n go to the list of their size. */
    method SplitBlock(f: nat, n: nat, i: nat)
      requires Valid() && Sound(View(), {}) && f < n < index.size && View().lay[f].Free? && !View().lay[f].unmapped
      requires n < f + View().lay[f].pages < index.size && i == Bin(View().lay[f].pages)
      modifies this`lists, index, hblkfreelist, freePages
      ensures Valid()
      ensures var m, k := old(View()), PlaceIn(old(lists)[i], f);
        View() == Push(Splitting(m, f, n, i, k), f)
    {
      hide Sound, Threaded, Layout, PageIndex.Look, PageIndex.Flat, Push, Replaced;
      ghost var flat, m := index.Flat(), View();
      ThreadedSizes(flat, hblkfreelist[..], freePages[..], lists);
      FreeEntry(flat, m, {}, f);
      ghost var k := PlaceIn(lists[i], f);
      InsideFree(flat, m, f, n);
      ThreadedAt(flat, hblkfreelist[..], freePages[..], lists, i, k);
      var hhdr := index.Get(f);
      var h := hhdr.h;
      ReplaceOnList(f, h, n, i);
      freePages[i] := freePages[i] - (n - f);
      lists := lists[i := Put(lists[i], k, n)];
      SplitThreaded(m, flat, index.Flat(), old(hblkfreelist[..]), hblkfreelist[..], old(freePages[..]), freePages[..], f, n, i, k);
      ghost var s := Splitting(m, f, n, i, k);
      assert View() == s;
      EntryOf(index.Flat(), f);
      ThreadedSizes(index.Flat(), hblkfreelist[..], freePages[..], lists);
      AddToFl(f);
      assert s.lay[f := Free(n - f, false)] == s.lay;
    }

    /** GC_split_block and the removal of the second part from the list it is on for the moment. */
    method TakeBack(f: nat, r: nat, i: nat)
      requires Valid() && Sound(View(), {}) && f <= r < index.size && View().lay[f].Free? && !View().lay[f].unmapped
      requires r < f + View().lay[f].pages < index.size && i == Bin(View().lay[f].pages)
      modifies this`lists, index, hblkfreelist, freePages
      ensures Valid() && |old(View()).lists| == N_HBLK_FLS + 1
      ensures View() == FrontPart(Take(old(View()), f, i), f, r)
    {
      hide Sound, Threaded, Layout, PageIndex.Look, PageIndex.Flat, Push, Splitting, Without, FrontPart;
      ghost var m := View();
      ThreadedSizes(index.Flat(), hblkfreelist[..], freePages[..], lists);
      SoundFacts(m, {});
      FreeEntry(index.Flat(), m, {}, f);
      if f < r {
        SplitBlock(f, r, i);
        SplitTake(m, f, r, i);
        RemoveFromFlAt(r, i);
      } else {
        RemoveFromFlAt(f, i);
        NoFront(Take(m, f, i), f);
      }
    }

    /** A new free block inside the block r, which is off the lists. */
    method RestOnList(a: nat, sz: nat, ghost m: Heap, ghost r: nat)
      requires Valid() && m == View() && Sound(m, {r}) && r < a < index.size && m.lay[r].Free? && a < r + m.lay[r].pages
      requires sz % HBLKSIZE == 0 && |lists| == N_HBLK_FLS + 1
      modifies this`lists, index, hblkfreelist, freePages
      ensures Valid()
      ensures var c := m.lay[a := Free(sz / HBLKSIZE, false)];
        View() == Push(m.(lay := c[a := Free(sz / HBLKSIZE, false)]), a)
    {
      hide Sound, Threaded, Layout, PageIndex.Look, PageIndex.Flat, Push;
      ghost var flat := index.Flat();
      InsideOff(flat, m, r, a);
      index.InstallHeader(a, Hdr(sz, 0, 0, true, false, 0, false));
      RestThreaded(flat, index.Flat(), hblkfreelist[..], freePages[..], lists, a, sz);
      AddToFl(a);
    }

    /** The rest of GC_get_first_part: what follows the first `need` pages of block r goes to a list. */
    method GiveBack(r: nat, need: nat)
      requires Valid() && Sound(View(), {r}) && r < index.size && View().lay[r].Free? && !View().lay[r].unmapped
      requires 0 < need <= View().lay[r].pages && r + View().lay[r].pages < index.size
      modifies this`lists, index, hblkfreelist, freePages
      ensures Valid() && |old(View()).lists| == N_HBLK_FLS + 1
      ensures View() == FirstPart(old(View()), r, need).(lay := View().lay)
      ensures View().lay == FirstPart(old(View()), r, need).lay[r := old(View()).lay[r]]
    {
      hide Sound, Threaded, Layout, PageIndex.Look, PageIndex.Flat, FirstPart, Push, OffAll;
      ghost var m, flat := View(), index.Flat();
      ThreadedSizes(flat, hblkfreelist[..], freePages[..], lists);
      EntryOf(flat, r);
      CellIs(flat, r);
      var h := index.Get(r);
      var pages := h.h.sz / HBLKSIZE;
      if need < pages {
        RestSize(h.h.sz, need);
        RestOnList(r + need, h.h.sz - need * HBLKSIZE, m, r);
        GivenBack(m, View(), r, need);
      } else {
        NothingBack(m, r, need);
      }
    }

    /** GC_install_counts and setup_header for a block that has just been cut out. */
    method SetUp(r: nat, q: Request)
      requires Valid() && r < index.size && index.Flat()[r].Header? && OffAll(lists, r)
      requires 0 < Need(q) && r + Need(q) <= index.size
      requires forall x :: r < x < r + Need(q) ==> index.Flat()[x].NoHeader?
      modifies index
      ensures Valid() && View() == old(View()).(lay := PutBlock(old(View()).lay, r, NewBlock(q)))
    {
      hide Threaded, Layout, PageIndex.Look, PageIndex.Flat, PutBlock;
      ghost var flat := index.Flat();
      ThreadedSizes(flat, hblkfreelist[..], freePages[..], lists);
      index.InstallCounts(r, Need(q));
      index.Update(r, Hdr(q.sz, 0, 0, false, false, q.kind, q.ignoreOffPage));
      SetUpThreaded(flat, index.Flat(), hblkfreelist[..], freePages[..], lists, r, q);
    }

    /** What GC_allochblk_nth does with the block it has chosen. */
    method AllocateAt(f: nat, i: nat, r: nat, q: Request)
      requires Valid() && Inv(View()) && Room(View(), f, r, Need(q)) && i == Bin(View().lay[f].pages)
      modifies this, index, hblkfreelist, freePages
      ensures Valid() && |old(View()).lists| == N_HBLK_FLS + 1 && View() == Carve(old(View()), f, i, r, q) && met == old(met)
    {
      hide Inv, Sound, Threaded, Layout, PageIndex.Look, PageIndex.Flat, Remap, FrontPart, FirstPart, PutBlock, Carve, Without;
      ghost var m := View();
      InvFacts(m);
      RemapIs(m, f);
      RemapSound(m, {}, f);
      RemapInPlace(f);
      ghost var m0 := View();
      TakeSound(m0, {}, f);
      ghost var m1 := Take(m0, f, i);
      assert {} + {f} == {f};
      SoundFacts(m1, {f});
      TakeBack(f, r, i);
      ghost var m2 := View();
      FrontPartSound(m1, m2, f, r);
      SoundFacts(m2, {r});
      GiveBack(r, Need(q));
      ghost var m3 := FirstPart(m2, r, Need(q));
      FirstPartSound(m2, m3, r, Need(q));
      ReadyToSetUp(m2, m3, View(), index.Flat(), r, Need(q));
      SetUp(r, q);
      largeFree := largeFree - Need(q);
      CarveStages(m, f, i, r, q, m0, m1, m2, m3);
      PutOver(m3.lay, r, m2.lay[r], NewBlock(q));
    }

    /** A completely black-listed block is allocated and dropped in one-page chunks. */
    method DropInPlace(f: nat, i: nat)
      requires Valid() && Inv(View()) && f < index.size && View().lay[f].Free? && !View().lay[f].unmapped
      requires i == Bin(View().lay[f].pages)
      modifies this, index, hblkfreelist, freePages
      ensures Valid() && met == old(met)
      ensures f + old(View()).lay[f].pages < index.size && |old(View()).lists| == N_HBLK_FLS + 1 && 0 < old(View()).lay[f].pages
      ensures View() == Drop(old(View()), f, i)
    {
      hide Inv, Sound, Threaded, Layout, PageIndex.Look, PageIndex.Flat, Drop, Without;
      ghost var m := View();
      InvFacts(m);
      SoundFacts(m, {});
      ThreadedSizes(index.Flat(), hblkfreelist[..], freePages[..], lists);
      FreeEntry(index.Flat(), m, {}, f);
      DropKeeps(m, Drop(m, f, i), f, i);
      var h := index.Get(f);
      var pages := h.h.sz / HBLKSIZE;
      largeFree := largeFree - pages;
      RemoveFromFlAt(f, i);
      TakeSound(m, {}, f);
      assert {} + {f} == {f};
      ghost var flat := index.Flat();
      OffLists(Take(m, f, i), {f}, f);
      EntryOf(flat, f);
      ghost var heads, counts := hblkfreelist[..], freePages[..];
      var x := f;
      while x < f + pages
        modifies index
        invariant index.Valid() && f <= x <= f + pages && heads == hblkfreelist[..] && counts == freePages[..]
        invariant forall y :: 0 <= y < index.size ==> index.Flat()[y] == if f <= y < x then Header(CHUNK) else flat[y]
      {
        if x != f { index.InstallHeader(x, CHUNK); } else { SameEntry(flat, index.Flat(), f); index.Update(f, CHUNK); }
        x := x + 1;
      }
      DroppedThreaded(Take(m, f, i), flat, index.Flat(), heads, counts, f);
      assert View().lay == Drop(m, f, i).lay;
    }

    /** Is the block after hbp on the list obviously better? */
    method BetterNext(hhdr: Hdr, avail: nat, env: Env, need: nat, ghost next: seq<nat>) returns (better: bool)
      requires Valid() && Wf(env.b) && need > 0 && hhdr.next == if next == [] then 0 else next[0]
      requires next != [] ==> 0 < next[0] < index.size && index.Flat()[next[0]].Header? && index.Flat()[next[0]].h.free
      ensures better == NextBetter(View(), env, avail, need, next)
    {
      hide Threaded, PageIndex.Look, PageIndex.Flat, Layout, IsBlackListed;
      better := false;
      if hhdr.next != 0 {
        var e := index.Get(hhdr.next);
        CellIs(index.Flat(), hhdr.next);
        var nextSize := e.h.sz / HBLKSIZE;
        better := nextSize < avail && nextSize >= need && IsBlackListed(env.b, hhdr.next, need) == 0;
      }
    }

    /** The black-list tests on a block that is large enough. */
    method CheckStart(hbp: nat, hhdr: Hdr, env: Env, q: Request, split: MaySplit) returns (v: Verdict)
      requires Valid() && Wf(env.b) && Need(q) > 0 && hbp < index.size && index.Flat()[hbp] == Header(hhdr) && hhdr.free
      requires Need(q) <= hhdr.sz / HBLKSIZE
      ensures View().lay[hbp] == Free(hhdr.sz / HBLKSIZE, hhdr.unmapped) && v == CheckBlack(View(), env, q, hbp, split)
    {
      hide Threaded, PageIndex.Look, PageIndex.Flat, Layout, IsBlackListed, FindStart;
      CellIs(index.Flat(), hbp);
      var need := Need(q);
      var avail := hhdr.sz / HBLKSIZE;
      var last := hbp + avail - need;
      var s := FirstUsable(env.b, hbp, last, if q.ignoreOffPage then 1 else need);
      if s <= last {
        v := if s != hbp && split.AvoidRemapped? && hhdr.unmapped then Skip else TakeAt(s);
      } else if need > env.blLimit && avail - need > env.blLimit {
        v := TakeAt(hbp);
      } else if s == hbp + avail && need == 1 && !hhdr.unmapped && !env.findLeak {
        v := Dropping;
      } else {
        v := Skip;
      }
    }

    /** The tests of GC_allochblk_nth on one block of the list. */
    method Consider(hbp: nat, hhdr: Hdr, env: Env, q: Request, split: MaySplit, ghost next: seq<nat>) returns (v: Verdict)
      requires Valid() && Wf(env.b) && Need(q) > 0 && hbp < index.size && index.Flat()[hbp] == Header(hhdr) && hhdr.free
      requires hhdr.next == if next == [] then 0 else next[0]
      requires next != [] ==> 0 < next[0] < index.size && index.Flat()[next[0]].Header? && index.Flat()[next[0]].h.free
      ensures View().lay[hbp].Free? && v == Judge(View(), env, q, hbp, next, split)
    {
      hide Threaded, PageIndex.Look, PageIndex.Flat, Layout, CheckBlack, NextBetter, ChecksBlackList, Need;
      CellIs(index.Flat(), hbp);
      var need := Need(q);
      var avail := hhdr.sz / HBLKSIZE;
      if avail < need { return Skip; }
      if avail != need {
        if split.No? { return Skip; }
        var better := BetterNext(hhdr, avail, env, need, next);
        if better { return Skip; }
      }
      if !ChecksBlackList(q) { return TakeAt(hbp); }
      v := CheckStart(hbp, hhdr, env, q, split);
    }

    /** A block is dropped; the search goes on with the block after it, which is reached through the block before
        it, or from the head of the list. */
    method DropAndGoOn(hbp: nat, prev: nat, i: nat, ghost es: seq<nat>) returns (next: nat)
      requires Valid() && Inv(View()) && i <= N_HBLK_FLS == |lists| - 1 && Rest(lists[i], es) && es != [] && es[0] == hbp
      requires hbp < index.size && View().lay[hbp].Free? && !View().lay[hbp].unmapped
      requires hbp + View().lay[hbp].pages < index.size && 0 < View().lay[hbp].pages
      requires prev == if |lists[i]| == |es| then 0 else lists[i][|lists[i]| - |es| - 1]
      requires i == Bin(View().lay[hbp].pages)
      modifies this, index, hblkfreelist, freePages
      ensures Valid() && Inv(View()) && met == old(met) && |lists| == N_HBLK_FLS + 1 && Rest(lists[i], es[1..])
      ensures View() == Drop(old(View()), hbp, i) && next == if es[1..] == [] then 0 else es[1..][0]
    {
      hide Inv, Threaded, PageIndex.Look, PageIndex.Flat, Layout, Drop, Without;
      ghost var m := View();
      DropKeeps(m, Drop(m, hbp, i), hbp, i);
      DropInPlace(hbp, i);
      InvFacts(View());
      OneList(m, i);
      RestBefore(m.lists[i], es);
      NextAfterDrop(index.Flat(), hblkfreelist[..], freePages[..], lists, i, es[1..], prev);
      if prev == 0 {
        next := hblkfreelist[i];
      } else {
        var p := index.Get(prev);
        next := p.h.next;
      }
    }

    /** GC_allochblk_nth: list i is searched for a block. */
    method AllochblkNth(env: Env, q: Request, i: nat, split: MaySplit) returns (r: nat)
      requires Valid() && Inv(View()) && Wf(env.b) && Need(q) > 0 && i <= N_HBLK_FLS
      modifies this, index, hblkfreelist, freePages
      ensures Valid() && AllocNth(old(View()), env, q, i, split, old(met)) == Outcome(View(), r, met)
    {
      hide Inv, Threaded, PageIndex.Look, PageIndex.Flat, Layout, Rest, Judge, Carve, Drop, Room, Without, AllocFrom, Need, Bin;
      ghost var target := AllocNth(View(), env, q, i, split, met);
      InvFacts(View());
      HeadOf(index.Flat(), hblkfreelist[..], freePages[..], lists, i);
      ghost var es := lists[i];
      RestAll(lists[i]);
      OneList(View(), i);
      assert es != [] ==> es[0] in lists[i];
      var hbp := hblkfreelist[i];
      while hbp != 0
        invariant Valid() && Inv(View()) && |lists| == N_HBLK_FLS + 1
        invariant Rest(lists[i], es) && hbp == (if es == [] then 0 else es[0]) && (es != [] ==> es[0] != 0)
        invariant AllocFrom(View(), env, q, i, es, split, met) == target
        decreases |es|
      {
        ghost var m := View();
        RestFirst(m, i, es);
        RestLinks(index.Flat(), hblkfreelist[..], freePages[..], lists, i, es);
        JudgeRoom(m, env, q, hbp, es[1..], split);
        AllocStep(m, env, q, i, es, split, met);
        ghost var next := es[1..];
        var e := index.Get(hbp);
        var v := Consider(hbp, e.h, env, q, split, es[1..]);
        match v {
          case TakeAt(start) =>
            AllocateAt(hbp, i, start, q);
            return start;
          case Skip =>
            hbp := e.h.next;
          case Dropping =>
            met := met + 1;
            if met % 4 != 0 { hbp := e.h.next; } else { hbp := DropAndGoOn(hbp, e.h.prev, i, es); }
        }
        es := next;
      }
      AllocDone(View(), env, q, i, split, met);
      r := 0;
    }

    /** GC_enough_large_bytes_left */
    method EnoughLargeLeft(pol: Policy) returns (n: nat)
      requires Valid() && |lists| == N_HBLK_FLS + 1
      ensures n == EnoughLarge(View(), pol) <= N_HBLK_FLS
    {
      hide PageIndex.Flat, PageIndex.Look, Layout, Chain, Separate, WholePages, ListPages, EnoughFrom;
      var sum := pol.largeAllocd;
      n := N_HBLK_FLS;
      while true
        invariant n <= N_HBLK_FLS && EnoughFrom(View(), sum, pol.maxLargeAllocd, n) == EnoughLarge(View(), pol)
        decreases n
      {
        EnoughStep(View(), sum, pol.maxLargeAllocd, n);
        sum := sum + freePages[n];
        if sum >= pol.maxLargeAllocd || n == 0 { return; }
        n := n - 1;
      }
    }

    /** GC_allochblk: the list with the right size first, without splitting; then the lists up to the split limit. */
    method Allochblk(env: Env, q: Request, pol: Policy) returns (r: nat)
      requires Valid() && Inv(View()) && Wf(env.b) && Need(q) > 0
      modifies this, index, hblkfreelist, freePages
      ensures Valid() && HeapAllochblk.Allochblk(old(View()), env, q, pol, old(met)) == Outcome(View(), r, met)
    {
      hide Inv, Threaded, PageIndex.Look, PageIndex.Flat, Layout, Searched, AllocFrom, TryLists, EnoughLarge, Need, Bin;
      ghost var m := View();
      var blocks := Need(q);
      if blocks >= limit { return 0; }
      var list := Bin(blocks);
      InvFacts(m);
      ghost var o := AllocNth(m, env, q, list, No, met);
      AllocFromKeeps(m, env, q, list, m.lists[list], No, met, o);
      r := AllochblkNth(env, q, list, No);
      if r != 0 { return; }
      SearchedInv(m, View(), q, 0);
      var splitLimit, split := N_HBLK_FLS, Yes;
      if pol.useAll {
      } else if pol.finalizing {
        splitLimit := 0;
      } else {
        splitLimit := EnoughLargeLeft(pol);
        if splitLimit > 0 { split := AvoidRemapped; }
      }
      if list < UNIQUE_THRESHOLD { list := list + 1; }
      r := SearchLists(env, q, list, splitLimit, split);
    }

    method SearchLists(env: Env, q: Request, start: nat, last: nat, split: MaySplit) returns (r: nat)
      requires Valid() && Inv(View()) && Wf(env.b) && Need(q) > 0 && last <= N_HBLK_FLS
      modifies this, index, hblkfreelist, freePages
      ensures Valid() && TryLists(old(View()), env, q, start, last, split, old(met)) == Outcome(View(), r, met)
    {
      hide Inv, Threaded, PageIndex.Look, PageIndex.Flat, Layout, Searched, AllocFrom, Need;
      ghost var target := TryLists(View(), env, q, start, last, split, met);
      var i := start;
      r := 0;
      while i <= last
        invariant Valid() && Inv(View()) && start <= i && r == 0
        invariant TryLists(View(), env, q, i, last, split, met) == target
        decreases last + 1 - i
      {
        ghost var m := View();
        InvFacts(m);
        ghost var o := AllocNth(m, env, q, i, split, met);
        AllocFromKeeps(m, env, q, i, m.lists[i], split, met, o);
        r := AllochblkNth(env, q, i, split);
        if r != 0 { return; }
        SearchedInv(m, View(), q, 0);
        i := i + 1;
      }
    }

    // ------------------------------------------------------------- unmapping and merging

    /** GC_unmap of a whole free block, and its flag. */
    method UnmapInPlace(f: nat)
      requires Valid() && f < index.size && View().lay[f].Free?
      modifies this`mapped, index
      ensures Valid() && View() == Unmap(old(View()), f)
    {
      hide Threaded, Layout, PageIndex.Look, PageIndex.Flat, Range;
      ghost var flat := index.Flat();
      EntryOf(flat, f);
      var hhdr := index.Get(f);
      index.Update(f, hhdr.h.(unmapped := true));
      mapped := mapped - Range(f, hhdr.h.sz / HBLKSIZE);
      FlagThreaded(flat, index.Flat(), hblkfreelist[..], freePages[..], lists, f, true);
    }

    /** GC_unmap_old; `isOld` stands for the comparison of a block's age with the threshold. */
    method UnmapOld(isOld: nat -> bool)
      requires Valid() && Inv(View())
      modifies this`mapped, index
      ensures Valid() && View() == HeapMerge.UnmapOld(old(View()), isOld)
    {
      hide Inv, Threaded, PageIndex.Look, PageIndex.Flat, Layout, UnmapList;
      var i := 0;
      while i <= N_HBLK_FLS
        invariant i <= N_HBLK_FLS + 1 && Valid() && Inv(View()) && lists == old(lists)
        invariant UnmapFrom(View(), i, isOld) == HeapMerge.UnmapOld(old(View()), isOld)
      {
        ThreadedSizes(index.Flat(), hblkfreelist[..], freePages[..], lists);
        UnmapOneList(i, isOld);
        i := i + 1;
      }
      ThreadedSizes(index.Flat(), hblkfreelist[..], freePages[..], lists);
    }

    method UnmapOneList(i: nat, isOld: nat -> bool)
      requires Valid() && Inv(View()) && i < |lists|
      modifies this`mapped, index
      ensures Valid() && Inv(View()) && View() == UnmapList(old(View()), old(lists)[i], isOld)
    {
      hide Inv, Threaded, PageIndex.Look, PageIndex.Flat, Layout, Rest, Unmap;
      ThreadedSizes(index.Flat(), hblkfreelist[..], freePages[..], lists);
      HeadOf(index.Flat(), hblkfreelist[..], freePages[..], lists, i);
      OneList(View(), i);
      ghost var es := lists[i];
      RestAll(es);
      assert es != [] ==> es[0] in lists[i];
      var h := hblkfreelist[i];
      while h != 0
        invariant Valid() && Inv(View()) && lists == old(lists) && Rest(lists[i], es)
        invariant h == (if es == [] then 0 else es[0]) && (es != [] ==> es[0] != 0)
        invariant UnmapList(View(), es, isOld) == UnmapList(old(View()), old(lists)[i], isOld)
        decreases |es|
      {
        ghost var m, next := View(), es[1..];
        InvFacts(m);
        RestFirst(m, i, es);
        RestLinks(index.Flat(), hblkfreelist[..], freePages[..], lists, i, es);
        CellIs(index.Flat(), h);
        var hhdr := index.Get(h);
        UnmapOneKeeps(m, UnmapOne(m, h, isOld), h, isOld);
        if !hhdr.h.unmapped && isOld(h) { UnmapInPlace(h); }
        h := hhdr.h.next;
        es := next;
      }
    }

    /** One merge of GC_merge_unmapped. */
    method MergeInPlace(h: nat, i: nat)
      requires Valid() && Inv(View()) && Mergeable(View(), h) && i == Bin(View().lay[h].pages)
      modifies this`lists, this`mapped, index, hblkfreelist, freePages
      ensures Valid() && |old(View()).lists| == N_HBLK_FLS + 1 && 0 < old(View()).lay[h].pages
      ensures View() == MergeStep(old(View()), h)
    {
      hide Inv, Sound, Threaded, PageIndex.Look, PageIndex.Flat, Layout, Without, Agree, MergeStep, Join, Push;
      ghost var m := View();
      MergeFacts(m, h);
      InvFacts(m);
      ghost var b := h + m.lay[h].pages;
      AgreeInPlace(h);
      ghost var m1 := View();
      AgreeSound(m, m1, h, b);
      ThreadedSizes(index.Flat(), hblkfreelist[..], freePages[..], lists);
      FreeEntry(index.Flat(), m1, {}, h);
      FreeEntry(index.Flat(), m1, {}, b);
      var hhdr := index.Get(h);
      var next := h + hhdr.h.sz / HBLKSIZE;
      var nexthdr := index.Get(next);
      TakeSound(m1, {}, h);
      assert {} + {h} == {h};
      ghost var u := Take(m1, h, i);
      TakeSound(u, {h}, b);
      ghost var m2 := Take(u, b, Bin(m.lay[b].pages));
      OffLists(m2, {h} + {b}, h);
      OffLists(m2, {h} + {b}, b);
      RemoveFromFlAt(h, i);
      assert View() == u;
      ThreadedSizes(index.Flat(), hblkfreelist[..], freePages[..], lists);
      FreeEntry(index.Flat(), u, {h}, b);
      RemoveFromFlAt(next, Bin(nexthdr.h.sz / HBLKSIZE));
      JoinInPlace(h, next);
      ghost var m3 := Join(m2, h);
      JoinCell(m2, h);
      EntryOf(index.Flat(), h);
      ThreadedSizes(index.Flat(), hblkfreelist[..], freePages[..], lists);
      AddToFl(h);
      MergeStepIs(m, m1, m2, m3, h, b);
      assert m3.lay[h := m3.lay[h]] == m3.lay;
    }

    /** Before the merge the smaller block is mapped or unmapped to be like the other.  (The flag of the second
        header, which is about to go away, is kept right as well.) */
    method AgreeInPlace(h: nat)
      requires Valid() && Mergeable(View(), h)
      modifies this`mapped, index
      ensures Valid() && View() == Agree(old(View()), h)
    {
      hide Threaded, PageIndex.Look, PageIndex.Flat, Layout, Remap, Unmap;
      EntryOf(index.Flat(), h);
      var hhdr := index.Get(h);
      var next := h + hhdr.h.sz / HBLKSIZE;
      EntryOf(index.Flat(), next);
      var nexthdr := index.Get(next);
      if !hhdr.h.unmapped && nexthdr.h.unmapped {
        if hhdr.h.sz / HBLKSIZE > nexthdr.h.sz / HBLKSIZE { RemapInPlace(next); } else { UnmapInPlace(h); }
      } else if hhdr.h.unmapped && !nexthdr.h.unmapped {
        if hhdr.h.sz / HBLKSIZE > nexthdr.h.sz / HBLKSIZE { UnmapInPlace(next); } else { RemapInPlace(h); }
      }
    }

    /** Can the block be coalesced with its successor? */
    method CanMerge(h: nat) returns (b: bool)
      requires Valid() && Inv(View()) && h < index.size && View().lay[h].Free?
      ensures b == Mergeable(View(), h)
    {
      hide Sound, Threaded, PageIndex.Look, PageIndex.Flat, Layout;
      InvFacts(View());
      SoundFacts(View(), {});
      EntryOf(index.Flat(), h);
      var hhdr := index.Get(h);
      var next := h + hhdr.h.sz / HBLKSIZE;
      CellIs(index.Flat(), next);
      var e := index.Get(next);
      b := e.Header? && e.h.free && hhdr.h.sz / HBLKSIZE + e.h.sz / HBLKSIZE < limit;
    }

    /** GC_merge_unmapped on one list, which is searched from its head again after each merge. */
    method MergeOneList(i: nat)
      requires Valid() && Inv(View()) && i < |lists|
      modifies this`lists, this`mapped, index, hblkfreelist, freePages
      ensures Valid() && Inv(View()) && View() == MergeList(old(View()), i) && |lists| == N_HBLK_FLS + 1
    {
      hide Inv, Threaded, PageIndex.Look, PageIndex.Flat, Layout, Rest, MergeStep, Mergeable, FreeSet, MergeList, JoinedAt, Bin;
      ghost var target := MergeList(View(), i);
      InvFacts(View());
      HeadOf(index.Flat(), hblkfreelist[..], freePages[..], lists, i);
      OneList(View(), i);
      ghost var k := 0;
      assert lists[i] != [] ==> lists[i][0] in lists[i];
      var h := hblkfreelist[i];
      while h != 0
        invariant Valid() && Inv(View()) && |lists| == N_HBLK_FLS + 1 && k <= |lists[i]|
        invariant h == (if k < |lists[i]| then lists[i][k] else 0) && (k < |lists[i]| ==> lists[i][k] != 0)
        invariant forall j :: 0 <= j < k ==> !Mergeable(View(), lists[i][j])
        invariant MergeList(View(), i) == target
        decreases FreeSet(View().lay), |lists[i]| - k
      {
        ghost var m := View();
        OnItsList(m, i, k);
        ThreadedAt(index.Flat(), hblkfreelist[..], freePages[..], lists, i, k);
        var hhdr := index.Get(h);
        var merge := CanMerge(h);
        if merge {
          MergeListStep(m, i, k);
          MergeInPlace(h, i);
          HeadOf(index.Flat(), hblkfreelist[..], freePages[..], lists, i);
          OneList(View(), i);
          assert lists[i] != [] ==> lists[i][0] in lists[i];
          h := hblkfreelist[i];
          k := 0;
        } else {
          h := hhdr.h.next;
          k := k + 1;
        }
      }
      MergeListEnd(View(), i);
    }

    /** GC_merge_unmapped */
    method MergeUnmapped()
      requires Valid() && Inv(View())
      modifies this`lists, this`mapped, index, hblkfreelist, freePages
      ensures Valid() && View() == HeapMerge.MergeUnmapped(old(View()))
    {
      hide Inv, Threaded, PageIndex.Look, PageIndex.Flat, Layout, MergeList;
      var i := 0;
      InvFacts(View());
      while i <= N_HBLK_FLS
        invariant i <= N_HBLK_FLS + 1 && Valid() && Inv(View()) && Quiet(View(), i) && |lists| == N_HBLK_FLS + 1
        invariant MergeFrom(View(), i) == HeapMerge.MergeUnmapped(old(View()))
      {
        MergeListKeeps(View(), MergeList(View(), i), i);
        MergeOneList(i);
        i := i + 1;
      }
    }
  }

  /** The black-list search of GC_allochblk_nth. */
  method FirstUsable(b: Black, start: nat, last: int, n: nat) returns (s: nat)
    requires Wf(b) && n > 0
    ensures s == FindStart(b, start, last, n)
  {
    s := start;
    while s <= last
      invariant FindStart(b, s, last, n) == FindStart(b, start, last, n)
      decreases last - s
    {
      SearchIsExact(b, s, n);
      var t := IsBlackListed(b, s, n);
      if t == 0 { break; }
      s := t;
    }
  }
}
