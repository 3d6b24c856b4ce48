/** Allocating heap blocks: the searches of GC_allochblk and GC_allochblk_nth keep the heap in order. */
module HeapAlloc {
  import opened HeapModel
  import opened HeapProofs
  import opened HeapOps
  import opened HeapTheorems
  import opened BlackListModel

  // --------------------------------------------------------------------------- carving

  /** GC_get_first_part, on the off-list block a. */
  lemma FirstPartSound(m: Heap, t: Heap, a: nat, n: nat)
    requires Sound(m, {a}) && a < |m.lay| && m.lay[a].Free? && !m.lay[a].unmapped && 0 < n <= m.lay[a].pages
    requires a + m.lay[a].pages < |m.lay| && |m.lists| == N_HBLK_FLS + 1 && t == FirstPart(m, a, n)
    ensures Sound(t, {a}) && FreePages(t.lay) == FreePages(m.lay)
    ensures t.lay == if n < m.lay[a].pages
                     then m.lay[a := Free(n, false)][a + n := Free(m.lay[a].pages - n, false)] else m.lay
    ensures t == m.(lay := t.lay, lists := t.lists)
  {
    hide Sound, FreePages;
    if n < m.lay[a].pages {
      var s := Split(m, a, n);
      assert s == m.(lay := m.lay[a := Free(n, false)][a + n := Free(m.lay[a].pages - n, false)]);
      assert t == Push(s, a + n);
      SplitSound(m, {a}, a, n);
      PushSound(s, {a} + {a + n}, a + n);
      assert {a} + {a + n} - {a + n} == {a};
    }
  }

  lemma FrontPartSound(m: Heap, t: Heap, f: nat, r: nat)
    requires Sound(m, {f}) && f <= r < |m.lay| && m.lay[f].Free? && !m.lay[f].unmapped && r < f + m.lay[f].pages
    requires |m.lists| == N_HBLK_FLS + 1 && t == FrontPart(m, f, r)
    ensures Sound(t, {r}) && FreePages(t.lay) == FreePages(m.lay)
    ensures t.lay == if f < r then m.lay[f := Free(r - f, false)][r := Free(f + m.lay[f].pages - r, false)] else m.lay
    ensures t == m.(lay := t.lay, lists := t.lists)
  {
    hide Sound, FreePages;
    if f < r {
      var k := r - f;
      var s := Split(m, f, k);
      assert s == m.(lay := m.lay[f := Free(k, false)][f + k := Free(m.lay[f].pages - k, false)]);
      assert t == Push(s, f);
      SplitSound(m, {f}, f, k);
      PushSound(s, {f} + {f + k}, f);
      assert {f} + {f + k} - {f} == {r};
    }
  }

  /** What a cell becomes when the block c is cut out at page r of the free block of p pages at f. */
  function CarvedCell(f: nat, p: nat, r: nat, c: Cell, before: Cell, x: nat): Cell
    requires Head(c)
  {
    if f == x < r then Free(r - f, false)
    else if x == r then c
    else if r < x < r + Pages(c) then Body(c, x - r)
    else if x == r + Pages(c) < f + p then Free(f + p - x, false)
    else before
  }

  function NewBlock(q: Request): Cell { Used(q.sz, q.kind, q.ignoreOffPage) }

  lemma RemapIs(m: Heap, f: nat)
    requires f < |m.lay| && m.lay[f].Free?
    ensures var t := Remap(m, f);
      && t.lay == m.lay[f := Free(m.lay[f].pages, false)] && t.lists == m.lists && t.largeFree == m.largeFree
      && t.heap == m.heap && t.heapSize == m.heapSize && t.limit == m.limit && m.mapped <= t.mapped
  {}

  /** The stages of an allocation. */
  lemma CarveStages(m: Heap, f: nat, i: nat, r: nat, q: Request, m0: Heap, m1: Heap, m2: Heap, m3: Heap)
    requires Inv(m) && Room(m, f, r, Need(q)) && i == Bin(m.lay[f].pages) && |m.lists| == N_HBLK_FLS + 1
    requires m0 == Remap(m, f) && m1 == Take(m0, f, i)
    requires f < |m1.lay| && r < |m1.lay| && m1.lay[f].Free? && |m1.lists| == N_HBLK_FLS + 1 && r < f + m1.lay[f].pages
    requires m2 == FrontPart(m1, f, r)
    requires r < |m2.lay| && m2.lay[r].Free? && |m2.lists| == N_HBLK_FLS + 1 && r + m2.lay[r].pages < |m2.lay|
    requires m3 == FirstPart(m2, r, Need(q)) && r < |m3.lay|
    ensures Carve(m, f, i, r, q) ==
            Convert(m3, r, NewBlock(q)).(largeFree := Convert(m3, r, NewBlock(q)).largeFree - Need(q))
  {
    hide Inv, Remap, Take, FrontPart, FirstPart, Convert;
  }

  lemma CarveCells(lay: seq<Cell>, t: seq<Cell>, f: nat, r: nat, c: Cell, lay2: seq<Cell>, lay3: seq<Cell>)
    requires Shapes(lay) && f <= r < |lay| && lay[f].Free? && c.Used? && Pages(c) > 0 && r + Pages(c) <= f + lay[f].pages < |lay|
    requires lay2 == if f < r then lay[f := Free(r - f, false)][r := Free(f + lay[f].pages - r, false)]
                     else lay[f := Free(lay[f].pages, false)]
    requires lay3 == if Pages(c) < f + lay[f].pages - r
                     then lay2[r := Free(Pages(c), false)][r + Pages(c) := Free(f + lay[f].pages - r - Pages(c), false)] else lay2
    requires t == PutBlock(lay3, r, c)
    ensures |t| == |lay| && forall x :: 0 <= x < |t| ==> t[x] == CarvedCell(f, lay[f].pages, r, c, lay[x], x)
  {
    assert BlockAt(lay, f);
    forall x | 0 <= x < |t| ensures t[x] == CarvedCell(f, lay[f].pages, r, c, lay[x], x) {
      if x == f < r { assert t[x] == lay3[x] == lay2[x]; }
    }
  }

  lemma AllocatedInv(m: Heap, t: Heap, r: nat, c: Cell)
    requires Sound(m, {r}) && r < |m.lay| && m.lay[r].Free? && !m.lay[r].unmapped && m.largeFree == FreePages(m.lay)
    requires c.Used? && Pages(c) == m.lay[r].pages
    requires t == Convert(m, r, c).(largeFree := Convert(m, r, c).largeFree - Pages(c))
    ensures Inv(t) && t == m.(lay := PutBlock(m.lay, r, c), largeFree := m.largeFree - Pages(c))
  {
    var u := Convert(m, r, c);
    UseSound(m, {r}, r, c);
    assert {r} - {r} == {};
    SoundFacts(u, {});
  }

  /** The heap at each stage of an allocation. */
  lemma CarveChain(m: Heap, f: nat, i: nat, r: nat, q: Request) returns (m0: Heap, m1: Heap, m2: Heap, m3: Heap)
    requires Inv(m) && Room(m, f, r, Need(q)) && i == Bin(m.lay[f].pages) && |m.lists| == N_HBLK_FLS + 1
    ensures m0 == Remap(m, f) && m1 == Take(m0, f, i)
    ensures f < |m1.lay| && r < |m1.lay| && m1.lay[f].Free? && |m1.lists| == N_HBLK_FLS + 1 && r < f + m1.lay[f].pages
    ensures m2 == FrontPart(m1, f, r)
    ensures r < |m2.lay| && m2.lay[r].Free? && |m2.lists| == N_HBLK_FLS + 1 && r + m2.lay[r].pages < |m2.lay|
    ensures m3 == FirstPart(m2, r, Need(q)) && r < |m3.lay|
    ensures Sound(m3, {r}) && m3.lay[r] == Free(Need(q), false) && m3.largeFree == FreePages(m3.lay)
    ensures m3 == m.(lay := m3.lay, lists := m3.lists, mapped := m3.mapped) && m.mapped <= m3.mapped
    ensures m2.lay == if f < r then m.lay[f := Free(r - f, false)][r := Free(f + m.lay[f].pages - r, false)]
                      else m.lay[f := Free(m.lay[f].pages, false)]
    ensures m3.lay == if Need(q) < f + m.lay[f].pages - r
                      then m2.lay[r := Free(Need(q), false)][r + Need(q) := Free(f + m.lay[f].pages - r - Need(q), false)] else m2.lay
  {
    hide Inv, Sound, FreePages, Remap, FrontPart, FirstPart, Without, Bin, Need;
    InvFacts(m);
    RemapIs(m, f);
    RemapSound(m, {}, f);
    m0 := Remap(m, f);
    m1 := Take(m0, f, i);
    TakeSound(m0, {}, f);
    assert {} + {f} == {f};
    SoundFacts(m1, {f});
    m2 := FrontPart(m1, f, r);
    FrontPartSound(m1, m2, f, r);
    SoundFacts(m2, {r});
    m3 := FirstPart(m2, r, Need(q));
    FirstPartSound(m2, m3, r, Need(q));
  }

  lemma CarveKeeps(m: Heap, t: Heap, f: nat, i: nat, r: nat, q: Request)
    requires Inv(m) && Room(m, f, r, Need(q)) && i == Bin(m.lay[f].pages) && t == Carve(m, f, i, r, q)
    ensures Inv(t) && t.largeFree == m.largeFree - Need(q)
    ensures |t.lay| == |m.lay| && t.heap == m.heap && t.heapSize == m.heapSize && t.limit == m.limit && m.mapped <= t.mapped
    ensures forall x :: 0 <= x < |t.lay| ==> t.lay[x] == CarvedCell(f, m.lay[f].pages, r, NewBlock(q), m.lay[x], x)
  {
    hide Inv, Sound, FreePages, Remap, FrontPart, FirstPart, PutBlock, Carve, CarvedCell, Take, Bin, Shapes;
    InvParts(m);
    InvFacts(m);
    var m0, m1, m2, m3 := CarveChain(m, f, i, r, q);
    CarveStages(m, f, i, r, q, m0, m1, m2, m3);
    AllocatedInv(m3, t, r, NewBlock(q));
    CarveCells(m.lay, t.lay, f, r, NewBlock(q), m2.lay, m3.lay);
  }

  lemma InvShapes(m: Heap)
    requires Inv(m)
    ensures Tiles(m.lay, m.heap) && Listed(m.lay, m.lists, {})
  {}

  // -------------------------------------------------------------------------- dropping

  lemma {:induction false} ChunksKeep(m: Heap, t: Heap, a: nat)
    requires Sound(m, {a}) && a < |m.lay| && m.lay[a].Free? && !m.lay[a].unmapped
    requires 0 < m.lay[a].pages && a + m.lay[a].pages < |m.lay| && t == Chunks(m, a)
    ensures Sound(t, {}) && FreePages(t.lay) == FreePages(m.lay) - m.lay[a].pages
    ensures |t.lay| == |m.lay| && t == m.(lay := t.lay)
    ensures forall x :: 0 <= x < |m.lay| ==>
              t.lay[x] == if a <= x < a + m.lay[a].pages then Used(HBLKSIZE, 0, false) else m.lay[x]
    decreases m.lay[a].pages
  {
    hide Sound, FreePages;
    var one, p := Used(HBLKSIZE, 0, false), m.lay[a].pages;
    assert Pages(one) == 1;
    if p == 1 {
      UseSound(m, {a}, a, one);
      assert {a} - {a} == {};
    } else {
      var u := Convert(Split(m, a, 1), a, one);
      ChunkStep(m, u, a);
      ChunksStep(m, u, a);
      ChunksKeep(u, t, a + 1);
    }
  }

  lemma ChunksStep(m: Heap, u: Heap, a: nat)
    requires a < |m.lay| && m.lay[a].Free? && 1 < m.lay[a].pages && a + m.lay[a].pages < |m.lay|
    requires u == Convert(Split(m, a, 1), a, Used(HBLKSIZE, 0, false))
    requires u.lay[a + 1] == Free(m.lay[a].pages - 1, m.lay[a].unmapped)
    ensures Chunks(m, a) == Chunks(u, a + 1)
  {
    hide PutBlock, Split;
  }

  /** The first page of a block is given up. */
  lemma ChunkStep(m: Heap, u: Heap, a: nat)
    requires Sound(m, {a}) && a < |m.lay| && m.lay[a].Free? && !m.lay[a].unmapped
    requires 1 < m.lay[a].pages && a + m.lay[a].pages < |m.lay| && u == Convert(Split(m, a, 1), a, Used(HBLKSIZE, 0, false))
    ensures Sound(u, {a + 1}) && FreePages(u.lay) == FreePages(m.lay) - 1 && u == m.(lay := u.lay)
    ensures u.lay == m.lay[a := Used(HBLKSIZE, 0, false)][a + 1 := Free(m.lay[a].pages - 1, false)]
  {
    hide Sound, FreePages;
    var one, s := Used(HBLKSIZE, 0, false), Split(m, a, 1);
    assert Pages(one) == 1;
    SplitSound(m, {a}, a, 1);
    UseSound(s, {a} + {a + 1}, a, one);
    assert {a} + {a + 1} - {a} == {a + 1};
  }

  /** A free block is given up: all its pages become used one-page blocks. */
  lemma DropKeeps(m: Heap, t: Heap, f: nat, i: nat)
    requires Inv(m) && f < |m.lay| && m.lay[f].Free? && !m.lay[f].unmapped && i == Bin(m.lay[f].pages)
    requires 0 < m.lay[f].pages && f + m.lay[f].pages < |m.lay| && |m.lists| == N_HBLK_FLS + 1 && t == Drop(m, f, i)
    ensures Inv(t) && t.largeFree == m.largeFree - m.lay[f].pages
    ensures t == m.(lay := t.lay, largeFree := t.largeFree, lists := m.lists[i := Without(m.lists[i], f)])
    ensures |t.lay| == |m.lay| && forall x :: 0 <= x < |m.lay| ==>
              t.lay[x] == if f <= x < f + m.lay[f].pages then Used(HBLKSIZE, 0, false) else m.lay[x]
  {
    hide Sound, FreePages, Chunks;
    var u := Take(m, f, i);
    InvFacts(m);
    var c := Chunks(u, f);
    TakeSound(m, {}, f);
    assert {} + {f} == {f};
    ChunksKeep(u, c, f);
    SoundFacts(c, {});
  }

  // ------------------------------------------------------------------------ searching

  lemma {:induction false} WithoutAt(l: seq<nat>, k: nat)
    requires NoDup(l) && k < |l|
    ensures Without(l, l[k]) == l[..k] + l[k + 1..]
  {
    if k > 0 {
      assert l[1..][k - 1] == l[k];
      assert forall j :: 0 <= j < |l| - 1 ==> l[1..][j] == l[j + 1];
      WithoutAt(l[1..], k - 1);
      assert l[..k] == [l[0]] + l[1..][..k - 1];
      assert l[1..][k..] == l[k + 1..];
    }
  }

  /** What is still to be looked at on a list. */
  predicate Rest(l: seq<nat>, es: seq<nat>) { |es| <= |l| && es == l[|l| - |es|..] }

  lemma RestFirst(m: Heap, i: nat, es: seq<nat>)
    requires Inv(m) && |m.lists| == N_HBLK_FLS + 1 && i < |m.lists| && Rest(m.lists[i], es) && es != []
    ensures var f := es[0]; f in m.lists[i] && f < |m.lay| && m.lay[f].Free? && Bin(m.lay[f].pages) == i
    ensures es[0] + m.lay[es[0]].pages < |m.lay| && 0 < m.lay[es[0]].pages && Rest(m.lists[i], es[1..])
    ensures Rest(Without(m.lists[i], es[0]), es[1..])
  {
    var l := m.lists[i];
    var k := |l| - |es|;
    assert es[0] == l[k];
    ListedAt(m.lay, m.lists, {}, i, l[k]);
    assert BlockAt(m.lay, es[0]);
    WithoutAt(l, k);
  }

  /** What the search decides for a block makes sense. */
  lemma JudgeRoom(m: Heap, env: Env, q: Request, f: nat, next: seq<nat>, split: MaySplit)
    requires Wf(env.b) && Need(q) > 0 && f < |m.lay| && m.lay[f].Free? && f + m.lay[f].pages < |m.lay|
    ensures var v := Judge(m, env, q, f, next, split);
      && (v.TakeAt? ==> Room(m, f, v.r, Need(q)))
      && (v.Dropping? ==> !m.lay[f].unmapped)
  {
    if m.lay[f].pages >= Need(q) {
      LowestStart(env.b, f, f + m.lay[f].pages - Need(q), if q.ignoreOffPage then 1 else Need(q));
    }
  }

  /** The heap, the page of the new block or 0, and how many fully black-listed blocks have been met: only every
      fourth of them is dropped. */
  datatype Outcome = Outcome(m: Heap, r: nat, met: nat)

  /** GC_allochblk_nth, with the blocks `es` of list i still to be looked at.  When the first block of the list
      is dropped the source starts again at the head of the list, which is then the block after it. */
  ghost function AllocFrom(m: Heap, env: Env, q: Request, i: nat, es: seq<nat>, split: MaySplit, met: nat): Outcome
    requires Inv(m) && Wf(env.b) && Need(q) > 0 && i < |m.lists| == N_HBLK_FLS + 1 && Rest(m.lists[i], es)
    decreases |es|
  {
    if es == [] then Outcome(m, 0, met)
    else
      RestFirst(m, i, es);
      JudgeRoom(m, env, q, es[0], es[1..], split);
      match Judge(m, env, q, es[0], es[1..], split)
      case TakeAt(r) => Outcome(Carve(m, es[0], i, r, q), r, met)
      case Skip => AllocFrom(m, env, q, i, es[1..], split, met)
      case Dropping =>
        if (met + 1) % 4 != 0 then AllocFrom(m, env, q, i, es[1..], split, met + 1)
        else
          DropKeeps(m, Drop(m, es[0], i), es[0], i);
          AllocFrom(Drop(m, es[0], i), env, q, i, es[1..], split, met + 1)
  }
}
