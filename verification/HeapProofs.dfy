/** The pieces of the allocator's operations keep the layout sound. */
module HeapProofs {
  import opened HeapModel

  // ---------------------------------------------------------------------------- layout

  /** Blocks do not overlap. */
  lemma Disjoint(lay: seq<Cell>, a: nat, b: nat, x: nat)
    requires a < |lay| && b < |lay| && Head(lay[a]) && Head(lay[b]) && BlockAt(lay, a) && BlockAt(lay, b)
    ensures Covers(lay, a, x) && Covers(lay, b, x) ==> a == b
  {}

  lemma Apart(lay: seq<Cell>, a: nat, b: nat)
    requires Shapes(lay) && a < |lay| && b < |lay| && Head(lay[a]) && Head(lay[b]) && a != b
    ensures a + Pages(lay[a]) <= b || b + Pages(lay[b]) <= a
  {
    assert BlockAt(lay, a) && BlockAt(lay, b);
  }

  lemma SplitShapes(lay: seq<Cell>, t: seq<Cell>, a: nat, k: nat)
    requires Shapes(lay) && a + k < |lay| && lay[a].Free? && 0 < k < lay[a].pages
    requires t == lay[a := Free(k, lay[a].unmapped)][a + k := Free(lay[a].pages - k, lay[a].unmapped)]
    ensures Shapes(t)
  {
    assert BlockAt(lay, a);
    forall c | 0 <= c < |t| && Head(t[c]) ensures BlockAt(t, c) {
      if c != a && c != a + k {
        assert BlockAt(lay, c);
        forall x | c < x < c + Pages(t[c]) ensures t[x] == Body(t[c], x - c) {
          Disjoint(lay, a, c, x);
        }
      }
    }
  }

  lemma SplitFilled(lay: seq<Cell>, t: seq<Cell>, heap: set<nat>, a: nat, k: nat)
    requires Shapes(lay) && Filled(lay, heap) && a + k < |lay| && lay[a].Free? && 0 < k < lay[a].pages
    requires t == lay[a := Free(k, lay[a].unmapped)][a + k := Free(lay[a].pages - k, lay[a].unmapped)]
    ensures Filled(t, heap)
  {
    hide Filled, Shapes, BlockAt, Covers;
    SplitInside(lay, t, heap, a, k);
    forall x: nat | x in heap ensures exists c: nat :: Covers(t, c, x) { var c := SplitFound(lay, t, heap, a, k, x); }
    SplitCovers(lay, t, heap, a, k);
    assert Filled(t, heap) by { FilledFrom(lay, t, heap, a, a + k); }
  }

  lemma SplitInside(lay: seq<Cell>, t: seq<Cell>, heap: set<nat>, a: nat, k: nat)
    requires Shapes(lay) && Filled(lay, heap) && a + k < |lay| && lay[a].Free? && 0 < k < lay[a].pages
    ensures !Head(lay[a + k]) && a in heap && a + k in heap
  {
    assert BlockAt(lay, a);
    assert Covers(lay, a, a) && Covers(lay, a, a + k);
  }

  lemma SplitFound(lay: seq<Cell>, t: seq<Cell>, heap: set<nat>, a: nat, k: nat, x: nat) returns (c: nat)
    requires Filled(lay, heap) && x in heap && a + k < |lay| && lay[a].Free? && 0 < k < lay[a].pages && !Head(lay[a + k])
    requires t == lay[a := Free(k, lay[a].unmapped)][a + k := Free(lay[a].pages - k, lay[a].unmapped)]
    ensures Covers(t, c, x)
  {
    c :| Covers(lay, c, x);
    if c == a && a + k <= x { c := a + k; }
  }

  /** Two cells inside the sections have changed. */
  lemma FilledFrom(lay: seq<Cell>, t: seq<Cell>, heap: set<nat>, a: nat, b: nat)
    requires Filled(lay, heap) && |t| == |lay| && a in heap && b in heap
    requires forall x :: 0 <= x < |lay| && x != a && x != b ==> t[x] == lay[x]
    requires forall x: nat :: x in heap ==> exists c: nat :: Covers(t, c, x)
    requires forall c: nat, x: nat :: Covers(t, c, x) ==> x in heap
    ensures Filled(t, heap)
  {
    hide Covers;
  }

  lemma SplitCovers(lay: seq<Cell>, t: seq<Cell>, heap: set<nat>, a: nat, k: nat)
    requires Filled(lay, heap) && a + k < |lay| && lay[a].Free? && 0 < k < lay[a].pages
    requires t == lay[a := Free(k, lay[a].unmapped)][a + k := Free(lay[a].pages - k, lay[a].unmapped)]
    ensures forall c: nat, x: nat :: Covers(t, c, x) ==> x in heap
  {
    forall c: nat, x: nat | Covers(t, c, x) ensures x in heap {
      if c == a + k || c == a { assert Covers(lay, a, x); } else { assert Covers(lay, c, x); }
    }
  }

  lemma JoinShapes(lay: seq<Cell>, t: seq<Cell>, a: nat, b: nat)
    requires Shapes(lay) && a < b < |lay| && lay[a].Free? && b == a + lay[a].pages && lay[b].Free?
    requires t == lay[b := Nil][a := Free(lay[a].pages + lay[b].pages, lay[a].unmapped)]
    ensures Shapes(t)
  {
    assert BlockAt(lay, a) && BlockAt(lay, b);
    forall c | 0 <= c < |t| && Head(t[c]) ensures BlockAt(t, c) {
      if c != a {
        assert BlockAt(lay, c);
        forall x | c < x < c + Pages(t[c]) ensures t[x] == Body(t[c], x - c) {
          Disjoint(lay, a, c, x);
          Disjoint(lay, b, c, x);
        }
      }
    }
  }

  lemma JoinFilled(lay: seq<Cell>, t: seq<Cell>, heap: set<nat>, a: nat, b: nat)
    requires Shapes(lay) && Filled(lay, heap) && a < b < |lay| && lay[a].Free? && b == a + lay[a].pages && lay[b].Free?
    requires t == lay[b := Nil][a := Free(lay[a].pages + lay[b].pages, lay[a].unmapped)]
    ensures Filled(t, heap)
  {
    assert BlockAt(lay, a) && BlockAt(lay, b);
    assert Covers(lay, a, a) && Covers(lay, b, b);
    forall x | x in heap ensures exists c: nat :: Covers(t, c, x) {
      var c: nat :| Covers(lay, c, x);
      if c == b { assert Covers(t, a, x); } else { assert Covers(t, c, x); }
    }
    forall c: nat, x: nat | Covers(t, c, x) ensures x in heap {
      if c == a && b <= x { assert Covers(lay, b, x); } else { assert Covers(lay, c, x); }
    }
  }

  lemma ConvertShapes(lay: seq<Cell>, a: nat, c: Cell)
    requires Shapes(lay) && a < |lay| && Head(lay[a]) && Head(c) && Pages(c) == Pages(lay[a])
    ensures Shapes(PutBlock(lay, a, c))
  {
    var t := PutBlock(lay, a, c);
    assert BlockAt(lay, a);
    forall b | 0 <= b < |t| && Head(t[b]) ensures BlockAt(t, b) {
      if b != a {
        assert BlockAt(lay, b);
        forall x | b < x < b + Pages(t[b]) ensures t[x] == Body(t[b], x - b) {
          Disjoint(lay, a, b, x);
        }
      }
    }
  }

  lemma ConvertFilled(lay: seq<Cell>, heap: set<nat>, a: nat, c: Cell)
    requires Shapes(lay) && Filled(lay, heap) && a < |lay| && Head(lay[a]) && Head(c) && Pages(c) == Pages(lay[a])
    ensures Filled(PutBlock(lay, a, c), heap)
  {
    var t := PutBlock(lay, a, c);
    assert BlockAt(lay, a);
    forall x | x in heap ensures exists b: nat :: Covers(t, b, x) {
      var b: nat :| Covers(lay, b, x);
      assert Covers(t, b, x);
    }
    forall b: nat, x: nat | Covers(t, b, x) ensures x in heap { assert Covers(lay, b, x); }
    forall x | 0 <= x < |t| && x !in heap ensures t[x] == Nil {
      if a <= x < a + Pages(c) { assert Covers(lay, a, x); }
    }
  }

  // ----------------------------------------------------------------------------- lists

  lemma {:induction false} WithoutIn(l: seq<nat>, a: nat)
    requires NoDup(l)
    ensures NoDup(Without(l, a)) && forall x :: x in Without(l, a) <==> x in l && x != a
  {
    if l != [] {
      assert l == [l[0]] + l[1..];
      assert forall i :: 0 <= i < |l| - 1 ==> l[1..][i] == l[i + 1];
      if l[0] != a {
        WithoutIn(l[1..], a);
        var r := Without(l[1..], a);
        assert Without(l, a) == [l[0]] + r;
        assert l[0] !in l[1..] && l[0] !in r;
      }
    }
  }

  lemma ListedAt(lay: seq<Cell>, lists: seq<seq<nat>>, off: set<nat>, j: nat, x: nat)
    requires Listed(lay, lists, off) && j < |lists| && x in lists[j]
    ensures x < |lay| && lay[x].Free? && Bin(lay[x].pages) == j && x !in off
  {}

  lemma TakeListed(m: Heap, off: set<nat>, a: nat)
    requires Listed(m.lay, m.lists, off) && a < |m.lay| && m.lay[a].Free? && a !in off
    ensures var i := Bin(m.lay[a].pages); Listed(m.lay, Take(m, a, i).lists, off + {a})
  {
    var i := Bin(m.lay[a].pages);
    var t := Take(m, a, i);
    WithoutIn(m.lists[i], a);
    forall x | 0 <= x < |m.lay| && m.lay[x].Free? && x !in off + {a} ensures x in t.lists[Bin(m.lay[x].pages)] {
      assert x in m.lists[Bin(m.lay[x].pages)];
    }
  }

  lemma PushListed(m: Heap, off: set<nat>, a: nat)
    requires Listed(m.lay, m.lists, off) && a < |m.lay| && m.lay[a].Free? && a in off
    ensures Listed(m.lay, Push(m, a).lists, off - {a})
  {
    var i := Bin(m.lay[a].pages);
    var t := Push(m, a);
    assert t.lists[i] == [a] + m.lists[i];
    forall x | 0 <= x < |m.lay| && m.lay[x].Free? && x !in off - {a} ensures x in t.lists[Bin(m.lay[x].pages)] {
      if x != a { assert x in m.lists[Bin(m.lay[x].pages)]; }
      if x == a { assert t.lists[i][0] == a; }
    }
    assert a !in m.lists[i];
    forall j, x | 0 <= j < |t.lists| && x in t.lists[j]
      ensures x < |m.lay| && m.lay[x].Free? && Bin(m.lay[x].pages) == j && x !in off - {a}
    {
      if x != a { assert x in m.lists[j]; }
      if x == a && j != i { assert x in m.lists[j]; }
    }
  }

  /** Cells of blocks that are off the lists may change. */
  lemma Relisted(m: Heap, t: Heap, off: set<nat>, off': set<nat>)
    requires Listed(m.lay, m.lists, off) && t.lists == m.lists && |t.lay| == |m.lay|
    requires forall a :: 0 <= a < |m.lay| && t.lay[a] != m.lay[a] ==>
               (t.lay[a].Free? <==> a in off') && (m.lay[a].Free? ==> a in off)
    requires forall a :: 0 <= a < |m.lay| && t.lay[a] == m.lay[a] ==> (a in off' <==> a in off)
    requires forall a :: a in off' ==> a < |m.lay|
    ensures Listed(t.lay, t.lists, off')
  {}

  // ---------------------------------------------------------------------------- totals

  lemma {:induction false} TotalConcat(lay: seq<Cell>, used: bool, lo: nat, mid: nat, hi: nat)
    requires lo <= mid <= hi <= |lay|
    ensures Total(lay, used, lo, hi) == Total(lay, used, lo, mid) + Total(lay, used, mid, hi)
    decreases hi
  {
    if mid < hi { TotalConcat(lay, used, lo, mid, hi - 1); }
  }

  lemma {:induction false} TotalSame(lay: seq<Cell>, t: seq<Cell>, used: bool, lo: nat, hi: nat)
    requires lo <= hi <= |lay| == |t|
    requires forall x :: lo <= x < hi ==> Weight(lay[x], used) == Weight(t[x], used)
    ensures Total(lay, used, lo, hi) == Total(t, used, lo, hi)
    decreases hi
  {
    if lo < hi { TotalSame(lay, t, used, lo, hi - 1); }
  }

  /** The total when the weight of one page's cell changes. */
  lemma TotalPoint(lay: seq<Cell>, t: seq<Cell>, used: bool, a: nat)
    requires a < |lay| == |t|
    requires forall x :: 0 <= x < |lay| && x != a ==> Weight(lay[x], used) == Weight(t[x], used)
    ensures Total(t, used, 0, |t|) == Total(lay, used, 0, |lay|) + Weight(t[a], used) - Weight(lay[a], used)
  {
    TotalConcat(lay, used, 0, a, |lay|);
    TotalConcat(t, used, 0, a, |t|);
    TotalConcat(lay, used, a, a + 1, |lay|);
    TotalConcat(t, used, a, a + 1, |t|);
    TotalSame(lay, t, used, 0, a);
    TotalSame(lay, t, used, a + 1, |lay|);
    assert Total(lay, used, a, a + 1) == Total(lay, used, a, a) + Weight(lay[a], used);
    assert Total(t, used, a, a + 1) == Total(t, used, a, a) + Weight(t[a], used);
  }

  lemma SplitTotals(m: Heap, a: nat, k: nat, used: bool)
    requires Tiles(m.lay, m.heap) && a + k < |m.lay| && m.lay[a].Free? && 0 < k < m.lay[a].pages
    ensures Total(Split(m, a, k).lay, used, 0, |m.lay|) == Total(m.lay, used, 0, |m.lay|)
  {
    var u := m.lay[a].unmapped;
    var t := m.lay[a := Free(k, u)];
    assert BlockAt(m.lay, a);
    TotalPoint(m.lay, t, used, a);
    TotalPoint(t, Split(m, a, k).lay, used, a + k);
  }

  lemma JoinTotals(m: Heap, a: nat, used: bool)
    requires Tiles(m.lay, m.heap) && a < |m.lay| && m.lay[a].Free?
    requires a + m.lay[a].pages < |m.lay| && m.lay[a + m.lay[a].pages].Free?
    ensures Total(Join(m, a).lay, used, 0, |m.lay|) == Total(m.lay, used, 0, |m.lay|)
  {
    assert BlockAt(m.lay, a);
    var b := a + m.lay[a].pages;
    var t := m.lay[b := Nil];
    TotalPoint(m.lay, t, used, b);
    TotalPoint(t, Join(m, a).lay, used, a);
  }

  lemma ConvertTotals(m: Heap, a: nat, c: Cell, used: bool)
    requires Tiles(m.lay, m.heap) && a < |m.lay| && Head(m.lay[a]) && Head(c) && Pages(c) == Pages(m.lay[a])
    ensures Total(Convert(m, a, c).lay, used, 0, |m.lay|) ==
            Total(m.lay, used, 0, |m.lay|) + Weight(c, used) - Weight(m.lay[a], used)
  {
    var t := Convert(m, a, c).lay;
    assert BlockAt(m.lay, a);
    forall x | 0 <= x < |m.lay| && x != a ensures Weight(m.lay[x], used) == Weight(t[x], used) {
      if a < x < a + Pages(c) { assert m.lay[x] == Body(m.lay[a], x - a); }
    }
    TotalPoint(m.lay, t, used, a);
  }

  // ------------------------------------------------------------------ the pieces are sound

  lemma TakeSound(m: Heap, off: set<nat>, a: nat)
    requires Sound(m, off) && a < |m.lay| && m.lay[a].Free? && a !in off
    ensures Sound(Take(m, a, Bin(m.lay[a].pages)), off + {a})
  {
    TakeListed(m, off, a);
  }

  lemma PushSound(m: Heap, off: set<nat>, a: nat)
    requires Sound(m, off) && a < |m.lay| && m.lay[a].Free? && a in off
    ensures Sound(Push(m, a), off - {a})
  {
    PushListed(m, off, a);
  }

  lemma SplitSound(m: Heap, off: set<nat>, a: nat, k: nat)
    requires Sound(m, off) && a + k < |m.lay| && m.lay[a].Free? && 0 < k < m.lay[a].pages && a in off
    requires forall x :: x in off ==> x < |m.lay|
    ensures Sound(Split(m, a, k), off + {a + k})
    ensures FreePages(Split(m, a, k).lay) == FreePages(m.lay)
  {
    var t := Split(m, a, k);
    SplitShapes(m.lay, t.lay, a, k);
    SplitFilled(m.lay, t.lay, m.heap, a, k);
    SplitTotals(m, a, k, true);
    SplitTotals(m, a, k, false);
    assert BlockAt(m.lay, a);
    SplitListed(m, t, off, a, a + k, t.lay[a], t.lay[a + k]);
    SplitMapping(m, t, a, k);
  }

  lemma SplitListed(m: Heap, t: Heap, off: set<nat>, a: nat, b: nat, c: Cell, d: Cell)
    requires Listed(m.lay, m.lists, off) && t.lists == m.lists && a < b < |m.lay| && a in off && m.lay[b] == Nil
    requires forall x :: x in off ==> x < |m.lay|
    requires c.Free? && d.Free? && t.lay == m.lay[a := c][b := d]
    ensures Listed(t.lay, t.lists, off + {b})
  {
    Relisted(m, t, off, off + {b});
  }

  lemma SplitMapping(m: Heap, t: Heap, a: nat, k: nat)
    requires Mapping(m.lay, m.mapped) && a + k < |m.lay| && m.lay[a].Free? && 0 < k < m.lay[a].pages && t == Split(m, a, k)
    ensures Mapping(t.lay, t.mapped)
  {
    forall c: nat, x: nat | Covers(t.lay, c, x) ensures x in t.mapped <==> !(t.lay[c].Free? && t.lay[c].unmapped) {
      if c == a + k { assert Covers(m.lay, a, x); } else { assert Covers(m.lay, c, x); }
    }
  }

  lemma JoinSound(m: Heap, off: set<nat>, a: nat, b: nat)
    requires Sound(m, off) && a < b < |m.lay| && m.lay[a].Free? && b == a + m.lay[a].pages && m.lay[b].Free?
    requires m.lay[b].unmapped == m.lay[a].unmapped
    requires a in off && b in off && forall x :: x in off ==> x < |m.lay|
    ensures Sound(Join(m, a), off - {b})
    ensures FreePages(Join(m, a).lay) == FreePages(m.lay)
  {
    hide Shapes, Filled, Listed, Mapping;
    var t := Join(m, a);
    JoinShapes(m.lay, t.lay, a, b);
    JoinFilled(m.lay, t.lay, m.heap, a, b);
    JoinTotals(m, a, true);
    JoinTotals(m, a, false);
    Relisted(m, t, off, off - {b});
    JoinMapping(m, t, a, b);
  }

  lemma JoinMapping(m: Heap, t: Heap, a: nat, b: nat)
    requires Mapping(m.lay, m.mapped) && a < b < |m.lay| && m.lay[a].Free? && b == a + m.lay[a].pages && m.lay[b].Free?
    requires m.lay[b].unmapped == m.lay[a].unmapped && t == Join(m, a)
    ensures Mapping(t.lay, t.mapped)
  {
    forall c: nat, x: nat | Covers(t.lay, c, x) ensures x in t.mapped <==> !(t.lay[c].Free? && t.lay[c].unmapped) {
      if c == a && b <= x { assert Covers(m.lay, b, x); } else { assert Covers(m.lay, c, x); }
    }
  }

  /** A free block comes into use. */
  lemma UseSound(m: Heap, off: set<nat>, a: nat, c: Cell)
    requires Sound(m, off) && a < |m.lay| && m.lay[a].Free? && !m.lay[a].unmapped && a in off
    requires c.Used? && Pages(c) == Pages(m.lay[a]) && forall x :: x in off ==> x < |m.lay| && m.lay[x].Free?
    ensures Sound(Convert(m, a, c), off - {a})
    ensures FreePages(Convert(m, a, c).lay) == FreePages(m.lay) - Pages(c)
  {
    ConvertSound(m, off, off - {a}, a, c);
  }

  /** A used block becomes free. */
  lemma ReleaseSound(m: Heap, off: set<nat>, a: nat)
    requires Sound(m, off) && a < |m.lay| && m.lay[a].Used? && forall x :: x in off ==> x < |m.lay| && m.lay[x].Free?
    ensures Sound(Convert(m, a, Free(Pages(m.lay[a]), false)), off + {a})
    ensures FreePages(Convert(m, a, Free(Pages(m.lay[a]), false)).lay) == FreePages(m.lay) + Pages(m.lay[a])
  {
    ConvertSound(m, off, off + {a}, a, Free(Pages(m.lay[a]), false));
  }

  lemma ConvertSound(m: Heap, off: set<nat>, off': set<nat>, a: nat, c: Cell)
    requires Sound(m, off) && a < |m.lay| && Head(m.lay[a]) && Head(c) && Pages(c) == Pages(m.lay[a])
    requires !(m.lay[a].Free? && m.lay[a].unmapped) && !(c.Free? && c.unmapped) && c.Free? != m.lay[a].Free?
    requires (m.lay[a].Free? <==> a in off) && (c.Free? <==> a in off') && off - {a} == off' - {a}
    requires forall x :: x in off ==> x < |m.lay| && m.lay[x].Free?
    ensures Sound(Convert(m, a, c), off')
    ensures FreePages(Convert(m, a, c).lay) == FreePages(m.lay) + Weight(c, false) - Weight(m.lay[a], false)
  {
    var t := Convert(m, a, c);
    ConvertShapes(m.lay, a, c);
    ConvertFilled(m.lay, m.heap, a, c);
    ConvertTotals(m, a, c, true);
    ConvertTotals(m, a, c, false);
    ConvertListed(m, t, off, off', a, c);
    ConvertMapping(m, t, a, c);
  }

  lemma ConvertListed(m: Heap, t: Heap, off: set<nat>, off': set<nat>, a: nat, c: Cell)
    requires Shapes(m.lay) && Listed(m.lay, m.lists, off) && t.lists == m.lists
    requires a < |m.lay| && Head(m.lay[a]) && Head(c) && Pages(c) == Pages(m.lay[a]) && t.lay == PutBlock(m.lay, a, c)
    requires (m.lay[a].Free? <==> a in off) && (c.Free? <==> a in off') && off - {a} == off' - {a}
    requires forall x :: x in off ==> x < |m.lay| && m.lay[x].Free?
    ensures Listed(t.lay, t.lists, off')
  {
    assert BlockAt(m.lay, a);
    forall x | 0 <= x < |m.lay| && x != a ensures t.lay[x].Free? == m.lay[x].Free? && (m.lay[x].Free? ==> t.lay[x] == m.lay[x]) {}
    forall x | 0 <= x < |m.lay| && x != a ensures x in off' <==> x in off { assert x in off - {a} <==> x in off' - {a}; }
    forall j, x | 0 <= j < |t.lists| && x in t.lists[j]
      ensures x < |t.lay| && t.lay[x].Free? && Bin(t.lay[x].pages) == j && x !in off'
    {
      ListedAt(m.lay, m.lists, off, j, x);
      assert x != a && t.lay[x] == m.lay[x];
    }
  }

  lemma ConvertMapping(m: Heap, t: Heap, a: nat, c: Cell)
    requires Mapping(m.lay, m.mapped) && Shapes(m.lay) && t.mapped == m.mapped
    requires a < |m.lay| && Head(m.lay[a]) && Head(c) && Pages(c) == Pages(m.lay[a]) && t.lay == PutBlock(m.lay, a, c)
    requires !(m.lay[a].Free? && m.lay[a].unmapped) && !(c.Free? && c.unmapped)
    ensures Mapping(t.lay, t.mapped)
  {
    assert BlockAt(m.lay, a);
    forall b: nat, x: nat | Covers(t.lay, b, x) ensures x in t.mapped <==> !(t.lay[b].Free? && t.lay[b].unmapped) {
      assert Covers(m.lay, b, x);
    }
  }

  /** The mapped flag of a free block changes together with its pages. */
  lemma FlagSound(m: Heap, t: Heap, off: set<nat>, a: nat, u: bool)
    requires Sound(m, off) && a < |m.lay| && m.lay[a].Free?
    requires var p := m.lay[a].pages; t == m.(lay := m.lay[a := Free(p, u)], mapped := if u then m.mapped - Range(a, p) else m.mapped + Range(a, p))
    ensures Sound(t, off) && FreePages(t.lay) == FreePages(m.lay)
  {
    var c := Free(m.lay[a].pages, u);
    FlagLayout(m.lay, a, c);
    FlagListed(m, t, off, a, c);
    ConvertShapes(m.lay, a, c);
    ConvertFilled(m.lay, m.heap, a, c);
    ConvertTotals(m, a, c, true);
    ConvertTotals(m, a, c, false);
    FlagMapping(m, t, a, u);
  }

  lemma BodyOfFree(c: Cell, i: nat)
    requires c.Free?
    ensures Body(c, i) == Nil
  {}

  lemma PutFreeAt(lay: seq<Cell>, a: nat, c: Cell, x: nat)
    requires x < |lay| && c.Free?
    ensures |PutBlock(lay, a, c)| == |lay|
    ensures PutBlock(lay, a, c)[x] == if x == a then c else if a < x < a + c.pages then Nil else lay[x]
  {
    if a < x < a + Pages(c) { BodyOfFree(c, x - a); }
  }

  lemma FlagLayout(lay: seq<Cell>, a: nat, c: Cell)
    requires Shapes(lay) && a < |lay| && lay[a].Free? && c.Free? && c.pages == lay[a].pages
    ensures PutBlock(lay, a, c) == lay[a := c]
  {
    hide PutBlock, Body;
    assert BlockAt(lay, a);
    var t := PutBlock(lay, a, c);
    PutFreeAt(lay, a, c, a);
    forall x: nat | x < |lay| ensures t[x] == lay[a := c][x] {
      PutFreeAt(lay, a, c, x);
      if a < x < a + c.pages { BodyOfFree(lay[a], x - a); }
    }
  }

  lemma FlagListed(m: Heap, t: Heap, off: set<nat>, a: nat, c: Cell)
    requires Listed(m.lay, m.lists, off) && t.lists == m.lists
    requires a < |m.lay| && m.lay[a].Free? && c.Free? && c.pages == m.lay[a].pages && t.lay == m.lay[a := c]
    ensures Listed(t.lay, t.lists, off)
  {}

  lemma FlagMapping(m: Heap, t: Heap, a: nat, u: bool)
    requires Mapping(m.lay, m.mapped) && Shapes(m.lay) && a < |m.lay| && m.lay[a].Free?
    requires t.lay == m.lay[a := Free(m.lay[a].pages, u)]
    requires t.mapped == if u then m.mapped - Range(a, m.lay[a].pages) else m.mapped + Range(a, m.lay[a].pages)
    ensures Mapping(t.lay, t.mapped)
  {
    forall b: nat, x: nat | Covers(t.lay, b, x) ensures x in t.mapped <==> !(t.lay[b].Free? && t.lay[b].unmapped) {
      assert Covers(m.lay, b, x);
      assert BlockAt(m.lay, a) && BlockAt(m.lay, b);
      Disjoint(m.lay, a, b, x);
    }
  }

  lemma RemapSound(m: Heap, off: set<nat>, a: nat)
    requires Sound(m, off) && a < |m.lay| && m.lay[a].Free?
    ensures Sound(Remap(m, a), off) && FreePages(Remap(m, a).lay) == FreePages(m.lay)
  {
    if m.lay[a].unmapped { FlagSound(m, Remap(m, a), off, a, false); }
  }

  lemma UnmapSound(m: Heap, off: set<nat>, a: nat)
    requires Sound(m, off) && a < |m.lay| && m.lay[a].Free?
    ensures Sound(Unmap(m, a), off) && FreePages(Unmap(m, a).lay) == FreePages(m.lay)
  {
    FlagSound(m, Unmap(m, a), off, a, true);
  }
}
