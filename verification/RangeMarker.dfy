/** The mark stack of GC_mark_from when every entry is a range described by its length. */
module RangeMarkModel {
  import opened RangeScanModel

  datatype Target = Nothing | Object(range: Range)

  /** What marking reads and does not change: the words (which of them are in the heap's address range, and which
      object each refers to), and the sizes the stack was configured with. */
  datatype Setting = Setting(alignment: nat, plausible: nat -> bool, target: nat -> Target, capacity: nat,
                             discards: nat, parallel: bool)

  ghost predicate Proper(w: Setting) {
    && Alignment(w.alignment) && 0 < w.discards <= w.capacity
    && forall x :: w.target(x).Object? ==> Multiple(w.target(x).range.len, w.alignment)
  }

  datatype Marking = Marking(stack: seq<Range>, marked: set<Range>, overflowed: bool)

  /** PUSH_CONTENTS: mark the object a word refers to if it is not marked, and push it; a full stack loses its top
      entries. */
  function Consider(m: Marking, x: nat, w: Setting): (r: Marking)
    requires 0 < w.discards <= w.capacity && |m.stack| <= w.capacity
    ensures |r.stack| <= w.capacity
  {
    if !w.plausible(x) || w.target(x).Nothing? || w.target(x).range in m.marked then m
    else
      var o := w.target(x).range;
      var marked := m.marked + {o};
      if o.len == 0 then Marking(m.stack, marked, m.overflowed)
      else if |m.stack| < w.capacity then Marking(m.stack + [o], marked, m.overflowed)
      else Marking(m.stack[..w.capacity - w.discards] + [o], marked, true)
  }

  function ConsiderAll(m: Marking, order: seq<nat>, w: Setting): (r: Marking)
    requires 0 < w.discards <= w.capacity && |m.stack| <= w.capacity
    ensures |r.stack| <= w.capacity
  {
    if order == [] then m else Consider(ConsiderAll(m, order[..|order| - 1], w), order[|order| - 1], w)
  }

  /** The object that considering a word adds to the work, if any. */
  function FoundAt(m: Marking, x: nat, w: Setting): seq<Range> {
    if w.plausible(x) && w.target(x).Object? && w.target(x).range !in m.marked && w.target(x).range.len > 0
    then [w.target(x).range] else []
  }

  function Found(m: Marking, order: seq<nat>, w: Setting): seq<Range>
    requires 0 < w.discards <= w.capacity && |m.stack| <= w.capacity
  {
    if order == [] then []
    else
      var before := order[..|order| - 1];
      Found(m, before, w) + FoundAt(ConsiderAll(m, before, w), order[|order| - 1], w)
  }

  /** All places of all ranges. */
  function Places(ranges: seq<Range>, a: nat): multiset<nat>
    requires Alignment(a)
  {
    if ranges == [] then multiset{}
    else Places(ranges[..|ranges| - 1], a) + Count(ranges[|ranges| - 1], a)
  }

  lemma PlacesPush(ranges: seq<Range>, r: Range, a: nat)
    requires Alignment(a)
    ensures Places(ranges + [r], a) == Places(ranges, a) + Count(r, a)
  {
    assert (ranges + [r])[..|ranges|] == ranges;
  }

  lemma AfterOne(m: Marking, order: seq<nat>, x: nat, w: Setting)
    requires 0 < w.discards <= w.capacity && |m.stack| <= w.capacity
    ensures ConsiderAll(m, order + [x], w) == Consider(ConsiderAll(m, order, w), x, w)
    ensures Found(m, order + [x], w) == Found(m, order, w) + FoundAt(ConsiderAll(m, order, w), x, w)
  {
    hide Consider, FoundAt;
    assert (order + [x])[..|order|] == order;
  }

  lemma {:induction false} NothingToSee(m: Marking, order: seq<nat>, w: Setting)
    requires 0 < w.discards <= w.capacity && |m.stack| <= w.capacity
    requires forall k :: 0 <= k < |order| ==> !w.plausible(order[k])
    ensures ConsiderAll(m, order, w) == m && Found(m, order, w) == []
  {
    if order != [] { NothingToSee(m, order[..|order| - 1], w); }
  }

  lemma {:induction false} AfterNothing(m: Marking, seen: seq<nat>, low: seq<nat>, w: Setting)
    requires 0 < w.discards <= w.capacity && |m.stack| <= w.capacity
    requires forall k :: 0 <= k < |seen| ==> !w.plausible(seen[k])
    ensures ConsiderAll(m, seen + low, w) == ConsiderAll(m, low, w) && Found(m, seen + low, w) == Found(m, low, w)
  {
    if low == [] {
      assert seen + low == seen;
      NothingToSee(m, seen, w);
    } else {
      var before, x := low[..|low| - 1], low[|low| - 1];
      AfterNothing(m, seen, before, w);
      AfterOne(m, seen + before, x, w);
      assert seen + low == (seen + before) + [x];
    }
  }

  // ---------------------------------------------------------------------------- what considering words does

  ghost predicate Grew(before: Marking, after: Marking, found: seq<Range>) {
    && before.marked <= after.marked && (before.overflowed ==> after.overflowed)
    && (!after.overflowed ==> after.stack == before.stack + found)
    && (forall o :: o in found ==> o !in before.marked && o in after.marked && o.len > 0)
    && (forall o :: o in after.marked && o !in before.marked && o.len > 0 ==> o in found)
    && (forall i, j :: 0 <= i < j < |found| ==> found[i] != found[j])
  }

  lemma ConsiderGrows(m: Marking, x: nat, w: Setting)
    requires 0 < w.discards <= w.capacity && |m.stack| <= w.capacity
    ensures Grew(m, Consider(m, x, w), FoundAt(m, x, w))
    ensures w.plausible(x) && w.target(x).Object? ==> w.target(x).range in Consider(m, x, w).marked
  {}

  lemma GrewTwice(m: Marking, n: Marking, o: Marking, f: seq<Range>, g: seq<Range>)
    requires Grew(m, n, f) && Grew(n, o, g)
    ensures Grew(m, o, f + g)
  {
    if !o.overflowed { assert (m.stack + f) + g == m.stack + (f + g); }
    forall x | x in o.marked && x !in m.marked && x.len > 0 ensures x in f + g {
      if x in n.marked { assert x in f; } else { assert x in g; }
    }
  }

  /** Every object found is pushed and marked, just once, and unless the stack overflows nothing is lost from it. */
  lemma {:induction false} ConsiderAllGrows(m: Marking, order: seq<nat>, w: Setting)
    requires 0 < w.discards <= w.capacity && |m.stack| <= w.capacity
    ensures Grew(m, ConsiderAll(m, order, w), Found(m, order, w))
    ensures forall x :: x in order && w.plausible(x) && w.target(x).Object? ==> w.target(x).range in ConsiderAll(m, order, w).marked
  {
    hide Consider, FoundAt, Grew;
    if order == [] {
      GrewNot(m);
    } else {
      var before, x := order[..|order| - 1], order[|order| - 1];
      var n := ConsiderAll(m, before, w);
      ConsiderAllGrows(m, before, w);
      ConsiderGrows(n, x, w);
      GrewTwice(m, n, Consider(n, x, w), Found(m, before, w), FoundAt(n, x, w));
      MarkedStay(n, Consider(n, x, w), FoundAt(n, x, w));
    }
  }

  /** A stack that has not overflowed before does so exactly if what is found does not fit on it. */
  lemma {:induction false} OverflowsIff(m: Marking, order: seq<nat>, w: Setting)
    requires 0 < w.discards <= w.capacity && |m.stack| <= w.capacity && !m.overflowed
    ensures ConsiderAll(m, order, w).overflowed <==> |m.stack| + |Found(m, order, w)| > w.capacity
  {
    if order != [] {
      var before, x := order[..|order| - 1], order[|order| - 1];
      OverflowsIff(m, before, w);
      ConsiderAllGrows(m, before, w);
    }
  }

  /** What an overflow loses: the entries on top, as many as are to be discarded, make room for the object. */
  lemma OverflowLoses(m: Marking, x: nat, w: Setting)
    requires 0 < w.discards <= w.capacity == |m.stack| && FoundAt(m, x, w) != []
    ensures var r := Consider(m, x, w);
      && |r.stack| == |m.stack| - w.discards + 1 && r.stack[..|r.stack| - 1] <= m.stack
      && r.stack[|r.stack| - 1] == FoundAt(m, x, w)[0]
  {}

  lemma GrewNot(m: Marking)
    ensures Grew(m, m, [])
  {}

  lemma MarkedStay(m: Marking, n: Marking, f: seq<Range>)
    requires Grew(m, n, f)
    ensures m.marked <= n.marked && (m.overflowed ==> n.overflowed) && (!n.overflowed ==> n.stack == m.stack + f)
  {}

  lemma {:induction false} PlacesAppend(r: seq<Range>, s: seq<Range>, a: nat)
    requires Alignment(a)
    ensures Places(r + s, a) == Places(r, a) + Places(s, a)
  {
    hide Alignment, Count;
    if s == [] {
      assert r + s == r;
    } else {
      var t, x := s[..|s| - 1], s[|s| - 1];
      PlacesAppend(r, t, a);
      PlacesPush(r + t, x, a);
      assert r + s == (r + t) + [x] && s == t + [x];
    }
  }

  /** Parts of a range that is halved between helpers: they share the word at the cut. */
  lemma HalvesShareOne(p: nat, len: nat, m: nat, a: nat)
    requires Alignment(a) && Multiple(m, WORD) && m + WORD <= len
    ensures Count(Range(p, m + WORD), a) + Count(Range(p + m, len - m), a) == Count(Range(p, len), a) + multiset{p + m}
  {
    hide Multiple, Alignment, Positions;
    WordMultiple(m, a);
    AlignmentBounds(a);
    PositionsCut(p, len, m, a);
    PositionsEnd(p, m + WORD, a);
  }

  lemma WordMultiple(m: nat, a: nat)
    requires Alignment(a) && Multiple(m, WORD)
    ensures Multiple(m, a) && Multiple(m + WORD, a)
  {
    Eights(m, 0);
    Fours(m, 0);
    MultipleStep(m, a);
  }
}

/** GC_mark_from on a stack of length-described ranges. */
module RangeMarkObject {
  import opened RangeScanModel
  import opened RangeMarkModel

  const CREDIT: int := 4096         // HBLKSIZE
  const SPLIT_BYTES: nat := 1024

  /** GC_push_all: the aligned part of an area, its length made a multiple of four for the sake of the tag bits. */
  function AlignedRange(bottom: nat, end: nat, a: nat): Target
    requires Alignment(a)
  {
    var b, t := RoundDown(bottom + a - 1, a), RoundDown(end, a);
    if b >= t then Nothing else Object(Range(b, if a < 4 then (t - b + 3) / 4 * 4 else t - b))
  }

  lemma AlignedRangeIs(bottom: nat, end: nat, a: nat, b: nat, t: nat)
    requires Alignment(a) && b == RoundDown(bottom + a - 1, a) && t == RoundDown(end, a)
    ensures bottom <= b < bottom + a && t <= end < t + a && Multiple(b, a) && Multiple(t, a)
  {
    hide Multiple, RoundDown;
    Rounding(bottom + a - 1, a);
    Rounding(end, a);
  }

  lemma FourUp(n: nat, a: nat)
    requires Alignment(a) && Multiple(n, a)
    ensures a < 4 ==> Multiple((n + 3) / 4 * 4, a) && n <= (n + 3) / 4 * 4
  {
    Fours(0, n + 3);
    Fours((n + 3) / 4 * 4, 0);
  }

  lemma AlignedRangeIsWhole(bottom: nat, end: nat, a: nat)
    requires Alignment(a)
    ensures var t := AlignedRange(bottom, end, a); t.Object? ==> Multiple(t.range.len, a) && t.range.len > 0
  {
    hide Multiple, Alignment, RoundDown;
    AlignmentBounds(a);
    var b, t := RoundDown(bottom + a - 1, a), RoundDown(end, a);
    AlignedRangeIs(bottom, end, a, b, t);
    if b < t {
      MultipleSum(b, t, a);
      FourUp(t - b, a);
    }
  }

  /** Every aligned word of an area is a place of the range that is pushed for it. */
  lemma AlignedRangeCovers(bottom: nat, end: nat, a: nat, x: nat)
    requires Alignment(a) && Multiple(x, a) && bottom <= x && x + WORD <= end
    ensures var t := AlignedRange(bottom, end, a); t.Object? && x in Positions(t.range.start, t.range.len, a)
  {
    hide Positions, Multiple, Alignment, RoundDown;
    AlignmentBounds(a);
    var b, t := RoundDown(bottom + a - 1, a), RoundDown(end, a);
    AlignedRangeIs(bottom, end, a, b, t);
    MultipleStep(x, a);
    MultipleSum(b, x, a);
    MultipleSum(b, x - b, a);
    MultipleSum(x + WORD, t, a);
    MultipleSum(x + WORD, t - (x + WORD), a);
    MultipleSum(b, t, a);
    FourUp(t - b, a);
    var r := AlignedRange(bottom, end, a).range;
    PositionsAre(r.start, r.len, a, x);
  }

  ghost predicate WholeLengths(ranges: seq<Range>, a: nat)
    requires Alignment(a)
  {
    forall k :: 0 <= k < |ranges| ==> Multiple(ranges[k].len, a)
  }

  lemma PushIsWhole(ranges: seq<Range>, k: nat, x: nat, w: Setting)
    requires Proper(w) && k <= |ranges| && WholeLengths(ranges, w.alignment) && w.target(x).Object?
    ensures WholeLengths(ranges[..k] + [w.target(x).range], w.alignment)
  {
    hide Multiple, Alignment;
  }

  lemma FoundIsWhole(m: Marking, order: seq<nat>, w: Setting)
    requires Proper(w) && |m.stack| <= w.capacity && WholeLengths(m.stack, w.alignment)
    ensures WholeLengths(ConsiderAll(m, order, w).stack, w.alignment)
    decreases |order|
  {
    hide Multiple, Alignment;
    if order != [] { FoundIsWhole(m, order[..|order| - 1], w); }
  }

  lemma SplitLengths(len: nat, a: nat)
    requires Alignment(a) && Multiple(len, a) && len > SHARE_BYTES
    ensures var half := len / 2 / WORD * WORD;
      Multiple(half, WORD) && Multiple(half + WORD, a) && Multiple(len - half, a) && half + WORD <= len && 0 < half
  {
    var half := len / 2 / WORD * WORD;
    Eights(0, len / 2);
    WordMultiple(half, a);
    MultipleSum(half, len, a);
  }

  lemma ChunkLengths(len: nat, a: nat)
    requires Alignment(a) && Multiple(len, a) && len >= SPLIT_BYTES
    ensures a <= WORD && Multiple(CHUNK + WORD - a, a) && Multiple(len - CHUNK, a) && Multiple(CHUNK, a)
  {
    hide Multiple, Alignment;
    Multiples(a);
    MultipleStep(CHUNK + WORD, a);
    MultipleSum(CHUNK, len, a);
  }

  lemma BothGrow(c: multiset<nat>, s: multiset<nat>, rest: multiset<nat>, r: multiset<nat>, f: multiset<nat>,
                 t: multiset<nat>, x: multiset<nat>)
    requires c + s + rest == r + f + t
    ensures c + (s + x) + rest == (r + x) + f + t && c + (s + x) + rest == r + (f + x) + t
    ensures c + s + (rest + x) == r + f + (t + x)
  {
    var all := c + s + rest;
    assert c + (s + x) + rest == all + x && c + s + (rest + x) == all + x;
    assert (r + x) + f + t == (r + f + t) + x && r + (f + x) + t == (r + f + t) + x && r + f + (t + x) == (r + f + t) + x;
  }

  /** What a considered word refers to is marked. */
  ghost predicate SeenAreMarked(considered: seq<nat>, marked: set<Range>, w: Setting) {
    forall x :: x in considered && w.plausible(x) && w.target(x).Object? ==> w.target(x).range in marked
  }

  /** The objects found are those marked, each of them once. */
  ghost predicate EachOnce(found: seq<Range>, marked: set<Range>) {
    && (forall o :: o in found ==> o in marked && o.len > 0)
    && (forall o :: o in marked && o.len > 0 ==> o in found)
    && (forall i, j :: 0 <= i < j < |found| ==> found[i] != found[j])
  }

  lemma EachOnceGrows(m: Marking, n: Marking, found: seq<Range>, f: seq<Range>)
    requires EachOnce(found, m.marked) && Grew(m, n, f)
    ensures EachOnce(found + f, n.marked)
  {
    forall o | o in n.marked && o.len > 0 ensures o in found + f {
      if o in m.marked { assert o in found; } else { assert o in f; }
    }
  }

  lemma SeenGrows(m: Marking, n: Marking, considered: seq<nat>, order: seq<nat>, w: Setting)
    requires SeenAreMarked(considered, m.marked, w) && SeenAreMarked(order, n.marked, w) && m.marked <= n.marked
    ensures SeenAreMarked(considered + order, n.marked, w)
  {}

  lemma OrderGrows(m: Marking, order: seq<nat>, w: Setting)
    requires 0 < w.discards <= w.capacity && |m.stack| <= w.capacity
    ensures SeenAreMarked(order, ConsiderAll(m, order, w).marked, w)
  {
    hide ConsiderAll, Found;
    ConsiderAllGrows(m, order, w);
  }

  /** Scanning settles what was owed for the range. */
  lemma Settles(considered: seq<nat>, order: seq<nat>, stack: seq<Range>, found: seq<Range>, f: seq<Range>,
                r: multiset<nat>, t: multiset<nat>, a: nat)
    requires Alignment(a)
    requires multiset(considered) + Places(stack, a) + multiset(order) == r + Places(found, a) + t
    ensures multiset(considered + order) + Places(stack + f, a) + multiset{} == r + Places(found + f, a) + t
  {
    hide Alignment, Places;
    PlacesAppend(stack, f, a);
    PlacesAppend(found, f, a);
    BothGrow(multiset(considered), Places(stack, a), multiset(order), r, Places(found, a), t, Places(f, a));
    assert multiset(considered + order) == multiset(considered) + multiset(order);
    Reorder(multiset(considered), multiset(order), Places(stack + f, a));
  }

  /** Splitting a range: one part goes on the stack and the other stays at hand. */
  lemma SplitKeeps(c: multiset<nat>, s: multiset<nat>, whole: multiset<nat>, r: multiset<nat>, f: multiset<nat>,
                   t: multiset<nat>, pushed: multiset<nat>, kept: multiset<nat>, x: multiset<nat>)
    requires c + s + whole == r + f + t && pushed + kept == whole + x
    ensures c + (s + pushed) + kept == r + f + (t + x)
  {
    assert c + (s + pushed) + kept == c + s + (pushed + kept);
    BothGrow(c, s, whole, r, f, t, x);
  }

  lemma ChunkCut(p: nat, len: nat, a: nat)
    requires Alignment(a) && Multiple(CHUNK, a) && CHUNK + WORD <= len
    ensures a <= WORD
    ensures Count(Range(p + CHUNK, len - CHUNK), a) + multiset(Positions(p, CHUNK + WORD - a, a))
         == Count(Range(p, len), a) + multiset{}
  {
    hide Multiple, Alignment, Positions;
    PositionsCut(p, len, CHUNK, a);
  }

  lemma Reorder(c: multiset<nat>, o: multiset<nat>, s: multiset<nat>)
    ensures c + s + o == (c + o) + s + multiset{}
  {}

  lemma HighStops(p: nat, limit: nat, a: nat, plausible: nat -> bool)
    requires Alignment(a) && p <= limit
    ensures plausible(limit) ==> High(p, limit, a, plausible) == HighEnd([limit], limit - a, true)
    ensures !plausible(limit) && p > limit - a ==> High(p, limit, a, plausible) == HighEnd([limit], limit - a, false)
  {}

  lemma HighGoesOn(p: nat, limit: nat, a: nat, plausible: nat -> bool)
    requires Alignment(a) && p <= limit
    ensures !plausible(limit) && p <= limit - a ==>
      var h := High(p, limit - a, a, plausible);
      High(p, limit, a, plausible) == HighEnd([limit] + h.seen, h.limit, h.deferred)
  {}

  /** The place at the front, and those after it. */
  lemma NextPosition(p: nat, limit: int, a: nat)
    requires Alignment(a) && p <= limit
    ensures Positions(p, limit - p + WORD, a)
         == [p] + Positions(p + a, if limit < p + a then 0 else limit - (p + a) + WORD, a)
  {
    if limit < p + a { ShortRange(p + a, limit - p + WORD - a, a); }
  }

  lemma Regroup(low: seq<nat>, x: nat, rest: seq<nat>)
    ensures low + ([x] + rest) == (low + [x]) + rest
  {}

  class RangeMarker {
    const w: Setting
    const slots: array<Range>
    var top: nat
    var marked: set<Range>
    var overflowed: bool
    /** The places considered, in order; the ranges pushed by callers; the objects found; the places that two halves
        of a split range share. */
    ghost var considered: seq<nat>
    ghost var roots: seq<Range>
    ghost var found: seq<Range>
    ghost var twice: multiset<nat>

    ghost predicate Shape()
      reads this, slots
    {
      && Proper(w) && slots.Length == w.capacity && top <= slots.Length && WholeLengths(slots[..top], w.alignment)
    }

    ghost function View(): Marking
      reads this, slots
      requires Shape()
    {
      Marking(slots[..top], marked, overflowed)
    }

    /** Without overflow nothing is lost: what was considered, what is on the stack and what is at hand make up the
        ranges pushed and the objects found. */
    ghost predicate Owing(n: nat, rest: multiset<nat>)
      reads this, slots
      requires Alignment(w.alignment) && n <= slots.Length
    {
      !overflowed ==>
        multiset(considered) + Places(slots[..n], w.alignment) + rest
        == Places(roots, w.alignment) + Places(found, w.alignment) + twice
    }

    ghost predicate Valid()
      reads this, slots
    {
      Shape() && Owing(top, multiset{}) && SeenAreMarked(considered, marked, w) && EachOnce(found, marked) && (!w.parallel ==> twice == multiset{})
    }

    constructor (setting: Setting)
      requires Proper(setting)
      ensures Valid() && w == setting && fresh(slots)
      ensures View() == Marking([], {}, false) && considered == [] && roots == [] && found == []
    {
      w := setting;
      slots := new Range[setting.capacity](_ => Range(0, 0));
      top, marked, overflowed := 0, {}, false;
      considered, roots, found, twice := [], [], [], multiset{};
    }

    /** GC_push_all; false where the original aborts because the stack is full. */
    method PushAll(bottom: nat, end: nat) returns (ok: bool)
      requires Valid()
      modifies this`top, this`roots, slots
      ensures Valid() && considered == old(considered) && found == old(found) && twice == old(twice)
      ensures ok <==> AlignedRange(bottom, end, w.alignment).Nothing? || old(top) < slots.Length
      ensures var t := AlignedRange(bottom, end, w.alignment);
        if ok && t.Object?
        then View() == old(View()).(stack := old(View().stack) + [t.range]) && roots == old(roots) + [t.range]
        else View() == old(View()) && roots == old(roots)
    {
      hide AlignedRange, Multiple, Alignment, Places, Count, SeenAreMarked, EachOnce;
      var t := AlignedRange(bottom, end, w.alignment);
      ok := true;
      if t.Nothing? { return; }
      if top >= slots.Length { return false; }
      AlignedRangeIsWhole(bottom, end, w.alignment);
      ghost var a, s := w.alignment, slots[..top];
      slots[top] := t.range;
      top := top + 1;
      assert slots[..top] == s + [t.range];
      PlacesPush(s, t.range, a);
      PlacesPush(roots, t.range, a);
      if !overflowed {
        BothGrow(multiset(considered), Places(s, a), multiset{}, Places(roots, a), Places(found, a), twice, Count(t.range, a));
      }
      roots := roots + [t.range];
    }

    /** PUSH_CONTENTS. */
    method PushContents(x: nat)
      requires Shape()
      modifies this`top, this`marked, this`overflowed, this`considered, this`found, slots
      ensures Shape() && View() == Consider(old(View()), x, w)
      ensures considered == old(considered) + [x] && found == old(found) + FoundAt(old(View()), x, w)
    {
      hide Multiple, Alignment, WholeLengths;
      considered := considered + [x];
      if !w.plausible(x) { return; }
      var t := w.target(x);
      if t.Nothing? || t.range in marked { return; }
      marked := marked + {t.range};
      if t.range.len == 0 { return; }
      found := found + [t.range];
      var at := top;
      if at >= slots.Length {
        overflowed := true;
        at := at - w.discards;
      }
      PushIsWhole(slots[..top], at, x, w);
      slots[at] := t.range;
      top := at + 1;
      assert slots[..top] == old(slots[..top][..at]) + [t.range];
    }

    /** The words at the high end, down to the first that may be a pointer, which is put off. */
    method ScanHigh(p: nat, n: nat) returns (limit: int, maybe: bool, deferred: nat)
      requires Shape() && n >= WORD
      modifies this`considered
      ensures View() == old(View())
      ensures var h := High(p, p + n - WORD, w.alignment, w.plausible);
        && maybe == h.deferred && limit == h.limit && deferred == h.seen[|h.seen| - 1]
        && (forall k :: 0 <= k < |h.seen| - 1 ==> !w.plausible(h.seen[k])) && (!maybe ==> !w.plausible(deferred))
        && considered == old(considered) + if maybe then h.seen[..|h.seen| - 1] else h.seen
    {
      hide Multiple, Alignment, WholeLengths, High;
      ghost var a, top := w.alignment, p + n - WORD;
      AlignmentBounds(a);
      limit, maybe, deferred := p + n - WORD, false, p + n - WORD;
      ghost var seen: seq<nat> := [];
      while true
        invariant p <= limit && considered == old(considered) + seen
        invariant forall k :: 0 <= k < |seen| ==> !w.plausible(seen[k])
        invariant var h := High(p, limit, a, w.plausible);
          High(p, top, a, w.plausible) == HighEnd(seen + h.seen, h.limit, h.deferred)
        decreases limit
      {
        HighStops(p, limit, a, w.plausible);
        HighGoesOn(p, limit, a, w.plausible);
        deferred := limit;
        limit := limit - w.alignment;
        if w.plausible(deferred) { maybe := true; return; }
        considered := considered + [deferred];
        seen := seen + [deferred];
        if p > limit { return; }
      }
    }

    /** The words from p up to limit. */
    method ScanLow(p: nat, limit: int)
      requires Shape()
      modifies this`top, this`marked, this`overflowed, this`considered, this`found, slots
      ensures var low := Positions(p, if limit < p then 0 else limit - p + WORD, w.alignment);
        && Shape() && View() == ConsiderAll(old(View()), low, w) && considered == old(considered) + low
        && found == old(found) + Found(old(View()), low, w)
    {
      hide Multiple, Alignment, WholeLengths, Consider, FoundAt, Positions, ConsiderAll, Found;
      ghost var m, a := View(), w.alignment;
      AlignmentBounds(a);
      NothingToSee(m, [], w);
      ghost var all := Positions(p, if limit < p then 0 else limit - p + WORD, a);
      ghost var low: seq<nat> := [];
      var current := p;
      while current <= limit
        invariant Shape() && View() == ConsiderAll(m, low, w) && considered == old(considered) + low
        invariant found == old(found) + Found(m, low, w)
        invariant all == low + Positions(current, if limit < current then 0 else limit - current + WORD, a)
      {
        NextPosition(current, limit, a);
        AfterOne(m, low, current, w);
        PushContents(current);
        Regroup(low, current, Positions(current + a, if limit < current + a then 0 else limit - (current + a) + WORD, a));
        low := low + [current];
        current := current + w.alignment;
      }
      NoPositions(current, a);
      assert low + [] == low;
    }

    /** Considers the words of [p, p + n): from the last one down to the first that may be a pointer, which is put off
        to the end, and then from the first one up. */
    method ScanRange(p: nat, n: nat)
      requires Shape() && n >= WORD
      modifies this`top, this`marked, this`overflowed, this`considered, this`found, slots
      ensures Shape() && View() == ConsiderAll(old(View()), ChunkScan(p, n, w.alignment, w.plausible), w)
      ensures considered == old(considered) + ChunkScan(p, n, w.alignment, w.plausible)
      ensures found == old(found) + Found(old(View()), ChunkScan(p, n, w.alignment, w.plausible), w)
    {
      hide Multiple, Alignment, WholeLengths, Consider, FoundAt, ConsiderAll, Found, High, Positions;
      ghost var m, h := View(), High(p, p + n - WORD, w.alignment, w.plausible);
      var limit, maybe, deferred := ScanHigh(p, n);
      if !maybe {
        NothingToSee(m, h.seen, w);
        return;
      }
      ghost var seen := h.seen[..|h.seen| - 1];
      ghost var low := Positions(p, if limit < p then 0 else limit - p + WORD, w.alignment);
      ScanLow(p, limit);
      AfterNothing(m, seen, low, w);
      AfterOne(m, seen + low, deferred, w);
      PushContents(deferred);
    }

    /** Takes care of a range that is no longer on the stack. */
    method ScanOwed(p: nat, n: nat)
      requires Shape() && n >= WORD && Multiple(n, w.alignment) && Owing(top, multiset(Positions(p, n, w.alignment)))
      requires SeenAreMarked(considered, marked, w) && EachOnce(found, marked) && (!w.parallel ==> twice == multiset{})
      modifies this`top, this`marked, this`overflowed, this`considered, this`found, slots
      ensures Valid() && old(considered) <= considered && old(marked) <= marked && (old(overflowed) ==> overflowed)
      ensures WORD * (|considered| - |old(considered)|) >= n
    {
      hide Multiple, Alignment, WholeLengths, ChunkScan, Positions, Places, ConsiderAll, Found, SeenAreMarked, EachOnce, Grew;
      ghost var m, a := View(), w.alignment;
      ghost var c, g, order := considered, found, ChunkScan(p, n, a, w.plausible);
      ghost var f := Found(m, order, w);
      ChunkIsComplete(p, n, a, w.plausible);
      PositionsCount(p, n, a);
      SameSize(order, Positions(p, n, a));
      ConsiderAllGrows(m, order, w);
      OrderGrows(m, order, w);
      ScanRange(p, n);
      MarkedStay(m, View(), f);
      EachOnceGrows(m, View(), g, f);
      SeenGrows(m, View(), c, order, w);
      if !overflowed {
        Settles(c, order, m.stack, g, f, Places(roots, a), twice, a);
      }
    }

    /** The top entry of the stack has been read into a range at hand, and its slot is free. */
    ghost predicate Pending(p: nat, len: nat)
      reads this, slots
    {
      && Proper(w) && slots.Length == w.capacity && 1 <= top <= slots.Length
      && WholeLengths(slots[..top - 1], w.alignment) && Multiple(len, w.alignment)
      && Owing(top - 1, Count(Range(p, len), w.alignment))
      && SeenAreMarked(considered, marked, w) && EachOnce(found, marked) && (!w.parallel ==> twice == multiset{})
    }

    /** One step of halving, for the helpers: the lower half goes on the stack, with the word at the cut. */
    method Halve(p: nat, len: nat) returns (q: nat, rest: nat)
      requires Pending(p, len) && w.parallel && len > SHARE_BYTES && top < slots.Length
      modifies this`top, this`twice, slots
      ensures Pending(q, rest) && SPLIT_BYTES <= rest < len && q + rest == p + len
      ensures top == old(top) + 1 && slots[top - 2] == Range(p, q - p + WORD)
      ensures slots[..top - 2] == old(slots[..top - 1]) && twice == old(twice) + multiset{q}
    {
      hide Multiple, Alignment, Places, Count, EachOnce, SeenAreMarked;
      ghost var a, s := w.alignment, slots[..top - 1];
      SplitLengths(len, w.alignment);
      var half := len / 2 / WORD * WORD;
      HalvesShareOne(p, len, half, a);
      PlacesPush(s, Range(p, half + WORD), a);
      slots[top - 1] := Range(p, half + WORD);
      top := top + 1;
      q, rest := p + half, len - half;
      assert slots[..top - 1] == s + [Range(p, half + WORD)];
      if !overflowed {
        SplitKeeps(multiset(considered), Places(s, a), Count(Range(p, len), a), Places(roots, a), Places(found, a), twice,
                   Count(Range(p, half + WORD), a), Count(Range(q, rest), a), multiset{q});
      }
      twice := twice + multiset{q};
    }

    /** Halves a long range while marking is parallel and there is room. */
    method ShareOut(p0: nat, len0: nat) returns (p: nat, len: nat)
      requires Pending(p0, len0) && len0 >= SPLIT_BYTES
      modifies this`top, this`twice, slots
      ensures Pending(p, len) && len >= SPLIT_BYTES && p + len == p0 + len0
      ensures w.parallel ==> len <= SHARE_BYTES || top == slots.Length
    {
      hide Multiple, Alignment, Places, Count, EachOnce, SeenAreMarked, WholeLengths;
      p, len := p0, len0;
      while w.parallel && len > SHARE_BYTES && top < slots.Length
        invariant Pending(p, len) && len >= SPLIT_BYTES && p + len == p0 + len0
        decreases len
      {
        p, len := Halve(p, len);
      }
    }

    /** The first chunk of a long range is cut off, and the rest put back. */
    method CutChunk(p: nat, len: nat) returns (n: nat)
      requires Pending(p, len) && len >= SPLIT_BYTES
      modifies slots
      ensures Shape() && n >= WORD && Multiple(n, w.alignment) && n == CHUNK + WORD - w.alignment
      ensures Owing(top, multiset(Positions(p, n, w.alignment)))
      ensures slots[..top] == old(slots[..top - 1]) + [Range(p + CHUNK, len - CHUNK)]
    {
      hide Multiple, Alignment, Places, Positions, EachOnce, SeenAreMarked;
      ghost var a, s := w.alignment, slots[..top - 1];
      ChunkLengths(len, a);
      ChunkCut(p, len, a);
      PlacesPush(s, Range(p + CHUNK, len - CHUNK), a);
      slots[top - 1] := Range(p + CHUNK, len - CHUNK);
      n := CHUNK + WORD - w.alignment;
      assert slots[..top] == s + [Range(p + CHUNK, len - CHUNK)];
      if !overflowed {
        SplitKeeps(multiset(considered), Places(s, a), Count(Range(p, len), a), Places(roots, a), Places(found, a), twice,
                   Count(Range(p + CHUNK, len - CHUNK), a), multiset(Positions(p, n, a)), multiset{});
      }
    }

    /** Deals with the top entry, or with its first chunk. */
    method MarkTop() returns (spent: nat)
      requires Valid() && top > 0
      modifies this`top, this`marked, this`overflowed, this`considered, this`found, this`twice, slots
      ensures Valid() && old(considered) <= considered && old(marked) <= marked && (old(overflowed) ==> overflowed)
      ensures spent == 0 ==> top == old(top) - 1
      ensures WORD * (|considered| - |old(considered)|) >= spent
    {
      hide Multiple, Alignment, Places, Positions, WholeLengths, SeenAreMarked, EachOnce, Proper, Owing;
      var p, len := slots[top - 1].start, slots[top - 1].len;
      TakeTop();
      if len >= SPLIT_BYTES {
        p, len := ShareOut(p, len);
        spent := CutChunk(p, len);
        ScanOwed(p, spent);
      } else {
        top := top - 1;
        AtHand(p, len);
        spent := if len < WORD then 0 else len;
        if len >= WORD { ScanOwed(p, len); }
      }
    }

    /** Works until the stack is empty or more than a block has been looked at. */
    method MarkFrom()
      requires Valid()
      modifies this`top, this`marked, this`overflowed, this`considered, this`found, this`twice, slots
      ensures Valid() && old(considered) <= considered && old(marked) <= marked && (old(overflowed) ==> overflowed)
      ensures top == 0 || WORD * (|considered| - |old(considered)|) > CREDIT
    {
      hide *;
      var credit := CREDIT;
      while top > 0 && credit >= 0
        invariant Valid() && old(considered) <= considered && old(marked) <= marked && (old(overflowed) ==> overflowed)
        invariant WORD * (|considered| - |old(considered)|) >= CREDIT - credit
        decreases credit, top
      {
        var spent := MarkTop();
        credit := credit - spent;
      }
    }

    lemma AtHand(p: nat, len: nat)
      requires Proper(w) && top <= slots.Length && Owing(top, Count(Range(p, len), w.alignment))
      ensures Owing(top, multiset(Positions(p, len, w.alignment)))
      ensures len < WORD ==> Owing(top, multiset{})
    {}

    lemma TakeTop()
      requires Valid() && top > 0
      ensures Pending(slots[top - 1].start, slots[top - 1].len)
      ensures WholeLengths(slots[..top - 1], w.alignment) && Proper(w) && slots.Length == w.capacity
      ensures SeenAreMarked(considered, marked, w) && EachOnce(found, marked) && (!w.parallel ==> twice == multiset{})
      ensures Multiple(slots[top - 1].len, w.alignment) && Owing(top - 1, Count(slots[top - 1], w.alignment))
    {
      var s, r := slots[..top - 1], slots[top - 1];
      assert slots[..top] == s + [r];
      PlacesPush(s, r, w.alignment);
      if !overflowed {
        Aside(multiset(considered), Places(s, w.alignment), Count(r, w.alignment));
      }
    }

    /** When the stack is empty and has not overflowed, every place of every range pushed and of every object found
        has been considered (just once, but for those that halves share), so marking is closed. */
    lemma AllConsidered()
      requires Valid() && top == 0 && !overflowed
      ensures multiset(considered) == Places(roots, w.alignment) + Places(found, w.alignment) + twice
      ensures !w.parallel ==> multiset(considered) == Places(roots, w.alignment) + Places(found, w.alignment)
      ensures forall r, x | (r in roots || r in found) && x in Positions(r.start, r.len, w.alignment) ::
                w.plausible(x) && w.target(x).Object? ==> w.target(x).range in marked
    {
      hide Multiple, Alignment, Positions, EachOnce;
      forall r, x | (r in roots || r in found) && x in Positions(r.start, r.len, w.alignment) && w.plausible(x) && w.target(x).Object?
        ensures w.target(x).range in marked
      {
        if r in roots { PlacesHave(roots, r, x, w.alignment); } else { PlacesHave(found, r, x, w.alignment); }
        assert x in multiset(considered);
      }
    }
  }

  lemma SameSize(s: seq<nat>, t: seq<nat>)
    requires multiset(s) == multiset(t)
    ensures |s| == |t|
  {
    assert |s| == |multiset(s)| && |t| == |multiset(t)|;
  }

  lemma Aside(c: multiset<nat>, s: multiset<nat>, r: multiset<nat>)
    ensures c + (s + r) + multiset{} == c + s + r
  {}

  lemma {:induction false} PlacesHave(ranges: seq<Range>, r: Range, x: nat, a: nat)
    requires Alignment(a) && r in ranges && x in Positions(r.start, r.len, a)
    ensures x in Places(ranges, a)
  {
    hide Alignment, Positions;
    if r != ranges[|ranges| - 1] { PlacesHave(ranges[..|ranges| - 1], r, x, a); }
  }
}
