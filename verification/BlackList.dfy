/** The black lists of gc/blacklst.c: which pages are dangerous to allocate, because something that looks like
    a pointer into them was seen. */
module BlackListModel {
  const WORDSZ: nat := 64
  const PHT_ENTRIES: nat := 262144

  /** Hash tables with one bit for each page; `interior` is GC_all_interior_pointers.  The stack tables hold
      what was seen on stacks, where a pointer to any page of an object keeps it alive; the normal ones the rest. */
  datatype Black = Black(oldNormal: seq<bool>, newNormal: seq<bool>, oldStack: seq<bool>, newStack: seq<bool>,
                         interior: bool)

  predicate Wf(b: Black) { |b.oldNormal| == |b.newNormal| == |b.oldStack| == |b.newStack| == PHT_ENTRIES }

  /** PHT_HASH of a page number */
  function Hash(p: nat): (r: nat)
    ensures r < PHT_ENTRIES
  {
    p % PHT_ENTRIES
  }

  predicate NormalListed(b: Black, p: nat)
    requires Wf(b)
  {
    b.oldNormal[Hash(p)] || b.newNormal[Hash(p)]
  }

  predicate StackListed(b: Black, p: nat)
    requires Wf(b)
  {
    b.oldStack[Hash(p)] || b.newStack[Hash(p)]
  }

  /** May an object of n pages start at page h? */
  ghost predicate Usable(b: Black, h: nat, n: nat)
    requires Wf(b)
  {
    && (b.interior || !NormalListed(b, h))
    && forall x :: h <= x < h + n ==> !StackListed(b, x)
  }

  /** The first stack-listed page in [x, end), or end. */
  function FirstStack(b: Black, x: nat, end: nat): (r: nat)
    requires Wf(b) && x <= end
    ensures x <= r <= end && (r < end ==> StackListed(b, r))
    ensures forall y :: x <= y < r ==> !StackListed(b, y)
    decreases end - x
  {
    if x == end || StackListed(b, x) then x else FirstStack(b, x + 1, end)
  }

  /** GC_is_black_listed: 0, or where to go on searching. */
  function IsBlackListed(b: Black, h: nat, n: nat): nat
    requires Wf(b) && n > 0
  {
    if !b.interior && NormalListed(b, h) then h + 1
    else
      var f := FirstStack(b, h, h + n);
      if f < h + n then f + 1 else 0
  }

  /** The black-list search is exact: it returns 0 just for usable starts; otherwise all starts from h up to
      the returned page are unusable. */
  lemma SearchIsExact(b: Black, h: nat, n: nat)
    requires Wf(b) && n > 0
    ensures IsBlackListed(b, h, n) == 0 <==> Usable(b, h, n)
    ensures IsBlackListed(b, h, n) != 0 ==> h < IsBlackListed(b, h, n) <= h + n
    ensures forall x :: h <= x < IsBlackListed(b, h, n) ==> !Usable(b, x, n)
  {
    var r := IsBlackListed(b, h, n);
    if r != 0 && !(!b.interior && NormalListed(b, h)) {
      assert StackListed(b, r - 1);
    }
  }

  lemma FirstTest(b: Black, h: nat, n: nat)
    requires Wf(b) && n > 0
    ensures !b.interior && NormalListed(b, h) ==> IsBlackListed(b, h, n) == h + 1
  {}

  lemma FirstListed(b: Black, h: nat, n: nat, i: nat)
    requires Wf(b) && i < n && (b.interior || !NormalListed(b, h)) && StackListed(b, h + i)
    requires forall x :: h <= x < h + i ==> !StackListed(b, x)
    ensures IsBlackListed(b, h, n) == h + i + 1
  {}

  lemma NoneListed(b: Black, h: nat, n: nat)
    requires Wf(b) && n > 0 && (b.interior || !NormalListed(b, h)) && forall x :: h <= x < h + n ==> !StackListed(b, x)
    ensures IsBlackListed(b, h, n) == 0
  {}

  /** The search loop of GC_allochblk_nth, from s up to the last page where the object still fits. */
  function FindStart(b: Black, s: nat, last: int, n: nat): (r: nat)
    requires Wf(b) && n > 0
    ensures s <= r
    decreases last - s
  {
    if s > last then s
    else
      var t := IsBlackListed(b, s, n);
      if t == 0 then s
      else
        assert s < t by { SearchIsExact(b, s, n); }
        FindStart(b, t, last, n)
  }

  /** The loop finds the lowest usable start in the block, or runs past the end when there is none. */
  lemma {:induction false} LowestStart(b: Black, s: nat, last: int, n: nat)
    requires Wf(b) && n > 0
    ensures var r := FindStart(b, s, last, n);
      && (forall x :: s <= x < r ==> !Usable(b, x, n))
      && (r <= last ==> Usable(b, r, n))
      && (r > last && r != s ==> r <= last + n)
    decreases last - s
  {
    if s <= last {
      SearchIsExact(b, s, n);
      var t := IsBlackListed(b, s, n);
      if t != 0 { LowestStart(b, t, last, n); }
    }
  }

  /** Consecutive pages that start in the same word of a table stay in it up to the word's end. */
  lemma SameWord(p: nat, k: nat)
    requires Hash(p) % WORDSZ + k < WORDSZ
    ensures Hash(p + k) == Hash(p) + k && Hash(p + k) / WORDSZ == Hash(p) / WORDSZ
  {
    var i := Hash(p);
    assert i + k < PHT_ENTRIES;
    assert p + k == (p / PHT_ENTRIES) * PHT_ENTRIES + (i + k);
  }
}

module BlackLists {
  import opened BlackListModel

  /** A word of a hash table, bit by bit. */
  type Word = w: seq<bool> | |w| == WORDSZ witness seq(WORDSZ, i => false)

  const ZERO: Word := seq(WORDSZ, i => false)

  predicate IsZero(w: Word) { forall k :: 0 <= k < WORDSZ ==> !w[k] }

  class BlackList {
    var oldNormal: array<Word>
    var newNormal: array<Word>
    var oldStack: array<Word>
    var newStack: array<Word>
    const interior: bool

    ghost const Repr: set<object>

    ghost predicate Valid()
      reads this, Repr
    {
      && oldNormal in Repr && newNormal in Repr && oldStack in Repr && newStack in Repr && this !in Repr
      && oldNormal.Length == newNormal.Length == oldStack.Length == newStack.Length == PHT_ENTRIES / WORDSZ
      && oldNormal != newNormal && oldNormal != oldStack && oldNormal != newStack
      && newNormal != oldStack && newNormal != newStack && oldStack != newStack
    }

    /** GC_bl_init.  (Without the normal lists if interior pointers are recognized; here they are then never used.) */
    constructor (interior: bool)
      ensures Valid() && fresh(Repr) && this.interior == interior
      ensures var none := seq(PHT_ENTRIES, i => false); View() == Black(none, none, none, none, interior)
    {
      this.interior := interior;
      oldNormal := new Word[PHT_ENTRIES / WORDSZ](_ => ZERO);
      newNormal := new Word[PHT_ENTRIES / WORDSZ](_ => ZERO);
      oldStack := new Word[PHT_ENTRIES / WORDSZ](_ => ZERO);
      newStack := new Word[PHT_ENTRIES / WORDSZ](_ => ZERO);
      Repr := {oldNormal, newNormal, oldStack, newStack};
    }

    ghost function Bits(t: array<Word>): (r: seq<bool>)
      requires t.Length == PHT_ENTRIES / WORDSZ
      reads t
      ensures |r| == PHT_ENTRIES
    {
      seq(PHT_ENTRIES, i requires 0 <= i < PHT_ENTRIES reads t => t[i / WORDSZ][i % WORDSZ])
    }

    ghost function View(): (b: Black)
      requires Valid()
      reads this, Repr
      ensures Wf(b)
    {
      Black(Bits(oldNormal), Bits(newNormal), Bits(oldStack), Bits(newStack), interior)
    }

    method Get(t: array<Word>, i: nat) returns (r: bool)
      requires t.Length == PHT_ENTRIES / WORDSZ && i < PHT_ENTRIES
      ensures r == Bits(t)[i]
    {
      r := t[i / WORDSZ][i % WORDSZ];
    }

    method SetBit(t: array<Word>, i: nat)
      requires t.Length == PHT_ENTRIES / WORDSZ && i < PHT_ENTRIES
      modifies t
      ensures Bits(t) == old(Bits(t))[i := true]
    {
      t[i / WORDSZ] := t[i / WORDSZ][i % WORDSZ := true];
      forall j | 0 <= j < PHT_ENTRIES ensures Bits(t)[j] == old(Bits(t))[i := true][j] {
        if j / WORDSZ == i / WORDSZ && j % WORDSZ == i % WORDSZ { assert j == i; }
      }
    }

    method Clear(t: array<Word>)
      requires t.Length == PHT_ENTRIES / WORDSZ
      modifies t
      ensures Bits(t) == seq(PHT_ENTRIES, i => false)
    {
      for i := 0 to t.Length
        invariant forall j :: 0 <= j < i ==> t[j] == ZERO
      {
        t[i] := ZERO;
      }
    }

    /** GC_is_black_listed, which passes over whole words that are zero. */
    method IsBlackListed(h: nat, n: nat) returns (r: nat)
      requires Valid() && n > 0
      ensures r == BlackListModel.IsBlackListed(View(), h, n)
    {
      hide BlackListModel.IsBlackListed, FirstStack;
      ghost var b := View();
      FirstTest(b, h, n);
      var index := Hash(h);
      if !interior {
        var before := Get(oldNormal, index);
        var since := Get(newNormal, index);
        if before || since { return h + 1; }
      }
      var i := 0;
      while true
        invariant index == Hash(h + i) && i < n
        invariant forall x :: h <= x < h + i ==> !StackListed(b, x)
        invariant b == View()
        decreases n - i
      {
        if IsZero(oldStack[index / WORDSZ]) && IsZero(newStack[index / WORDSZ]) {
          var skip := WORDSZ - index % WORDSZ;
          forall x | h + i <= x < h + i + skip ensures !StackListed(b, x) {
            SameWord(h + i, x - (h + i));
          }
          i := i + skip;
        } else {
          var before := Get(oldStack, index);
          var since := Get(newStack, index);
          if before || since {
            FirstListed(b, h, n, i);
            return h + i + 1;
          }
          i := i + 1;
        }
        if i >= n {
          NoneListed(b, h, n);
          break;
        }
        index := Hash(h + i);
      }
      r := 0;
    }

    /** GC_add_to_black_list_stack; `nil` tells that the page has no header, so the reference is a false one. */
    method AddStack(p: nat, nil: bool)
      requires Valid()
      modifies Repr
      ensures Valid()
      ensures View() == old(View()).(newStack := if nil || old(View()).oldStack[Hash(p)]
                                                 then old(View()).newStack[Hash(p) := true] else old(View()).newStack)
    {
      var seen := Get(oldStack, Hash(p));
      if nil || seen { SetBit(newStack, Hash(p)); }
    }

    /** GC_add_to_black_list_normal */
    method AddNormal(p: nat, nil: bool, validOffset: bool)
      requires Valid()
      modifies Repr
      ensures Valid()
      ensures View() == old(View()).(newNormal := if validOffset && (nil || old(View()).oldNormal[Hash(p)])
                                                  then old(View()).newNormal[Hash(p) := true] else old(View()).newNormal)
    {
      if validOffset {
        var seen := Get(oldNormal, Hash(p));
        if nil || seen { SetBit(newNormal, Hash(p)); }
      }
    }

    /** GC_promote_black_lists swaps the tables: what was seen since the last collection becomes the old list. */
    method Promote()
      requires Valid()
      modifies this, Repr
      ensures Valid()
      ensures View() == Black(old(View()).newNormal, if interior then old(View()).oldNormal else seq(PHT_ENTRIES, i => false),
                              old(View()).newStack, seq(PHT_ENTRIES, i => false), interior)
    {
      var veryOldNormal, veryOldStack := oldNormal, oldStack;
      oldNormal, oldStack := newNormal, newStack;
      if !interior { Clear(veryOldNormal); }
      Clear(veryOldStack);
      newNormal, newStack := veryOldNormal, veryOldStack;
    }
  }
}
