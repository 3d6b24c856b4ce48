/** How GC_mark_from goes through ranges that are described by their length: long ranges are cut into chunks, or
    into halves when marking is parallel, and within a chunk the words at the end are looked at first, so that one
    of them can be fetched early and dealt with last.  Addresses and lengths are in bytes. */
module RangeScanModel {
  const WORD: nat := 8
  const CHUNK: nat := 1016          // (SPLIT_RANGE_WORDS - 1) words
  const SHARE_BYTES: nat := 2048

  datatype Range = Range(start: nat, len: nat)

  /** ALIGNMENT divides the word size. */
  predicate Alignment(a: nat) { a == 1 || a == 2 || a == 4 || a == 8 }

  /** n is a multiple of a, spelled out for the alignments there are. */
  predicate Multiple(n: int, a: nat)
    requires Alignment(a)
  {
    a == 1 || (a == 2 && n % 2 == 0) || (a == 4 && n % 4 == 0) || (a == 8 && n % 8 == 0)
  }

  function RoundDown(n: nat, a: nat): nat
    requires Alignment(a)
  {
    if a == 1 then n else if a == 2 then n / 2 * 2 else if a == 4 then n / 4 * 4 else n / 8 * 8
  }

  lemma Twos(m: int, n: int)
    requires m % 2 == 0
    ensures ((m + n) % 2 == 0 <==> n % 2 == 0) && ((n - m) % 2 == 0 <==> n % 2 == 0)
    ensures n % 2 == 0 && n > -2 ==> n >= 0
    ensures m / 2 * 2 == m && n / 2 * 2 <= n < n / 2 * 2 + 2 && n / 2 * 2 % 2 == 0
  {}

  lemma Fours(m: int, n: int)
    requires m % 4 == 0
    ensures ((m + n) % 4 == 0 <==> n % 4 == 0) && ((n - m) % 4 == 0 <==> n % 4 == 0)
    ensures n % 4 == 0 && n > -4 ==> n >= 0
    ensures m % 2 == 0 && n / 4 * 4 <= n < n / 4 * 4 + 4 && n / 4 * 4 % 4 == 0
  {}

  lemma Eights(m: int, n: int)
    requires m % 8 == 0
    ensures ((m + n) % 8 == 0 <==> n % 8 == 0) && ((n - m) % 8 == 0 <==> n % 8 == 0)
    ensures n % 8 == 0 && n > -8 ==> n >= 0
    ensures m % 4 == 0 && n / 8 * 8 <= n < n / 8 * 8 + 8 && n / 8 * 8 % 8 == 0
  {}

  /** Adding or taking away a multiple changes nothing. */
  lemma MultipleSum(m: int, n: int, a: nat)
    requires Alignment(a) && Multiple(m, a)
    ensures (Multiple(m + n, a) <==> Multiple(n, a)) && (Multiple(n - m, a) <==> Multiple(n, a))
    ensures Multiple(n, a) && n + a > 0 ==> n >= 0
  {
    if a == 2 { Twos(m, n); } else if a == 4 { Fours(m, n); } else if a == 8 { Eights(m, n); }
  }

  lemma Rounding(n: nat, a: nat)
    requires Alignment(a)
    ensures RoundDown(n, a) <= n < RoundDown(n, a) + a && Multiple(RoundDown(n, a), a)
  {
    if a == 2 { Twos(0, n); } else if a == 4 { Fours(0, n); } else if a == 8 { Eights(0, n); }
  }

  lemma Multiples(a: nat)
    requires Alignment(a)
    ensures a <= WORD && Multiple(0, a) && Multiple(a, a) && Multiple(WORD, a) && Multiple(CHUNK, a)
  {}

  lemma MultipleStep(n: int, a: nat)
    requires Alignment(a)
    ensures Multiple(n, a) <==> Multiple(n - a, a)
    ensures Multiple(n, a) <==> Multiple(n - WORD, a)
    ensures Multiple(n, a) ==> Multiple(n + WORD, a)
    ensures Multiple(n, a) && 0 <= n < a ==> n == 0
    ensures Multiple(CHUNK, a) && Multiple(0, a)
  {
    hide Multiple, Alignment;
    Multiples(a);
    MultipleSum(a, n, a);
    MultipleSum(WORD, n, a);
    MultipleSum(a, n - a, a);
  }

  /** The ALIGNMENT-spaced places in a range where a whole word fits. */
  function Positions(p: nat, len: nat, a: nat): seq<nat>
    requires Alignment(a)
    decreases len
  {
    if len < WORD then [] else [p] + Positions(p + a, len - a, a)
  }

  function Count(r: Range, a: nat): multiset<nat>
    requires Alignment(a)
  {
    multiset(Positions(r.start, r.len, a))
  }

  // ---------------------------------------------------------------------------- a chunk

  /** The words at the end of a chunk, from the last one down, up to the first that might be a pointer. */
  datatype HighEnd = HighEnd(seen: seq<nat>, limit: int, deferred: bool)

  function High(p: nat, limit: nat, a: nat, plausible: nat -> bool): (h: HighEnd)
    requires Alignment(a) && p <= limit
    ensures h.seen != []
    decreases limit
  {
    var next := limit - a;
    if plausible(limit) then HighEnd([limit], next, true)
    else if p > next then HighEnd([limit], next, false)
    else
      var h := High(p, next, a, plausible);
      HighEnd([limit] + h.seen, h.limit, h.deferred)
  }

  /** The words of a chunk in the order in which they are considered: all but the last of the high end, the rest
      from the low end up, and then the one that was put off. */
  function Ordered(p: nat, h: HighEnd, a: nat): seq<nat>
    requires Alignment(a) && h.seen != []
  {
    if !h.deferred then h.seen
    else h.seen[..|h.seen| - 1] + Positions(p, if h.limit < p then 0 else h.limit - p + WORD, a) + [h.seen[|h.seen| - 1]]
  }

  function ChunkScan(p: nat, len: nat, a: nat, plausible: nat -> bool): seq<nat>
    requires Alignment(a) && len >= WORD
  {
    Ordered(p, High(p, p + len - WORD, a, plausible), a)
  }

  lemma {:induction false} PositionsEnd(p: nat, len: nat, a: nat)
    requires Alignment(a) && len >= WORD && Multiple(len, a)
    ensures Positions(p, len, a) == Positions(p, len - a, a) + [p + len - WORD]
    decreases len
  {
    hide Multiple;
    MultipleStep(len, a);
    MultipleStep(len - WORD, a);
    if len < WORD + a {
      assert len == WORD;
    } else {
      PositionsEnd(p + a, len - a, a);
      assert Positions(p, len - a, a) == [p] + Positions(p + a, len - a - a, a);
    }
  }

  /** The places from p up to limit. */
  function Below(p: nat, limit: int, a: nat): multiset<nat>
    requires Alignment(a)
  {
    if limit < p then multiset{} else multiset(Positions(p, limit - p + WORD, a))
  }

  lemma AlignmentBounds(a: nat)
    requires Alignment(a)
    ensures 1 <= a <= WORD
  {}

  lemma ShortRange(p: nat, len: nat, a: nat)
    requires Alignment(a)
    ensures len < WORD ==> Positions(p, len, a) == []
  {}

  lemma LastPosition(p: nat, limit: nat, a: nat)
    requires Alignment(a) && p <= limit && Multiple(limit - p, a)
    ensures a <= WORD && multiset(Positions(p, limit - p + WORD, a)) == multiset(Positions(p, limit - p + WORD - a, a)) + multiset{limit}
  {
    hide Multiple, Positions, Alignment;
    MultipleStep(limit - p, a);
    AlignmentBounds(a);
    PositionsEnd(p, limit - p + WORD, a);
  }

  lemma BelowStep(p: nat, limit: nat, a: nat)
    requires Alignment(a) && p <= limit && Multiple(limit - p, a)
    ensures Below(p, limit, a) == Below(p, limit - a, a) + multiset{limit}
  {
    hide Multiple, Positions, Alignment;
    LastPosition(p, limit, a);
    var n := limit - p + WORD - a;
    ShortRange(p, n, a);
    assert limit - a >= p ==> (limit - a) - p + WORD == n;
  }

  ghost predicate HighOk(p: nat, limit: nat, a: nat, plausible: nat -> bool, h: HighEnd)
    requires Alignment(a)
  {
    && h.seen != [] && (!h.deferred ==> h.limit < p)
    && multiset(h.seen) + Below(p, h.limit, a) == Below(p, limit, a)
    && (forall k :: 0 <= k < |h.seen| - 1 ==> !plausible(h.seen[k])) && (h.deferred <==> plausible(h.seen[|h.seen| - 1]))
  }

  lemma MoreSeen(limit: nat, seen: seq<nat>)
    ensures multiset([limit] + seen) == multiset{limit} + multiset(seen)
  {}

  lemma Shift(seen: multiset<nat>, below: multiset<nat>, all: multiset<nat>, x: nat)
    requires seen + below == all
    ensures (multiset{x} + seen) + below == all + multiset{x}
  {}

  lemma HighMore(p: nat, limit: nat, a: nat, plausible: nat -> bool, h: HighEnd)
    requires Alignment(a) && p <= limit - a && Multiple(limit - p, a) && !plausible(limit)
    requires HighOk(p, limit - a, a, plausible, h)
    ensures HighOk(p, limit, a, plausible, HighEnd([limit] + h.seen, h.limit, h.deferred))
  {
    hide Below, Multiple, Alignment;
    BelowStep(p, limit, a);
    MoreSeen(limit, h.seen);
    Shift(multiset(h.seen), Below(p, h.limit, a), Below(p, limit - a, a), limit);
  }

  lemma {:induction false} HighSplits(p: nat, limit: nat, a: nat, plausible: nat -> bool)
    requires Alignment(a) && p <= limit && Multiple(limit - p, a)
    ensures HighOk(p, limit, a, plausible, High(p, limit, a, plausible))
    decreases limit
  {
    hide Below, Multiple, Alignment;
    AlignmentBounds(a);
    MultipleStep(limit - p, a);
    var next := limit - a;
    if plausible(limit) || p > next {
      BelowStep(p, limit, a);
      MoreSeen(limit, []);
      if p > next { BelowNothing(p, next, a); }
    } else {
      HighSplits(p, next, a, plausible);
      HighMore(p, limit, a, plausible, High(p, next, a, plausible));
    }
  }

  lemma BelowNothing(p: nat, limit: int, a: nat)
    requires Alignment(a) && limit < p
    ensures Below(p, limit, a) == multiset{}
  {}

  lemma Deferring(seen: seq<nat>, low: seq<nat>)
    requires seen != []
    ensures multiset(seen[..|seen| - 1] + low + [seen[|seen| - 1]]) == multiset(seen) + multiset(low)
  {
    assert seen == seen[..|seen| - 1] + [seen[|seen| - 1]];
  }

  lemma BelowIs(p: nat, limit: int, a: nat)
    requires Alignment(a)
    ensures Below(p, limit, a) == multiset(Positions(p, if limit < p then 0 else limit - p + WORD, a))
  {
    NoPositions(p, a);
  }

  lemma OrderedIs(p: nat, h: HighEnd, a: nat, all: multiset<nat>)
    requires Alignment(a) && h.seen != [] && (!h.deferred ==> h.limit < p)
    requires multiset(h.seen) + Below(p, h.limit, a) == all
    ensures multiset(Ordered(p, h, a)) == all
  {
    hide Alignment, Positions, Below;
    BelowIs(p, h.limit, a);
    if h.deferred {
      Deferring(h.seen, Positions(p, if h.limit < p then 0 else h.limit - p + WORD, a));
    } else {
      BelowNothing(p, h.limit, a);
    }
  }

  /** If its length is a multiple of ALIGNMENT, a chunk is considered completely, each place once. */
  lemma ChunkIsComplete(p: nat, len: nat, a: nat, plausible: nat -> bool)
    requires Alignment(a) && len >= WORD && Multiple(len, a)
    ensures multiset(ChunkScan(p, len, a, plausible)) == multiset(Positions(p, len, a))
  {
    hide Alignment, Positions, High, Multiple, Ordered, Below;
    MultipleStep(len, a);
    var limit := p + len - WORD;
    HighSplits(p, limit, a, plausible);
    OrderedIs(p, High(p, limit, a, plausible), a, Below(p, limit, a));
    BelowIs(p, limit, a);
  }

  lemma NoPositions(p: nat, a: nat)
    requires Alignment(a)
    ensures Positions(p, 0, a) == []
  {}

  // ---------------------------------------------------------------------------- what the places are

  /** The places are exactly those at a multiple of ALIGNMENT from the start where a word fits, each once. */
  lemma {:induction false} PositionsAre(p: nat, len: nat, a: nat, x: nat)
    requires Alignment(a)
    ensures multiset(Positions(p, len, a))[x] == if p <= x && x + WORD <= p + len && Multiple(x - p, a) then 1 else 0
    decreases len
  {
    hide *;
    AlignmentBounds(a);
    if len < WORD {
      ShortRange(p, len, a);
    } else {
      PositionsAre(p + a, len - a, a, x);
      ShiftedMultiple(p, a, x);
      CountStep(p, len, a, x);
    }
  }

  lemma CountStep(p: nat, len: nat, a: nat, x: nat)
    requires Alignment(a) && len >= WORD
    ensures a <= WORD
    ensures multiset(Positions(p, len, a))[x] == (if x == p then 1 else 0) + multiset(Positions(p + a, len - a, a))[x]
  {
    MoreSeen(p, Positions(p + a, len - a, a));
  }

  lemma ShiftedMultiple(p: nat, a: nat, x: nat)
    requires Alignment(a)
    ensures Multiple(x - p, a) <==> Multiple(x - (p + a), a)
    ensures p < x < p + a ==> !Multiple(x - p, a)
    ensures Multiple(p - p, a)
  {
    hide Multiple, Alignment;
    MultipleStep(x - p, a);
  }

  /** A range that is too short to hold a word has no places; any longer one has a topmost place. */
  function Topmost(p: nat, len: nat, a: nat): nat
    requires Alignment(a) && len >= WORD
  {
    p + RoundDown(len - WORD, a)
  }

  lemma TopmostIs(p: nat, len: nat, a: nat)
    requires Alignment(a) && len >= WORD && !Multiple(len, a)
    ensures p <= Topmost(p, len, a) && Topmost(p, len, a) + WORD <= p + len < Topmost(p, len, a) + WORD + a
    ensures Multiple(Topmost(p, len, a) - p, a)
  {
    hide Multiple, Alignment, RoundDown;
    Rounding(len - WORD, a);
  }

  lemma {:induction false} HighIsOff(p: nat, limit: nat, a: nat, plausible: nat -> bool)
    requires Alignment(a) && p <= limit && !Multiple(limit - p, a)
    ensures High(p, limit, a, plausible).limit <= limit - a
    ensures forall x :: x in High(p, limit, a, plausible).seen ==> !Multiple(x - p, a)
    decreases limit
  {
    hide Multiple, Alignment;
    AlignmentBounds(a);
    MultipleStep(limit - p, a);
    if !plausible(limit) && p <= limit - a {
      HighIsOff(p, limit - a, a, plausible);
    }
  }

  lemma OrderedFrom(p: nat, h: HighEnd, a: nat, x: nat)
    requires Alignment(a) && h.seen != [] && x in Ordered(p, h, a)
    ensures x in h.seen || (x in Positions(p, if h.limit < p then 0 else h.limit - p + WORD, a) && h.limit >= p)
  {
    hide Positions;
    NoPositions(p, a);
  }

  /** If its length is not a multiple of ALIGNMENT, the topmost place of a chunk is never considered. */
  lemma TopmostIsMissed(p: nat, len: nat, a: nat, plausible: nat -> bool)
    requires Alignment(a) && len >= WORD && !Multiple(len, a)
    ensures Topmost(p, len, a) in Positions(p, len, a) && Topmost(p, len, a) !in ChunkScan(p, len, a, plausible)
  {
    hide Multiple, Alignment, Positions, High, Ordered, Topmost;
    TopmostIs(p, len, a);
    var x, limit := Topmost(p, len, a), p + len - WORD;
    PositionsAre(p, len, a, x);
    MultipleStep(len, a);
    HighIsOff(p, limit, a, plausible);
    var h := High(p, limit, a, plausible);
    if x in Ordered(p, h, a) {
      OrderedFrom(p, h, a, x);
      if h.limit >= p { PositionsAre(p, h.limit - p + WORD, a, x); }
    }
  }

  /** A chunk is considered completely exactly if its length is a multiple of ALIGNMENT. */
  lemma ChunkIsCompleteIff(p: nat, len: nat, a: nat, plausible: nat -> bool)
    requires Alignment(a) && len >= WORD
    ensures multiset(ChunkScan(p, len, a, plausible)) == multiset(Positions(p, len, a)) <==> Multiple(len, a)
  {
    hide Multiple, Alignment, Positions, ChunkScan, Topmost;
    if Multiple(len, a) {
      ChunkIsComplete(p, len, a, plausible);
    } else {
      TopmostIsMissed(p, len, a, plausible);
      var x := Topmost(p, len, a);
      assert multiset(Positions(p, len, a))[x] > 0 && multiset(ChunkScan(p, len, a, plausible))[x] == 0;
    }
  }

  /** A range has at least one place for each of its words. */
  lemma {:induction false} PositionsCount(p: nat, len: nat, a: nat)
    requires Alignment(a) && len >= WORD && Multiple(len, a)
    ensures WORD * |Positions(p, len, a)| >= len
    decreases len
  {
    hide Multiple;
    MultipleStep(len, a);
    MultipleStep(len - WORD, a);
    if len >= WORD + a { PositionsCount(p + a, len - a, a); }
  }

  // ---------------------------------------------------------------------------- cutting a range

  /** Cutting a range off after m bytes: the lower part is made a word, less ALIGNMENT, longer, so that words across
      the cut are still seen. */
  lemma {:induction false} PositionsCut(p: nat, len: nat, m: nat, a: nat)
    requires Alignment(a) && Multiple(m, a) && m + WORD <= len
    ensures a <= WORD && Positions(p, len, a) == Positions(p, m + WORD - a, a) + Positions(p + m, len - m, a)
    decreases m
  {
    hide *;
    Multiples(a);
    MultipleStep(m, a);
    if m < a {
      PositionsStep(p, WORD, a);
      AtTheEnd(p, len, a);
    } else {
      PositionsCut(p + a, len - a, m - a, a);
      PositionsStep(p, len, a);
      PositionsStep(p, m + WORD - a, a);
      Associate(p, Positions(p + a, m + WORD - a - a, a), Positions(p + m, len - m, a));
    }
  }

  lemma PositionsStep(p: nat, len: nat, a: nat)
    requires Alignment(a) && len >= WORD
    ensures a <= WORD && Positions(p, len, a) == [p] + Positions(p + a, len - a, a)
  {}

  lemma AtTheEnd(p: nat, len: nat, a: nat)
    requires Alignment(a)
    ensures a <= WORD && Positions(p, len, a) == Positions(p, WORD - a, a) + Positions(p, len, a)
  {}

  lemma Associate(p: nat, s: seq<nat>, t: seq<nat>)
    ensures [p] + (s + t) == ([p] + s) + t
  {}
}
