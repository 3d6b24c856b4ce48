/** The size map: from a requested number of bytes to the number of granules of the object that is allocated
    (gc/misc.c and gc/malloc.c).  Entries are filled in on demand; 0 means unfilled. */
module SizeMapModel {
  import opened Arithmetic

  /** A configuration: granules of 16 or of 8 bytes (gc_priv.h allows no others), HBLK_GRANULES, TINY_FREELISTS, and whether
      interior pointers are recognised, which makes EXTRA_BYTES one. */
  datatype Config = Config(wide: bool, hblk: nat, tiny: nat, interior: bool)

  /** A block holds a multiple of four granules, there are at least ten tiny sizes, and the map has room for them.  The
      defaults, 25 sizes of 16 bytes or 33 sizes of 8 bytes with blocks of 4096 bytes or more, are supported. */
  predicate Supported(c: Config) { c.hblk % 4 == 0 && 10 <= c.tiny && c.tiny - 1 <= MaxGranules(c) }

  /** GRANULES_TO_BYTES and BYTES_TO_GRANULES */
  function ToBytes(c: Config, n: nat): nat { if c.wide then n * 16 else n * 8 }
  function ToGranules(c: Config, n: nat): nat { if c.wide then n / 16 else n / 8 }

  /** EXTRA_BYTES */
  function Extra(c: Config): nat { if c.interior then 1 else 0 }

  /** MAXOBJBYTES and MAXOBJGRANULES */
  function MaxBytes(c: Config): nat { ToBytes(c, c.hblk) / 2 }
  function MaxGranules(c: Config): nat { ToGranules(c, MaxBytes(c)) }

  /** ROUNDED_UP_GRANULES */
  function Granules(c: Config, bytes: nat): nat { ToGranules(c, bytes + ToBytes(c, 1) - 1 + Extra(c)) }

  function Even(n: nat): nat { n - n % 2 }

  /** The largest size requested up to which GC_init_size_map fills the map. */
  function Tiny(c: Config): nat
    requires Supported(c)
  {
    ToBytes(c, c.tiny - 1) - Extra(c)
  }

  // --------------------------------------------------------------------------- invariant

  predicate Enough(m: seq<nat>, k: nat, c: Config)
    requires k < |m|
  {
    ToBytes(c, m[k]) >= k + Extra(c)
  }

  /** From a filled entry on, everything up to the largest size that its objects can hold is filled. */
  predicate FilledOn(m: seq<nat>, k: nat, c: Config)
    requires k < |m|
  {
    forall j :: k <= j < |m| && j + Extra(c) <= ToBytes(c, m[k]) ==> m[j] != 0
  }

  predicate Good(m: seq<nat>, c: Config) {
    && Supported(c) && |m| == MaxBytes(c) + 1
    && (forall k :: 0 <= k <= Tiny(c) ==> m[k] != 0)
    && (forall k :: 0 <= k < |m| && m[k] != 0 ==> Enough(m, k, c) && m[k] <= MaxGranules(c) && FilledOn(m, k, c))
    && (forall j, k :: 0 <= j < k < |m| && m[j] != 0 && m[k] != 0 ==> m[j] <= m[k])
  }

  // ------------------------------------------------------------------- GC_extend_size_map

  /** The first unfilled entry from k on. */
  function FirstFree(m: seq<nat>, k: nat): (r: nat)
    requires k <= |m|
    ensures k <= r <= |m| && (r < |m| ==> m[r] == 0) && forall j :: k <= j < r ==> m[j] != 0
    decreases |m| - k
  {
    if k == |m| || m[k] == 0 then k else FirstFree(m, k + 1)
  }

  /** The size asked for in bytes, rounded up, and a little less than that. */
  function Rounded(c: Config, i: nat): nat { ToBytes(c, Granules(c, i)) }

  function Smaller(bytes: nat): nat { bytes - bytes / 8 }

  /** Where filling starts: well below the size asked for, or close to it if that is filled already. */
  function LowLimit(m: seq<nat>, bytes: nat): nat
    requires bytes < |m|
  {
    FirstFree(m, if m[Smaller(bytes)] == 0 then bytes - bytes / 4 else Smaller(bytes) + 1)
  }

  /** The number of granules aimed at. */
  function Aim(m: seq<nat>, c: Config, orig: nat): nat
    requires ToBytes(c, orig) < |m|
  {
    if m[Smaller(ToBytes(c, orig))] == 0 then orig
    else
      var g := Granules(c, LowLimit(m, ToBytes(c, orig)));
      if g + g / 8 < orig then orig else g + g / 8
  }

  /** An even number of granules, not more than `most`, as large as fits a block of `hblk` without losing an object. */
  function Fit(hblk: nat, most: nat, aim: nat): (r: nat)
    requires hblk == 2 * most && 2 <= most && most % 2 == 0 && aim > 0
    ensures 0 < r
  {
    var g := if Even(aim + 1) > most then most else Even(aim + 1);
    DivTwice(hblk, g);
    Even(hblk / (hblk / g))
  }

  function Fill(m: seq<nat>, lo: nat, hi: nat, g: nat): (r: seq<nat>)
    ensures |r| == |m|
  {
    seq(|m|, k requires 0 <= k < |m| => if lo <= k <= hi then g else m[k])
  }

  /** GC_extend_size_map */
  function Extend(m: seq<nat>, c: Config, i: nat): seq<nat>
    requires Supported(c) && |m| == MaxBytes(c) + 1 && 0 < i && i + Extra(c) <= MaxBytes(c)
  {
    hide LowLimit, Aim, MaxGranules, MaxBytes, Fit, Granules, Rounded;
    MaxIs(c);
    RoundedUp(c, i);
    AimBounds(m, c, Granules(c, i));
    var g := Fit(c.hblk, MaxGranules(c), Aim(m, c, Granules(c, i)));
    Fill(m, LowLimit(m, Rounded(c, i)), ToBytes(c, g) - Extra(c), g)
  }

  /** GC_init_size_map */
  function Init(c: Config): (r: seq<nat>)
    requires Supported(c)
    ensures |r| == MaxBytes(c) + 1
  {
    seq(MaxBytes(c) + 1, k requires 0 <= k =>
      if k == 0 then 1 else if k <= Tiny(c) then Granules(c, k) else 0)
  }

  lemma InitGood(c: Config)
    requires Supported(c)
    ensures Good(Init(c), c)
  {
    var m := Init(c);
    forall k | 0 <= k < |m| && m[k] != 0 ensures Enough(m, k, c) && m[k] <= MaxGranules(c) && FilledOn(m, k, c) {
      assert k <= Tiny(c) && m[k] <= c.tiny - 1;
      assert ToBytes(c, m[k]) <= Tiny(c) + Extra(c);
    }
  }

  // --------------------------------------------------------------------------- the bounds

  lemma MaxIs(c: Config)
    requires Supported(c)
    ensures MaxGranules(c) == c.hblk / 2 && MaxBytes(c) == ToBytes(c, MaxGranules(c)) && 9 <= MaxGranules(c) && MaxGranules(c) % 2 == 0
  {}

  /** Rounding up to a whole number of granules, of either size. */
  lemma RoundUp8(n: nat)
    ensures n <= (n + 7) / 8 * 8 < n + 8 && (0 < n ==> 0 < (n + 7) / 8)
  {}

  lemma RoundUp16(n: nat)
    ensures n <= (n + 15) / 16 * 16 < n + 16 && (0 < n ==> 0 < (n + 15) / 16)
  {}

  lemma RoundedUp(c: Config, i: nat)
    ensures i + Extra(c) <= Rounded(c, i) < i + Extra(c) + ToBytes(c, 1)
    ensures Rounded(c, i) == ToBytes(c, Granules(c, i)) && (0 < i ==> 0 < Granules(c, i))
    ensures Supported(c) && i + Extra(c) <= MaxBytes(c) ==> Rounded(c, i) <= MaxBytes(c)
  {
    hide MaxGranules, MaxBytes, Supported;
    if c.wide { RoundUp16(i + Extra(c)); } else { RoundUp8(i + Extra(c)); }
    if Supported(c) { MaxIs(c); }
  }

  /** Filling starts at or below the entry asked for, if that is not one of those filled in to begin with. */
  lemma StartsBelow(c: Config, i: nat)
    requires Supported(c) && Tiny(c) < i
    ensures var bytes := Rounded(c, i); bytes - bytes / 4 <= i && Smaller(bytes) < i
  {
    hide MaxGranules;
    RoundedUp(c, i);
  }

  /** What is aimed at fits; nothing smaller is used, unless the limit on small objects is reached. */
  lemma FitBounds(hblk: nat, most: nat, aim: nat)
    requires hblk == 2 * most && 2 <= most && most % 2 == 0 && aim > 0
    ensures 2 <= Fit(hblk, most, aim) <= most && (aim <= Fit(hblk, most, aim) || Fit(hblk, most, aim) == most)
    ensures var g, r := if Even(aim + 1) > most then most else Even(aim + 1), Fit(hblk, most, aim);
      g <= r && r % 2 == 0 && hblk / r == hblk / g && hblk / (r + 2) < hblk / g
  {
    var g := if Even(aim + 1) > most then most else Even(aim + 1);
    DivTwice(hblk, g);
    SameQuotient(hblk, hblk / g, g, Even(hblk / (hblk / g)));
  }

  lemma QuotientIs(a: nat, r: nat, n: nat)
    requires 0 < r && n * r <= a < (n + 1) * r
    ensures a / r == n
  {
    Divided(a, r);
    TimesMonotone(n + 1, a / r, r);
    TimesMonotone(a / r + 1, n, r);
  }

  lemma QuotientBelow(a: nat, r: nat, n: nat)
    requires 0 < r && a < n * r
    ensures a / r < n
  {
    Divided(a, r);
    if n <= a / r { TimesMonotone(n, a / r, r); }
  }

  /** As many objects fit with the size enlarged, and fewer with two granules more. */
  lemma SameQuotient(a: nat, n: nat, g: nat, r: nat)
    requires 0 < g <= r && n == a / g && 0 < n && r <= a / n < r + 2
    ensures a / r == n && a / (r + 2) < n
  {
    assert n * r <= a < (n + 1) * r && a < n * (r + 2) by { Products(a, n, g, r, a / n); }
    QuotientIs(a, r, n);
    QuotientBelow(a, r + 2, n);
  }

  lemma Products(a: nat, n: nat, g: nat, r: nat, q: nat)
    requires 0 < g <= r && n == a / g && 0 < n && q == a / n && r <= q < r + 2
    ensures n * r <= a < (n + 1) * r && a < n * (r + 2)
  {
    Divided(a, g);
    Divided(a, n);
    LowProduct(a, n, r, q);
    HighProduct(a, n + 1, g, r);
    HighProduct(a, n, q + 1, r + 2);
  }

  lemma LowProduct(a: nat, n: nat, r: nat, q: nat)
    requires q * n <= a && r <= q
    ensures n * r <= a
  {
    TimesMonotone(r, q, n);
  }

  lemma HighProduct(a: nat, n: nat, g: nat, r: nat)
    requires a < g * n && g <= r
    ensures a < n * r
  {
    TimesMonotone(g, r, n);
  }

  lemma Divided(a: nat, n: nat)
    requires n > 0
    ensures (a / n) * n <= a < (a / n + 1) * n
  {
    assert a == (a / n) * n + a % n;
    assert (a / n + 1) * n == (a / n) * n + n;
  }

  lemma AimBounds(m: seq<nat>, c: Config, orig: nat)
    requires ToBytes(c, orig) < |m|
    ensures orig <= Aim(m, c, orig)
    ensures Granules(c, LowLimit(m, ToBytes(c, orig))) <= orig ==> Aim(m, c, orig) <= orig + orig / 8
  {
    hide LowLimit, Granules;
  }

  lemma GranulesMonotone(c: Config, i: nat, j: nat)
    requires i <= j
    ensures Granules(c, i) <= Granules(c, j)
  {}

  lemma DivAntitone(a: nat, g: nat, h: nat)
    requires 0 < g <= h
    ensures a / h <= a / g
  {
    Divided(a, g);
    TimesMonotone(g, h, a / g + 1);
    QuotientBelow(a, h, a / g + 1);
  }

  lemma GoodSize(m: seq<nat>, c: Config)
    requires Good(m, c)
    ensures Supported(c) && |m| == MaxBytes(c) + 1
  {}

  lemma NotTiny(m: seq<nat>, c: Config, i: nat)
    requires Good(m, c) && i < |m| && m[i] == 0
    ensures Tiny(c) < i
  {}

  /** All searches and writes stay within the map, and the entry asked for is among those filled in. */
  lemma InBounds(m: seq<nat>, c: Config, i: nat)
    requires Good(m, c) && i + Extra(c) <= MaxBytes(c) && m[i] == 0
    ensures 0 < i && ToBytes(c, Granules(c, i)) == Rounded(c, i) < |m| && Aim(m, c, Granules(c, i)) > 0
    ensures LowLimit(m, Rounded(c, i)) <= i && m[LowLimit(m, Rounded(c, i))] == 0
    ensures Aim(m, c, Granules(c, i)) <= Granules(c, i) + Granules(c, i) / 8
    ensures c.hblk == 2 * MaxGranules(c) && 2 <= MaxGranules(c) && MaxGranules(c) % 2 == 0
    ensures var g := Fit(c.hblk, MaxGranules(c), Aim(m, c, Granules(c, i)));
      2 <= g <= MaxGranules(c) && i + Extra(c) <= ToBytes(c, g) < |m| + Extra(c) && Granules(c, i) <= g
  {
    hide Good, Aim, Fit, Granules, Rounded, MaxGranules, MaxBytes;
    GoodSize(m, c);
    NotTiny(m, c, i);
    StartsBelow(c, i);
    RoundedUp(c, i);
    AimBounds(m, c, Granules(c, i));
    GranulesMonotone(c, LowLimit(m, Rounded(c, i)), i);
    MaxIs(c);
    FitBounds(c.hblk, MaxGranules(c), Aim(m, c, Granules(c, i)));
  }

  /** GC_extend_size_map on an unfilled small size: the entry asked for gets filled, and the map stays good: every
      filled entry is large enough for its size plus EXTRA_BYTES, and filled entries do not decrease with size. */
  lemma ExtendKeeps(m: seq<nat>, c: Config, i: nat)
    requires Good(m, c) && i + Extra(c) <= MaxBytes(c) && m[i] == 0
    ensures 0 < i && Good(Extend(m, c, i), c)
    ensures Extend(m, c, i)[i] != 0 && ToBytes(c, Extend(m, c, i)[i]) >= i + Extra(c)
    ensures forall k :: 0 <= k < |m| && m[k] != 0 ==> Extend(m, c, i)[k] != 0
  {
    hide LowLimit, Fit, Aim, MaxGranules, MaxBytes, Granules, Rounded, Supported;
    GoodSize(m, c);
    InBounds(m, c, i);
    var lo, g := LowLimit(m, Rounded(c, i)), Fit(c.hblk, MaxGranules(c), Aim(m, c, Granules(c, i)));
    var hi := ToBytes(c, g) - Extra(c);
    var t := Extend(m, c, i);
    forall k | 0 <= k < |t| && t[k] != 0 ensures Enough(t, k, c) && t[k] <= MaxGranules(c) && FilledOn(t, k, c) {
      if lo <= k <= hi {} else { assert FilledOn(m, k, c); }
    }
    forall j, k | 0 <= j < k < |t| && t[j] != 0 && t[k] != 0 ensures t[j] <= t[k] { Monotone(m, t, c, lo, hi, g, j, k); }
  }

  /** Which entries GC_extend_size_map fills: none below three quarters of the size asked for, all from there to that size
      if nothing was filled close to it, otherwise all close to it, and none too large for the new objects. */
  lemma ExtendFills(m: seq<nat>, c: Config, i: nat)
    requires Good(m, c) && i + Extra(c) <= MaxBytes(c) && m[i] == 0
    ensures 0 < i && Rounded(c, i) < |m|
    ensures var t, bytes := Extend(m, c, i), Rounded(c, i);
      && (forall k :: 0 <= k < bytes - bytes / 4 ==> t[k] == m[k])
      && (forall k :: bytes - bytes / 8 < k <= i ==> t[k] != 0)
      && (m[bytes - bytes / 8] == 0 ==> forall k :: bytes - bytes / 4 <= k <= i ==> t[k] != 0)
      && (forall k :: 0 <= k < |m| && k + Extra(c) > ToBytes(c, t[i]) ==> t[k] == m[k])
  {
    hide Good, Fit, Aim, MaxGranules, MaxBytes, Granules, Rounded, Supported;
    GoodSize(m, c);
    InBounds(m, c, i);
  }

  /** How much larger than asked for the objects get: as many fit a block as with an eighth and one granule more than
      needed, unless they have the largest size. */
  lemma ExtendWastes(m: seq<nat>, c: Config, i: nat)
    requires Good(m, c) && i + Extra(c) <= MaxBytes(c) && m[i] == 0
    ensures 0 < i
    ensures var n, g := Granules(c, i), Extend(m, c, i)[i];
      && n <= g <= MaxGranules(c) && g % 2 == 0 && 0 < g
      && (c.hblk / (n + n / 8 + 1) <= c.hblk / g || g == MaxGranules(c))
  {
    hide Good, LowLimit, Fit, Aim, MaxGranules, MaxBytes, Granules, Rounded, Supported;
    GoodSize(m, c);
    InBounds(m, c, i);
    FitWastes(c.hblk, MaxGranules(c), Granules(c, i), Aim(m, c, Granules(c, i)));
  }

  lemma FitWastes(hblk: nat, most: nat, n: nat, aim: nat)
    requires hblk == 2 * most && 2 <= most && most % 2 == 0 && 0 < aim <= n + n / 8
    ensures Fit(hblk, most, aim) % 2 == 0
    ensures hblk / (n + n / 8 + 1) <= hblk / Fit(hblk, most, aim) || Fit(hblk, most, aim) == most
  {
    hide Fit;
    FitBounds(hblk, most, aim);
    if Even(aim + 1) <= most { DivAntitone(hblk, Even(aim + 1), n + n / 8 + 1); }
  }

  lemma Monotone(m: seq<nat>, t: seq<nat>, c: Config, lo: nat, hi: nat, g: nat, j: nat, k: nat)
    requires Good(m, c) && lo <= hi < |m| && m[lo] == 0 && hi == ToBytes(c, g) - Extra(c) && t == Fill(m, lo, hi, g)
    requires j < k < |t| && t[j] != 0 && t[k] != 0
    ensures t[j] <= t[k]
  {
    if j < lo <= k <= hi { assert FilledOn(m, j, c); }
    if lo <= j <= hi < k { assert Enough(m, k, c); }
    if j < lo && hi < k { assert m[j] <= m[k]; }
  }

  // -------------------------------------------------------------------------------- runs

  /** Any sequence of extensions, each for a small size that is unfilled at the time. */
  ghost predicate IsRun(run: seq<seq<nat>>, asked: seq<nat>, c: Config) {
    && Supported(c) && |run| == |asked| + 1 && run[0] == Init(c)
    && forall n :: 0 <= n < |asked| ==> Step(run[n], run[n + 1], asked[n], c)
  }

  ghost predicate Step(m: seq<nat>, t: seq<nat>, i: nat, c: Config) {
    Supported(c) && |m| == MaxBytes(c) + 1 && 0 < i && i + Extra(c) <= MaxBytes(c) && m[i] == 0 && t == Extend(m, c, i)
  }

  lemma {:induction false} SizeMapIsGood(run: seq<seq<nat>>, asked: seq<nat>, c: Config, n: nat)
    requires IsRun(run, asked, c) && n < |run|
    ensures Good(run[n], c)
    ensures forall k :: 0 <= k < n ==> asked[k] < |run[n]| && run[n][asked[k]] != 0
  {
    hide Good, Extend;
    if n == 0 { InitGood(c); }
    else {
      SizeMapIsGood(run, asked, c, n - 1);
      assert Step(run[n - 1], run[n - 1 + 1], asked[n - 1], c);
      ExtendKeeps(run[n - 1], c, asked[n - 1]);
      GoodSize(run[n - 1], c);
      GoodSize(run[n], c);
    }
  }
}

module SizeMapObject {
  import opened Arithmetic
  import opened SizeMapModel

  class SizeMap {
    const config: Config
    const sizes: array<nat>

    ghost predicate Valid()
      reads this, sizes
    {
      Good(sizes[..], config)
    }

    /** GC_init_size_map */
    constructor (c: Config)
      requires Supported(c)
      ensures Valid() && fresh(sizes) && config == c && sizes[..] == Init(c)
    {
      config := c;
      sizes := new nat[MaxBytes(c) + 1](_ => 0);
      new;
      sizes[0] := 1;
      for i := 1 to ToBytes(config, config.tiny - 1) - Extra(config) + 1
        invariant forall k :: 0 <= k < sizes.Length ==> sizes[k] == if k == 0 then 1 else if k < i then Granules(config, k) else 0
      {
        sizes[i] := ToGranules(config, i + ToBytes(config, 1) - 1 + Extra(config));
      }
      InitGood(config);
      assert sizes[..] == Init(config);
    }

    /** Looking for the first unfilled entry. */
    method Search(start: nat) returns (low: nat)
      requires sizes.Length == MaxBytes(config) + 1 && start < sizes.Length && FirstFree(sizes[..], start) < sizes.Length
      ensures low == FirstFree(sizes[..], start)
    {
      low := start;
      while sizes[low] != 0
        invariant low < sizes.Length && FirstFree(sizes[..], low) == FirstFree(sizes[..], start)
        decreases sizes.Length - low
      {
        low := low + 1;
      }
    }

    /** The first part of GC_extend_size_map: where to start filling, and the number of granules to aim at. */
    method AimAt(i: nat) returns (low: nat, granules: nat)
      requires Valid() && i + Extra(config) <= MaxBytes(config) && sizes[i] == 0
      ensures Supported(config) && sizes.Length == MaxBytes(config) + 1
      ensures ToBytes(config, Granules(config, i)) == Rounded(config, i) < sizes.Length
      ensures low == LowLimit(sizes[..], Rounded(config, i)) && granules == Aim(sizes[..], config, Granules(config, i))
    {
      hide Good, FirstFree, MaxGranules, MaxBytes, ToBytes, ToGranules, Extra, Supported, Fit;
      GoodSize(sizes[..], config);
      InBounds(sizes[..], config, i);
      var orig := ToGranules(config, i + ToBytes(config, 1) - 1 + Extra(config));
      var byteSz := ToBytes(config, orig);
      var smaller := byteSz - byteSz / 8;
      if sizes[smaller] == 0 {
        low := Search(byteSz - byteSz / 4);
        granules := orig;
      } else {
        low := Search(smaller + 1);
        granules := ToGranules(config, low + ToBytes(config, 1) - 1 + Extra(config));
        granules := granules + granules / 8;
        if granules < orig { granules := orig; }
      }
    }

    /** The second part: an even number, limited, and enlarged as far as the same number of objects fits a block. */
    method FitBlock(aim: nat) returns (granules: nat)
      requires Supported(config) && aim > 0
      ensures MaxGranules(config) == config.hblk / 2 && MaxGranules(config) % 2 == 0
      ensures granules == Fit(config.hblk, MaxGranules(config), aim)
    {
      hide MaxGranules;
      MaxIs(config);
      granules := aim + 1 - (aim + 1) % 2;
      if granules > MaxGranules(config) { granules := MaxGranules(config); }
      DivTwice(config.hblk, granules);
      var objects := config.hblk / granules;
      granules := config.hblk / objects;
      granules := granules - granules % 2;
    }

    /** GC_extend_size_map */
    method ExtendSizeMap(i: nat)
      requires Valid() && i + Extra(config) <= MaxBytes(config) && sizes[i] == 0
      modifies sizes
      ensures Valid() && 0 < i && sizes[..] == Extend(old(sizes[..]), config, i)
      ensures sizes[i] != 0
    {
      hide Good, FirstFree, LowLimit, Aim, Fit, Smaller;
      ghost var m := sizes[..];
      GoodSize(m, config);
      InBounds(m, config, i);
      ExtendKeeps(m, config, i);
      var low, granules := AimAt(i);
      granules := FitBlock(granules);
      var byteSz := ToBytes(config, granules) - Extra(config);
      ghost var lo := low;
      while low <= byteSz
        invariant lo <= low <= byteSz + 1 && byteSz < sizes.Length
        invariant forall k :: 0 <= k < sizes.Length ==> sizes[k] == if lo <= k < low then granules else m[k]
      {
        sizes[low] := granules;
        low := low + 1;
      }
      assert sizes[..] == Extend(m, config, i);
    }
  }
}
