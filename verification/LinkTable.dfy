/** The hash tables of gc/finalize.c: disappearing links by the address of the link, finalizers by object.  A table
    is an array of chains whose size is a power of two; it is proved to behave like a finite map. */
module LinkTable {
  function Pow2(n: nat): nat { if n == 0 then 1 else 2 * Pow2(n - 1) }

  lemma {:induction false} Pow2Positive(n: nat)
    ensures Pow2(n) > 0
  {
    if n > 0 { Pow2Positive(n - 1); }
  }

  /** A hash-chain entry; the value is the object of a link, or the finalizer of an object. */
  datatype Entry = Entry(key: nat, value: nat)

  datatype Outcome = Success | Duplicate | NotFound | NoMemory | Unimplemented

  datatype Option = NoValue | Some(value: nat)

  // ----------------------------------------------------------------------------- chains

  predicate Distinct(c: seq<Entry>) { forall i, j :: 0 <= i < j < |c| ==> c[i].key != c[j].key }

  /** The place of a key in a chain, or the chain's length. */
  function Find(c: seq<Entry>, k: nat): (i: nat)
    ensures i <= |c| && (i < |c| ==> c[i].key == k) && forall j :: 0 <= j < i ==> c[j].key != k
  {
    if c == [] || c[0].key == k then 0 else 1 + Find(c[1..], k)
  }

  function Drop(c: seq<Entry>, i: nat): seq<Entry>
    requires i < |c|
  {
    c[..i] + c[i + 1..]
  }

  lemma DropIs(c: seq<Entry>, i: nat)
    requires i < |c| && Distinct(c)
    ensures Distinct(Drop(c, i)) && forall e :: e in Drop(c, i) <==> e in c && e.key != c[i].key
  {
    var d := Drop(c, i);
    forall a, b | 0 <= a < b < |d| ensures d[a].key != d[b].key {
      assert d[a] == c[if a < i then a else a + 1] && d[b] == c[if b < i then b else b + 1];
    }
    forall e ensures e in d <==> e in c && e.key != c[i].key {
      if e in d {
        var a :| 0 <= a < |d| && d[a] == e;
        assert e == c[if a < i then a else a + 1];
      }
      if e in c && e.key != c[i].key {
        var a :| 0 <= a < |c| && c[a] == e;
        assert e == d[if a < i then a else a - 1];
      }
    }
  }

  lemma ReplaceIs(c: seq<Entry>, i: nat, v: nat)
    requires i < |c| && Distinct(c)
    ensures var d := c[i := Entry(c[i].key, v)];
      Distinct(d) && forall e :: e in d <==> (e in c && e.key != c[i].key) || e == Entry(c[i].key, v)
  {
    var d := c[i := Entry(c[i].key, v)];
    forall e ensures e in d <==> (e in c && e.key != c[i].key) || e == Entry(c[i].key, v) {
      if e in d {
        var a :| 0 <= a < |d| && d[a] == e;
        if a != i { assert c[a] == e; }
      }
      if e in c && e.key != c[i].key {
        var a :| 0 <= a < |c| && c[a] == e;
        assert d[a] == e;
      }
      if e == Entry(c[i].key, v) { assert d[i] == e; }
    }
  }

  /** The table holds exactly the pairs of the map, each in the chain that its key's hash selects. */
  ghost predicate Holds(t: seq<seq<Entry>>, log: nat, hash: (nat, nat) -> nat, m: map<nat, nat>) {
    && |t| == Pow2(log)
    && (forall i :: 0 <= i < |t| ==> ChainOk(t[i], i, log, hash, m))
    && forall k :: k in m ==> Entry(k, m[k]) in t[Bucket(k, log, hash)]
  }

  ghost predicate ChainOk(c: seq<Entry>, i: nat, log: nat, hash: (nat, nat) -> nat, m: map<nat, nat>) {
    && Distinct(c)
    && forall e :: e in c ==> Bucket(e.key, log, hash) == i && e.key in m && m[e.key] == e.value
  }

  /** HASH2 and HASH3: the hash, masked to the table's size. */
  function Bucket(k: nat, log: nat, hash: (nat, nat) -> nat): (r: nat)
    ensures r < Pow2(log)
  {
    Pow2Positive(log);
    hash(k, log) % Pow2(log)
  }

  /** Looking a key up in its chain is looking it up in the map. */
  lemma FindInMap(t: seq<seq<Entry>>, log: nat, hash: (nat, nat) -> nat, m: map<nat, nat>, k: nat)
    requires Holds(t, log, hash, m)
    ensures var b := Bucket(k, log, hash); var i := Find(t[b], k);
      (i < |t[b]| <==> k in m) && (k in m ==> t[b][i] == Entry(k, m[k]))
  {
    var b := Bucket(k, log, hash);
    var i := Find(t[b], k);
    assert ChainOk(t[b], b, log, hash, m);
    if k in m {
      var a :| 0 <= a < |t[b]| && t[b][a] == Entry(k, m[k]);
    }
    if i < |t[b]| { assert t[b][i] in t[b]; }
  }

  /** One chain and the value of one key change. */
  lemma ChainChanged(t: seq<seq<Entry>>, u: seq<seq<Entry>>, log: nat, hash: (nat, nat) -> nat, m: map<nat, nat>, m': map<nat, nat>, k: nat)
    requires Holds(t, log, hash, m) && |u| == |t| && Bucket(k, log, hash) < |t|
    requires u == t[Bucket(k, log, hash) := u[Bucket(k, log, hash)]]
    requires ChainOk(u[Bucket(k, log, hash)], Bucket(k, log, hash), log, hash, m')
    requires forall x :: x != k ==> (x in m' <==> x in m) && (x in m ==> m'[x] == m[x])
    requires forall e: Entry :: e.key != k ==> (e in u[Bucket(k, log, hash)] <==> e in t[Bucket(k, log, hash)])
    requires k in m' ==> Entry(k, m'[k]) in u[Bucket(k, log, hash)]
    ensures Holds(u, log, hash, m')
  {
    var b := Bucket(k, log, hash);
    forall i | 0 <= i < |u| ensures ChainOk(u[i], i, log, hash, m') {
      if i != b { assert ChainOk(t[i], i, log, hash, m); }
    }
    forall x | x in m' ensures Entry(x, m'[x]) in u[Bucket(x, log, hash)] {
      if x != k { assert Entry(x, m[x]) in t[Bucket(x, log, hash)]; }
    }
  }

  // --------------------------------------------------------------------------- the table

  const WORD_RANGE: nat := 0x1_0000_0000_0000_0000

  /** What allocating may lead to.  Each allocation, and the collection that is forced before a large table grows, may
      find objects unreachable; GC_finalize then removes their entries.  And memory may be short: if there is none for an
      entry the out-of-memory function is asked for it, without the lock, so that others may use the table meanwhile. */
  datatype Chance = Chance(forced: set<nat>, table: set<nat>, tableMemory: bool, entry: set<nat>, entryMemory: bool,
                           during: seq<Op>, callback: bool)

  /** What others do to the table: register, unregister, or make it grow. */
  datatype Op = Put(key: nat, value: nat) | Delete(key: nat) | Double

  function Meanwhile(m: map<nat, nat>, ops: seq<Op>): map<nat, nat>
    decreases |ops|
  {
    if ops == [] then m
    else
      var n := match ops[0] case Put(k, v) => m[k := v] case Delete(k) => m - {k} case Double => m;
      Meanwhile(n, ops[1..])
  }

  predicate Touched(ops: seq<Op>, k: nat) { exists i :: 0 <= i < |ops| && !ops[i].Double? && ops[i].key == k }

  lemma {:induction false} MeanwhileIs(m: map<nat, nat>, ops: seq<Op>, k: nat)
    requires !Touched(ops, k)
    ensures var n := Meanwhile(m, ops); (k in n <==> k in m) && (k in m ==> n[k] == m[k])
    decreases |ops|
  {
    if ops != [] {
      var n := match ops[0] case Put(j, v) => m[j := v] case Delete(j) => m - {j} case Double => m;
      assert forall i :: 0 <= i < |ops[1..]| ==> ops[1..][i] == ops[i + 1];
      assert ops[0].Double? || ops[0].key != k;
      MeanwhileIs(n, ops[1..], k);
    }
  }

  /** A key gets a value: it is redirected, or an entry is allocated and added; if only the out-of-memory function has
      memory the key is looked up again first.  The map then, and what is reported. */
  function Enrolled(m: map<nat, nat>, key: nat, value: nat, c: Chance): (map<nat, nat>, Outcome) {
    if key in m then (m[key := value], Duplicate)
    else if c.entryMemory then ((m - c.entry)[key := value], Success)
    else
      var n := Meanwhile(m - c.entry, c.during);
      if !c.callback then (n, NoMemory) else (n[key := value], if key in n then Duplicate else Success)
  }

  /** The key has its value unless there is no memory; and any other key is what it was, or lost to a collection, or
      what others have made of it while there was no memory. */
  lemma EnrolledIs(m: map<nat, nat>, key: nat, value: nat, c: Chance, k: nat)
    ensures var r := Enrolled(m, key, value, c);
      && (r.1 != NoMemory ==> key in r.0 && r.0[key] == value)
      && (r.1 == NoMemory <==> key !in m && !c.entryMemory && !c.callback)
      && (key in m ==> r.1 == Duplicate) && (r.1 == Duplicate && key !in m ==> Touched(c.during, key))
      && (k != key && (c.entryMemory || !Touched(c.during, k)) ==>
            && (k in r.0 ==> k in m && r.0[k] == m[k])
            && (k in m && k !in r.0 ==> k in c.entry && key !in m))
  {
    if !Touched(c.during, k) { MeanwhileIs(m - c.entry, c.during, k); }
    if !Touched(c.during, key) { MeanwhileIs(m - c.entry, c.during, key); }
  }

  /** Has a forced collection made enough room?  (The difference is one of unsigned words.) */
  predicate Roomy(entries: nat, log: nat) { entries < (Pow2(log) - entries / 4) % WORD_RANGE }

  /** In numbers: a quarter of the entries again would still fit; or the unsigned difference has wrapped around. */
  lemma RoomyIff(entries: nat, log: nat)
    requires entries < WORD_RANGE && Pow2(log) < WORD_RANGE
    ensures Roomy(entries, log) <==>
      || entries + entries / 4 < Pow2(log)
      || (entries / 4 > Pow2(log) && entries + entries / 4 < Pow2(log) + WORD_RANGE)
  {
    var d := Pow2(log) - entries / 4;
    if d >= 0 { assert d % WORD_RANGE == d; } else { assert d % WORD_RANGE == d + WORD_RANGE; }
  }

  /** What is left of a table that GC_grow_table is called for; `force` tells whether it forces a collection. */
  function Survivors(m: map<nat, nat>, log: nat, force: bool, c: Chance): map<nat, nat> {
    if force && Roomy(|m - c.forced|, log) then m - c.forced
    else if force then m - c.forced - c.table
    else m - c.table
  }

  /** Entries may have been lost, but none has changed. */
  lemma SurvivorsAre(m: map<nat, nat>, log: nat, force: bool, c: Chance, k: nat)
    ensures var r := Survivors(m, log, force, c);
      && (k in r ==> k in m && r[k] == m[k])
      && (k in m && k !in r ==> k in c.table || (force && k in c.forced))
  {}

  lemma FewerLeft(m: map<nat, nat>, gone: set<nat>)
    ensures |m - gone| <= |m|
  {
    var rest := m - gone;
    assert rest.Keys <= m.Keys;
    KeysLeft(rest.Keys, m.Keys);
    assert |rest.Keys| == |rest| && |m.Keys| == |m|;
  }

  lemma {:induction false} KeysLeft(a: set<nat>, b: set<nat>)
    requires a <= b
    ensures |a| <= |b|
  {
    if a != {} {
      var x :| x in a;
      KeysLeft(a - {x}, b - {x});
      assert a == (a - {x}) + {x} && b == (b - {x}) + {x};
    }
  }

  lemma OneMore(m: map<nat, nat>, key: nat, value: nat, c: Chance)
    requires c.entryMemory
    ensures |Enrolled(m, key, value, c).0| <= |m| + 1
  {
    hide Meanwhile;
    FewerLeft(m, c.entry);
    OneAdded(m, key, value);
    OneAdded(m - c.entry, key, value);
  }

  lemma OneAdded(m: map<nat, nat>, key: nat, value: nat)
    ensures |m[key := value]| <= |m| + 1
  {
    assert m[key := value].Keys == m.Keys + {key};
    assert |m[key := value].Keys| == |m[key := value]| && |m.Keys| == |m|;
  }

  /** The size of the table after the growing, if there is memory for a larger one. */
  function LogAfter(m: map<nat, nat>, log: nat, force: bool, c: Chance): nat {
    if |m| <= Pow2(log) || (force && Roomy(|m - c.forced|, log)) then log else log + 1
  }

  lemma RoomIsMade(m: map<nat, nat>, log: nat, force: bool, c: Chance)
    requires Pow2(log) < |m| <= Pow2(log) + 1 && 2 * Pow2(log) < WORD_RANGE
    ensures |Survivors(m, log, force, c)| <= Pow2(LogAfter(m, log, force, c))
  {
    hide Roomy;
    Pow2Positive(log);
    FewerLeft(m, c.forced);
    FewerLeft(m, c.table);
    FewerLeft(m - c.forced, c.table);
    RoomyIff(|m - c.forced|, log);
  }

  /** Registering keeps chains short on average while there is memory: a table with no more than one entry above its size
      has room for all its entries after the growing, and no more than one above its size with the new one. */
  lemma LoadStaysLow(m: map<nat, nat>, log: nat, force: bool, c: Chance, key: nat, value: nat)
    requires |m| <= Pow2(log) + 1 && 2 * Pow2(log) < WORD_RANGE && c.entryMemory
    ensures var r, n := if |m| > Pow2(log) then Survivors(m, log, force, c) else m, LogAfter(m, log, force, c);
      |r| <= Pow2(n) && |Enrolled(r, key, value, c).0| <= Pow2(n) + 1
  {
    hide Survivors, Enrolled, Pow2;
    if |m| > Pow2(log) { RoomIsMade(m, log, force, c); }
    OneMore(if |m| > Pow2(log) then Survivors(m, log, force, c) else m, key, value, c);
  }

  class Table {
    var head: array<seq<Entry>>
    var log: nat
    var entries: nat
    var present: bool      // false while `head` is still NULL
    const hash: (nat, nat) -> nat
    const growMin: nat     // GC_ON_GROW_LOG_SIZE_MIN
    const incremental: bool
    const findLeak: bool
    ghost var contents: map<nat, nat>

    ghost predicate Valid()
      reads this, head
    {
      && entries == |contents| && 0 < growMin && (!present ==> contents == map[] && log == 0)
      && (present ==> Holds(head[..], log, hash, contents))
    }

    constructor (h: (nat, nat) -> nat, growMin: nat, incremental: bool, findLeak: bool)
      requires 0 < growMin
      ensures Valid() && contents == map[] && fresh(head) && !present && hash == h
      ensures this.growMin == growMin && this.incremental == incremental && this.findLeak == findLeak
    {
      head := new seq<Entry>[0];
      log, entries, present, hash := 0, 0, false, h;
      this.growMin, this.incremental, this.findLeak := growMin, incremental, findLeak;
      contents := map[];
    }

    /** Does growing begin with a forced collection? */
    predicate Forces()
      reads this
    {
      log >= growMin && !incremental
    }

    /** What a collection leaves of the table: GC_finalize has removed the entries of the keys in `gone`. */
    method Reclaim(gone: set<nat>)
      requires Valid()
      modifies this`entries, this`contents, head
      ensures Valid() && contents == old(contents) - gone
    {
      hide Holds, ChainOk;
      if !present { return; }
      TableSize(head[..], log, hash, contents);
      for b := 0 to head.Length
        invariant entries == |contents| && Holds(head[..], log, hash, contents)
        invariant forall k :: k in contents ==> k in old(contents) && contents[k] == old(contents)[k]
        invariant forall k :: k in old(contents) && k !in contents ==> k in gone
        invariant forall k :: k in contents && Bucket(k, log, hash) < b ==> k !in gone
      {
        ReclaimChain(b, gone);
        ChainFacts(head[..], log, hash, contents, b);
        forall k | k in contents && Bucket(k, log, hash) == b ensures k !in gone {
          assert Entry(k, contents[k]) in head[b];
        }
      }
      assert contents == old(contents) - gone;
    }

    method ReclaimChain(b: nat, gone: set<nat>)
      requires b < head.Length && entries == |contents| && Holds(head[..], log, hash, contents)
      modifies this`entries, this`contents, head
      ensures entries == |contents| && Holds(head[..], log, hash, contents)
      ensures forall k :: k in contents ==> k in old(contents) && contents[k] == old(contents)[k]
      ensures forall k :: k in old(contents) && k !in contents ==> k in gone
      ensures forall e :: e in head[b] ==> e.key !in gone
    {
      hide Holds, ChainOk, Bucket;
      var i := 0;
      while i < |head[b]|
        invariant i <= |head[b]| && entries == |contents| && Holds(head[..], log, hash, contents)
        invariant forall k :: k in contents ==> k in old(contents) && contents[k] == old(contents)[k]
        invariant forall k :: k in old(contents) && k !in contents ==> k in gone
        invariant forall j :: 0 <= j < i ==> head[b][j].key !in gone
        decreases |head[b]| - i
      {
        ghost var t, e := head[..], head[b][i];
        if head[b][i].key in gone {
          ChainFacts(t, log, hash, contents, b);
          assert e in t[b];
          head[b] := Drop(head[b], i);
          assert head[..] == t[Bucket(e.key, log, hash) := Drop(t[Bucket(e.key, log, hash)], i)];
          DropHolds(t, head[..], log, hash, contents, e.key, i);
          contents := contents - {e.key};
          entries := entries - 1;
        } else {
          i := i + 1;
        }
      }
    }

    /** The entries of one chain move to the new table. */
    method MoveChain(chain: seq<Entry>, table: array<seq<Entry>>, newLog: nat, ghost m: map<nat, nat>) returns (ghost r: map<nat, nat>)
      requires table.Length == Pow2(newLog) && Holds(table[..], newLog, hash, m)
      requires Distinct(chain) && forall e :: e in chain ==> e.key !in m
      modifies table
      ensures Holds(table[..], newLog, hash, r) && Extended(m, chain, r)
    {
      hide Holds;
      var p := chain;
      r := m;
      while p != []
        invariant Holds(table[..], newLog, hash, r) && Distinct(p)
        invariant forall e :: e in p ==> e in chain && e.key !in r
        invariant forall k :: k in m ==> k in r && r[k] == m[k]
        invariant forall e :: e in chain ==> e in p || (e.key in r && r[e.key] == e.value)
        invariant forall k :: k in r ==> k in m || Entry(k, r[k]) in chain
        decreases |p|
      {
        var e := p[0];
        var b := Bucket(e.key, newLog, hash);
        ghost var t := table[..];
        table[b] := [e] + table[b];
        PushHolds(t, table[..], newLog, hash, r, e);
        assert forall x :: x in p <==> x == e || x in p[1..];
        forall x | x in p[1..] ensures x.key != e.key { SomeLater(p, x); }
        r := r[e.key := e.value];
        p := p[1..];
      }
    }

    /** GC_grow_table: a large table is first given a chance to shrink by a forced collection; unless that makes enough
        room the table is made twice as large, if there is memory for it. */
    method Grow(c: Chance)
      requires Valid() && (!present ==> c.tableMemory)
      modifies this, head
      ensures Valid() && present && contents == Survivors(old(contents), old(log), old(Forces()), c)
      ensures if (old(Forces()) && Roomy(|old(contents) - c.forced|, old(log))) || !c.tableMemory
        then head == old(head) && log == old(log) else log == old(log) + 1 && fresh(head)
    {
      hide Holds, ChainOk, Roomy;
      if Forces() {
        Reclaim(c.forced);
        if Roomy(entries, log) { return; }
      }
      Reclaim(c.table);
      if c.tableMemory { Rehash(); }
    }

    /** The entries move to a new table of twice the size. */
    method Rehash()
      requires Valid()
      modifies this
      ensures Valid() && present && contents == old(contents) && log == old(log) + 1 && fresh(head)
    {
      hide Holds, ChainOk;
      var newLog := log + 1;
      var size := Pow2(newLog);
      var table := new seq<Entry>[size](_ => []);
      EmptyHolds(table[..], newLog, hash);
      ghost var moved: map<nat, nat> := map[];
      if present {
        TableSize(head[..], log, hash, contents);
        for i := 0 to head.Length
          modifies table
          invariant Holds(table[..], newLog, hash, moved)
          invariant forall k :: k in moved <==> k in contents && Bucket(k, log, hash) < i
          invariant forall k :: k in moved ==> moved[k] == contents[k]
        {
          ChainFacts(head[..], log, hash, contents, i);
          ghost var before := moved;
          moved := MoveChain(head[i], table, newLog, moved);
          forall k ensures k in moved <==> k in contents && Bucket(k, log, hash) < i + 1 {
            if k in contents && Bucket(k, log, hash) == i { assert Entry(k, contents[k]) in head[i]; }
          }
        }
      }
      assert moved == contents;
      head, log, present := table, newLog, true;
    }

    /** What the growing that registering starts with leaves of the table. */
    ghost function AtHand(c: Chance): map<nat, nat>
      reads this
    {
      if !present || |contents| > Pow2(log) then Survivors(contents, log, Forces(), c) else contents
    }

    /** The growing that registering starts with. */
    method MakeRoom(c: Chance)
      requires Valid() && (!present ==> c.tableMemory)
      modifies this, head
      ensures Valid() && present && contents == old(AtHand(c)) && (head == old(head) || fresh(head))
      ensures old(present) && |old(contents)| <= Pow2(old(log)) ==> log == old(log)
      ensures !old(present) || |old(contents)| > Pow2(old(log)) ==>
        log == old(log) + if (old(Forces()) && Roomy(|old(contents) - c.forced|, old(log))) || !c.tableMemory then 0 else 1
    {
      if !present || entries > Pow2(log) { Grow(c); }
    }

    /** The loop over a chain: a key that is known gets another value. */
    method Redirect(key: nat, value: nat) returns (was: Option)
      requires Valid() && present
      modifies this`contents, head
      ensures Valid() && was == if key in old(contents) then Some(old(contents)[key]) else NoValue
      ensures contents == if key in old(contents) then old(contents)[key := value] else old(contents)
    {
      hide Holds, ChainOk;
      var b := Bucket(key, log, hash);
      TableSize(head[..], log, hash, contents);
      FindInMap(head[..], log, hash, contents, key);
      var i := Find(head[b], key);
      if i == |head[b]| { return NoValue; }
      was := Some(head[b][i].value);
      ghost var t := head[..];
      head[b] := head[b][i := Entry(key, value)];
      ReplaceHolds(t, head[..], log, hash, contents, key, value, i);
      SameSize(contents, key, value);
      contents := contents[key := value];
    }

    /** A new entry is put in front of its chain. */
    method AddEntry(key: nat, value: nat)
      requires Valid() && present && key !in contents
      modifies this`entries, this`contents, head
      ensures Valid() && contents == old(contents)[key := value]
    {
      hide Holds, ChainOk;
      var b := Bucket(key, log, hash);
      TableSize(head[..], log, hash, contents);
      ghost var t := head[..];
      head[b] := [Entry(key, value)] + head[b];
      PushHolds(t, head[..], log, hash, contents, Entry(key, value));
      contents := contents[key := value];
      entries := entries + 1;
    }

    /** Others use the table while it is not locked. */
    method OthersRun(ops: seq<Op>)
      requires Valid() && present
      modifies this, head
      ensures Valid() && present && contents == Meanwhile(old(contents), ops) && (head == old(head) || fresh(head))
    {
      hide Holds, ChainOk;
      var rest := ops;
      while rest != []
        invariant Valid() && present && (head == old(head) || fresh(head))
        invariant Meanwhile(contents, rest) == Meanwhile(old(contents), ops)
        decreases |rest|
      {
        match rest[0] {
          case Put(k, v) =>
            var was := Redirect(k, v);
            if was.NoValue? { AddEntry(k, v); }
          case Delete(k) => var was := Unregister(k);
          case Double => Rehash();
        }
        rest := rest[1..];
      }
    }

    /** The second part of registering, from the allocation of an entry on; a key that has been registered meanwhile is
        redirected. */
    method Enroll(key: nat, value: nat, c: Chance) returns (was: Option, r: Outcome)
      requires Valid() && present && key !in contents
      modifies this, head
      ensures Valid() && (contents, r) == Enrolled(old(contents), key, value, c)
      ensures var n := Meanwhile(old(contents) - c.entry, c.during);
        was == if r == Duplicate && key in n then Some(n[key]) else NoValue
    {
      hide Holds, ChainOk;
      Reclaim(c.entry);
      was, r := NoValue, Success;
      if !c.entryMemory {
        OthersRun(c.during);
        if !c.callback { return NoValue, NoMemory; }
        was := Redirect(key, value);
        if was.Some? { return was, Duplicate; }
      }
      AddEntry(key, value);
    }

    /** GC_register_disappearing_link_inner: a link that is known is redirected to the object; otherwise it is added, if
        there is memory for an entry. */
    method Register(link: nat, obj: nat, c: Chance) returns (r: Outcome)
      requires Valid() && (!present ==> c.tableMemory)
      modifies this, head
      ensures Valid()
      ensures (contents, r) == if findLeak then (old(contents), Unimplemented) else Enrolled(old(AtHand(c)), link, obj, c)
    {
      hide Holds, ChainOk, AtHand, Meanwhile;
      if findLeak { return Unimplemented; }
      MakeRoom(c);
      var was := Redirect(link, obj);
      if was.Some? { return Duplicate; }
      was, r := Enroll(link, obj, c);
    }

    /** GC_unregister_disappearing_link_inner */
    method Unregister(link: nat) returns (r: Option)
      requires Valid()
      modifies this, head
      ensures Valid()
      ensures r == if link in old(contents) then Some(old(contents)[link]) else NoValue
      ensures contents == old(contents) - {link} && present == old(present) && head == old(head)
    {
      hide Holds, ChainOk;
      if !present { return NoValue; }
      var b := Bucket(link, log, hash);
      TableSize(head[..], log, hash, contents);
      FindInMap(head[..], log, hash, contents, link);
      var i := Find(head[b], link);
      if i == |head[b]| {
        assert contents - {link} == contents;
        return NoValue;
      }
      r := Some(head[b][i].value);
      ghost var t := head[..];
      head[b] := Drop(head[b], i);
      DropHolds(t, head[..], log, hash, contents, link, i);
      contents := contents - {link};
      entries := entries - 1;
    }

    /** GC_move_disappearing_link_inner */
    method Move(link: nat, newLink: nat) returns (r: Outcome)
      requires Valid()
      modifies this, head
      ensures Valid()
      ensures r == if link !in old(contents) then NotFound else if link == newLink then Success
                   else if newLink in old(contents) then Duplicate else Success
      ensures contents == if r == Success && link != newLink then (old(contents) - {link})[newLink := old(contents)[link]] else old(contents)
    {
      hide Holds, ChainOk;
      if !present { return NotFound; }
      var b := Bucket(link, log, hash);
      TableSize(head[..], log, hash, contents);
      FindInMap(head[..], log, hash, contents, link);
      var i := Find(head[b], link);
      if i == |head[b]| { return NotFound; }
      if link == newLink { return Success; }
      var nb := Bucket(newLink, log, hash);
      FindInMap(head[..], log, hash, contents, newLink);
      if Find(head[nb], newLink) < |head[nb]| { return Duplicate; }
      var obj := head[b][i].value;
      ghost var t := head[..];
      head[b] := Drop(head[b], i);
      DropHolds(t, head[..], log, hash, contents, link, i);
      ghost var u, m := head[..], contents - {link};
      head[nb] := [Entry(newLink, obj)] + head[nb];
      PushHolds(u, head[..], log, hash, m, Entry(newLink, obj));
      contents := m[newLink := obj];
      r := Success;
    }

    /** GC_register_finalizer_inner, where fn == NoValue stands for a null function: the finalizer of an object is
        added, replaced or removed, and the one it had before is reported.  An object without header never gets one. */
    method RegisterFinalizer(obj: nat, fn: Option, hasHeader: bool, c: Chance) returns (was: Option, r: Outcome)
      requires Valid() && (!present ==> c.tableMemory)
      modifies this, head
      ensures Valid()
      ensures findLeak ==> was == NoValue && r == Unimplemented && contents == old(contents)
      ensures !findLeak && obj in old(AtHand(c)) ==> was == Some(old(AtHand(c))[obj]) && r == Success
      ensures !findLeak && obj in old(AtHand(c)) ==>
        contents == if fn.NoValue? then old(AtHand(c)) - {obj} else old(AtHand(c))[obj := fn.value]
      ensures !findLeak && obj !in old(AtHand(c)) && (fn.NoValue? || !hasHeader) ==>
        was == NoValue && r == Success && contents == old(AtHand(c))
      ensures !findLeak && obj !in old(AtHand(c)) && fn.Some? && hasHeader ==>
        var n := Meanwhile(old(AtHand(c)) - c.entry, c.during);
        && (contents, r) == Enrolled(old(AtHand(c)), obj, fn.value, c)
        && was == if r == Duplicate && obj in n then Some(n[obj]) else NoValue
    {
      hide Holds, ChainOk, AtHand, Meanwhile;
      was, r := NoValue, Success;
      if findLeak { return was, Unimplemented; }
      MakeRoom(c);
      if fn.NoValue? {
        was := Unregister(obj);
        return was, Success;
      }
      was := Redirect(obj, fn.value);
      if was.Some? || !hasHeader { return was, Success; }
      was, r := Enroll(obj, fn.value, c);
    }
  }

  lemma SameSize(m: map<nat, nat>, k: nat, v: nat)
    requires k in m
    ensures |m[k := v]| == |m|
  {
    assert m[k := v].Keys == m.Keys;
  }

  lemma ReplaceHolds(t: seq<seq<Entry>>, u: seq<seq<Entry>>, log: nat, hash: (nat, nat) -> nat, m: map<nat, nat>, k: nat, v: nat, i: nat)
    requires Holds(t, log, hash, m) && Bucket(k, log, hash) < |t| && i < |t[Bucket(k, log, hash)]| && t[Bucket(k, log, hash)][i].key == k
    requires u == t[Bucket(k, log, hash) := t[Bucket(k, log, hash)][i := Entry(k, v)]]
    ensures Holds(u, log, hash, m[k := v])
  {
    var b := Bucket(k, log, hash);
    assert ChainOk(t[b], b, log, hash, m);
    ReplaceIs(t[b], i, v);
    assert ChainOk(u[b], b, log, hash, m[k := v]);
    ChainChanged(t, u, log, hash, m, m[k := v], k);
  }

  lemma DropHolds(t: seq<seq<Entry>>, u: seq<seq<Entry>>, log: nat, hash: (nat, nat) -> nat, m: map<nat, nat>, k: nat, i: nat)
    requires Holds(t, log, hash, m) && Bucket(k, log, hash) < |t| && i < |t[Bucket(k, log, hash)]| && t[Bucket(k, log, hash)][i].key == k
    requires u == t[Bucket(k, log, hash) := Drop(t[Bucket(k, log, hash)], i)]
    ensures Holds(u, log, hash, m - {k}) && k in m && |m - {k}| == |m| - 1
  {
    var b := Bucket(k, log, hash);
    assert ChainOk(t[b], b, log, hash, m);
    assert t[b][i] in t[b];
    DropIs(t[b], i);
    assert ChainOk(u[b], b, log, hash, m - {k});
    ChainChanged(t, u, log, hash, m, m - {k}, k);
    assert (m - {k})[k := m[k]] == m;
  }

  /** The map r has the pairs of m and of the chain. */
  ghost predicate Extended(m: map<nat, nat>, c: seq<Entry>, r: map<nat, nat>) {
    && (forall k :: k in m ==> k in r && r[k] == m[k])
    && (forall e :: e in c ==> e.key in r && r[e.key] == e.value)
    && (forall k :: k in r ==> k in m || Entry(k, r[k]) in c)
  }

  lemma SomeLater(p: seq<Entry>, x: Entry)
    requires Distinct(p) && p != [] && x in p[1..]
    ensures x.key != p[0].key
  {
    var i :| 0 <= i < |p[1..]| && p[1..][i] == x;
    assert p[i + 1] == x;
  }

  lemma EmptyHolds(t: seq<seq<Entry>>, log: nat, hash: (nat, nat) -> nat)
    requires |t| == Pow2(log) && forall i :: 0 <= i < |t| ==> t[i] == []
    ensures Holds(t, log, hash, map[])
  {}

  lemma TableSize(t: seq<seq<Entry>>, log: nat, hash: (nat, nat) -> nat, m: map<nat, nat>)
    requires Holds(t, log, hash, m)
    ensures |t| == Pow2(log)
  {}

  lemma ChainFacts(t: seq<seq<Entry>>, log: nat, hash: (nat, nat) -> nat, m: map<nat, nat>, i: nat)
    requires Holds(t, log, hash, m) && i < |t|
    ensures Distinct(t[i]) && forall e :: e in t[i] ==> Bucket(e.key, log, hash) == i && e.key in m && m[e.key] == e.value
    ensures forall k :: k in m && Bucket(k, log, hash) == i ==> Entry(k, m[k]) in t[i]
  {
    assert ChainOk(t[i], i, log, hash, m);
  }

  lemma PushHolds(t: seq<seq<Entry>>, u: seq<seq<Entry>>, log: nat, hash: (nat, nat) -> nat, m: map<nat, nat>, e: Entry)
    requires Holds(t, log, hash, m) && e.key !in m && Bucket(e.key, log, hash) < |t|
    requires u == t[Bucket(e.key, log, hash) := [e] + t[Bucket(e.key, log, hash)]]
    ensures Holds(u, log, hash, m[e.key := e.value])
  {
    var b := Bucket(e.key, log, hash);
    assert ChainOk(t[b], b, log, hash, m);
    assert forall i :: 0 <= i < |t[b]| ==> t[b][i] in t[b];
    assert u[b][0] == e;
    assert ChainOk(u[b], b, log, hash, m[e.key := e.value]);
    forall x: Entry | x.key != e.key ensures x in u[b] <==> x in t[b] {}
    ChainChanged(t, u, log, hash, m, m[e.key := e.value], e.key);
  }
}
