/** When a cache with more entries holds everything that one with fewer does: the exact limits, for caches
    that differ in their entry bound only. */
module CacheInclusion {
  import opened LruSpec
  import opened Text
  import opened CacheRuns

  /** What cache_init accepts, and an entry bound of fewer digits than a key may have (a size_t has 20 at most). */
  predicate Accepted(l: Limits) { 0 < l.entries && 0 < l.total && 0 < l.entry && |Dec(l.entries)| < KEY_MAX }

  /** The longest payload that can be stored. */
  function Longest(l: Limits): nat { if l.entry <= l.total then l.entry else l.total }

  ghost function Held(l: Limits, ops: seq<Op>): Lru {
    var s := Run(On(l, []), ops);
    if s.On? then s.lru else []
  }

  /** After this run the large cache holds whatever the small one does. */
  ghost predicate Included(small: Limits, large: Limits, ops: seq<Op>) {
    forall e :: e in Held(small, ops) ==> e in Held(large, ops)
  }

  ghost predicate AlwaysIncluded(small: Limits, large: Limits) {
    forall ops :: OnlyUses(ops) ==> Included(small, large, ops)
  }

  // ---------- where inclusion holds ----------

  lemma {:induction false} RunKeepsLimits(l: Limits, ops: seq<Op>)
    requires OnlyUses(ops) && l.entries > 0
    ensures Run(On(l, []), ops).On? && Run(On(l, []), ops).limits == l && Bounded(l, Held(l, ops))
  {
    if ops != [] {
      var n := |ops| - 1;
      RunKeepsLimits(l, ops[..n]);
      var m := Held(l, ops[..n]);
      match ops[n]
      case Lookup(key, now, copied) => LookupKeepsBounded(l, m, key, now, copied);
      case Store(key, data, ttl, now, copied) => StoreKeepsBounded(l, m, key, data, ttl, now, copied);
    }
  }

  /** A cache of one entry holds at most the entry stored last, which nothing later can evict from a larger one. */
  lemma {:induction false} SingleIncluded(small: Limits, large: Limits, ops: seq<Op>)
    requires small == large.(entries := 1) && large.entries > 0 && OnlyUses(ops)
    ensures Included(small, large, ops)
  {
    if ops != [] {
      var n := |ops| - 1;
      SingleIncluded(small, large, ops[..n]);
      RunKeepsLimits(small, ops[..n]);
      RunKeepsLimits(large, ops[..n]);
      SingleStep(small, Held(small, ops[..n]), large, Held(large, ops[..n]), ops[n]);
    }
  }

  lemma SingleStep(small: Limits, a: Lru, large: Limits, b: Lru, op: Op)
    requires small == large.(entries := 1) && large.entries > 0 && (op.Lookup? || op.Store?)
    requires Bounded(small, a) && Bounded(large, b) && forall e :: e in a ==> e in b
    ensures forall e :: e in Step(On(small, a), op).lru ==> e in Step(On(large, b), op).lru
  {
    hide Bytes, Without, Get, EvictToFit;
    if op.Lookup? {
      LookupKeepsMembers(a, b, op.key, op.now, op.copied);
    } else if Storable(small, op.key, op.data, op.ttl, op.copied) {
      StepStores(small, a, op);
      StepStores(large, b, op);
      var n := EvictsShortestPrefix(small, Without(a, op.key), |op.data|);
      assert Without(a, op.key)[n..] == [];
    }
  }

  lemma LookupKeepsMembers(a: Lru, b: Lru, key: string, now: int, copied: bool)
    requires UniqueKeys(a) && UniqueKeys(b) && forall e :: e in a ==> e in b
    ensures forall e :: e in LruSpec.Lookup(a, key, now, copied).0 ==> e in LruSpec.Lookup(b, key, now, copied).0
  {
    hide Without, Get, UniqueKeys;
    WithoutShrinks(a, key);
    WithoutShrinks(b, key);
    GetIsMember(a, key);
    GetIsMember(b, key);
    if Get(a, key).Some? { OneEntryPerKey(b, Get(a, key).value); }
    forall e | e in a && e.key == key ensures Get(a, key) == Some(e) { OneEntryPerKey(a, e); }
  }

  // ---------- the run that breaks it ----------

  /** The i-th entry of the run: the first `full` ones carry `len` bytes, the rest none. */
  function Item(i: nat, full: nat, len: nat): Entry { Entry(Dec(i), if i < full then Repeat('x', len) else "", 10) }

  function Items(lo: nat, hi: nat, full: nat, len: nat): (es: Lru)
    requires lo <= hi
    ensures |es| == hi - lo && forall i :: 0 <= i < |es| ==> es[i] == Item(lo + i, full, len)
  {
    seq(hi - lo, i requires 0 <= i < hi - lo => Item(lo + i, full, len))
  }

  function StoreOf(e: Entry): Op { Op.Store(e.key, e.data, if e.expires < 0 then 0 else e.expires, 0, true) }

  /** Stores at time 0. */
  function Stores(es: Lru): (ops: seq<Op>)
    ensures |ops| == |es| && forall i :: 0 <= i < |es| ==> ops[i] == StoreOf(es[i])
  {
    seq(|es|, i requires 0 <= i < |es| => StoreOf(es[i]))
  }

  /** Lookups at time 0. */
  function Lookups(es: Lru): (ops: seq<Op>)
    ensures |ops| == |es| && forall i :: 0 <= i < |es| ==> ops[i] == Op.Lookup(es[i].key, 0, true)
  {
    seq(|es|, i requires 0 <= i < |es| => Op.Lookup(es[i].key, 0, true))
  }

  function Last(es: Lru, n: nat): Lru { if |es| <= n then es else es[|es| - n..] }

  /** What a cache of these limits can take, bytes permitting. */
  ghost predicate Takes(l: Limits, es: Lru) {
    && UniqueKeys(es) && Bytes(es) <= l.total
    && forall i :: 0 <= i < |es| ==> Suits(l, es[i])
  }

  predicate Suits(l: Limits, e: Entry) { |e.data| <= l.entry && |e.key| < KEY_MAX && 0 < e.expires <= MAX_TTL }

  lemma TakesPrefix(l: Limits, es: Lru)
    requires es != [] && Takes(l, es)
    ensures var n := |es| - 1; Takes(l, es[..n]) && Bytes(es[..n]) + |es[n].data| == Bytes(es) <= l.total
  {
    hide Bytes, UniqueKeys, Suits;
    BytesPrefix(es);
    UniquePrefix(es, |es| - 1);
  }

  lemma BytesPrefix(es: Lru)
    requires es != []
    ensures var n := |es| - 1; Bytes(es[..n]) + |es[n].data| == Bytes(es)
  {
    hide Bytes;
    var n := |es| - 1;
    assert es == es[..n] + [es[n]];
    BytesConcat(es[..n], [es[n]]);
    OneBytes(es[n]);
  }

  lemma UniquePrefix(es: Lru, n: nat)
    requires n <= |es| && UniqueKeys(es)
    ensures UniqueKeys(es[..n])
  {
  }

  lemma LastBytes(es: Lru, n: nat)
    ensures Bytes(Last(es, n)) <= Bytes(es)
  {
    if |es| > n {
      assert es == es[..|es| - n] + es[|es| - n..];
      BytesConcat(es[..|es| - n], es[|es| - n..]);
    }
  }

  /** Storing distinct keys within the byte bound leaves the last ones that the entry bound admits. */
  lemma {:induction false} FillKeepsLast(l: Limits, es: Lru)
    requires l.entries > 0 && Takes(l, es)
    ensures Run(On(l, []), Stores(es)) == On(l, Last(es, l.entries))
    decreases |es|
  {
    hide Takes, Step, Last;
    if es == [] {
      NothingLeft(l);
    } else {
      var n := |es| - 1;
      TakesPrefix(l, es);
      FillKeepsLast(l, es[..n]);
      assert Stores(es)[..n] == Stores(es[..n]);
      FillOne(l, es, n);
    }
  }

  lemma NothingLeft(l: Limits)
    ensures Last([], l.entries) == []
  {
  }

  lemma FillOne(l: Limits, es: Lru, n: nat)
    requires l.entries > 0 && Takes(l, es) && n == |es| - 1
    ensures Step(On(l, Last(es[..n], l.entries)), StoreOf(es[n])) == On(l, Last(es, l.entries))
  {
    hide Bytes, EvictToFit, Without;
    TakesPrefix(l, es);
    var m, x := Last(es[..n], l.entries), es[n];
    LastBytes(es[..n], l.entries);
    forall i | 0 <= i < |m| ensures m[i].key != x.key {
      assert m[i] == es[n - |m| + i];
    }
    WithoutAbsent(m, x.key);
    if |m| == l.entries { LessBytes(m); }
    EvictByCount(l, m, |x.data|);
    assert DropForCount(l, m) + [x] == Last(es, l.entries);
    assert Entry(x.key, x.data, Expiry(0, x.expires)) == x;
  }

  lemma LessBytes(m: Lru)
    requires m != []
    ensures Bytes(m[1..]) <= Bytes(m)
  {
  }

  lemma UniqueRotated(a: Lru, b: Lru)
    requires UniqueKeys(a + b)
    ensures UniqueKeys(b + a)
  {
    var s, t := a + b, b + a;
    forall i, j | 0 <= i < j < |t| ensures t[i].key != t[j].key {
      assert t[i] == s[if i < |b| then |a| + i else i - |b|];
      assert t[j] == s[if j < |b| then |a| + j else j - |b|];
    }
  }

  /** Looking up the oldest entries in turn moves them to the recent end. */
  lemma {:induction false} Rotate(l: Limits, a: Lru, b: Lru, i: nat)
    requires i <= |a| && UniqueKeys(a + b) && forall e :: e in a ==> e.expires > 0
    ensures Run(On(l, a + b), Lookups(a[..i])) == On(l, a[i..] + b + a[..i])
    decreases i
  {
    if i == 0 {
      assert a[0..] + b + a[..0] == a + b;
    } else {
      Rotate(l, a, b, i - 1);
      assert Lookups(a[..i])[..i - 1] == Lookups(a[..i - 1]);
      RotateOne(l, a, b, i - 1);
    }
  }

  lemma RotateOne(l: Limits, a: Lru, b: Lru, i: nat)
    requires i < |a| && UniqueKeys(a + b) && forall e :: e in a ==> e.expires > 0
    ensures Step(On(l, a[i..] + b + a[..i]), Op.Lookup(a[i].key, 0, true)) == On(l, a[i + 1..] + b + a[..i + 1])
  {
    hide UniqueKeys;
    var m := a[i..] + b + a[..i];
    assert a + b == a[..i] + (a[i..] + b);
    UniqueRotated(a[..i], a[i..] + b);
    assert m[0] == a[i];
    AtPosition(m, 0);
    assert m[..0] + m[1..] + [m[0]] == a[i + 1..] + b + a[..i + 1];
  }

  /** Lookups of absent keys change nothing. */
  lemma {:induction false} Miss(l: Limits, m: Lru, es: Lru)
    requires forall i, j :: 0 <= i < |es| && 0 <= j < |m| ==> es[i].key != m[j].key
    ensures Run(On(l, m), Lookups(es)) == On(l, m)
    decreases |es|
  {
    if es != [] {
      var n := |es| - 1;
      Miss(l, m, es[..n]);
      assert Lookups(es)[..n] == Lookups(es[..n]);
      WithoutAbsent(m, es[n].key);
    }
  }

  /** Looking an entry up when it has expired removes it. */
  lemma Expire(l: Limits, a: Lru, c: Entry, b: Lru)
    requires UniqueKeys(a + [c] + b) && c.expires <= 1
    ensures Step(On(l, a + [c] + b), Op.Lookup(c.key, 1, true)) == On(l, a + b)
  {
    var m := a + [c] + b;
    assert m[|a|] == c;
    AtPosition(m, |a|);
    assert m[..|a|] + m[|a| + 1..] == a + b;
  }

  lemma {:induction false} DecMonotone(i: nat, n: nat)
    requires i <= n
    ensures |Dec(i)| <= |Dec(n)|
  {
    if i >= 10 { DecMonotone(i / 10, n / 10); }
  }

  function AtMost(a: nat, b: nat): nat { if a < b then a else b }

  lemma {:induction false} ItemsBytes(n: nat, full: nat, len: nat)
    ensures Bytes(Items(0, n, full, len)) == AtMost(n, full) * len
  {
    hide Dec, Repeat;
    if n > 0 {
      ItemsBytes(n - 1, full, len);
      var es := Items(0, n, full, len);
      assert es[..n - 1] == Items(0, n - 1, full, len);
      BytesPrefix(es);
    }
  }

  /** The filling of the run: distinct keys, and as many full entries as the byte bound admits. */
  lemma FillingIsTaken(l: Limits, full: nat, len: nat, c: Entry)
    requires Accepted(l) && len <= l.entry && full * len <= l.total && full < l.entries
    requires c == Entry(Dec(l.entries - 1), "", 1)
    ensures Takes(l, Items(0, l.entries - 1, full, len) + [c])
  {
    hide Bytes, Dec;
    var n := l.entries - 1;
    var es := Items(0, n, full, len) + [c];
    ItemsBytes(n, full, len);
    BytesConcat(Items(0, n, full, len), [c]);
    OneBytes(c);
    forall i | 0 <= i < |es| ensures es[i].key == Dec(i) && |es[i].key| < KEY_MAX {
      DecMonotone(i, l.entries);
    }
    forall i, j | 0 <= i < j < |es| ensures es[i].key != es[j].key {
      DecValueOfDec(i);
      DecValueOfDec(j);
    }
  }

  lemma OneBytes(e: Entry)
    ensures Bytes([e]) == |e.data|
  {
  }

  /** Fill, look up the oldest, let one entry expire. The large cache has rotated; the small one kept the rest. */
  function Prelude(olds: Lru, kept: Lru, c: Entry): seq<Op> {
    Stores(olds + kept + [c]) + Lookups(olds) + [Op.Lookup(c.key, 1, true)]
  }

  lemma PreludeUses(olds: Lru, kept: Lru, c: Entry)
    ensures OnlyUses(Prelude(olds, kept, c))
  {
  }

  lemma PreludeLarge(l: Limits, olds: Lru, kept: Lru, c: Entry)
    requires l.entries == |olds + kept + [c]| && Takes(l, olds + kept + [c]) && c.expires <= 1
    ensures Run(On(l, []), Prelude(olds, kept, c)) == On(l, kept + olds)
  {
    hide Run, Step;
    var es := olds + kept + [c];
    FillKeepsLast(l, es);
    RunConcat(On(l, []), Stores(es), Lookups(olds));
    assert es == olds + (kept + [c]);
    assert forall e :: e in olds ==> e.expires > 0 by {
      forall e | e in olds ensures e.expires > 0 { var i :| 0 <= i < |olds| && olds[i] == e; assert es[i] == e; }
    }
    Rotate(l, olds, kept + [c], |olds|);
    assert olds[..|olds|] == olds && olds[|olds|..] + (kept + [c]) + olds == kept + [c] + olds;
    UniqueRotated(olds, kept + [c]);
    RunLast(On(l, []), Stores(es) + Lookups(olds), Op.Lookup(c.key, 1, true));
    Expire(l, kept, c, olds);
  }

  lemma PreludeSmall(l: Limits, olds: Lru, kept: Lru, c: Entry)
    requires l.entries == |kept + [c]| && Takes(l, olds + kept + [c]) && c.expires <= 1
    ensures Run(On(l, []), Prelude(olds, kept, c)) == On(l, kept)
  {
    hide Run, Step;
    var es, m := olds + kept + [c], kept + [c];
    FillKeepsLast(l, es);
    assert Last(es, l.entries) == m by { assert es == olds + m; }
    RunConcat(On(l, []), Stores(es), Lookups(olds));
    forall i, j | 0 <= i < |olds| && 0 <= j < |m| ensures olds[i].key != m[j].key {
      assert es[i] == olds[i] && es[|olds| + j] == m[j];
    }
    Miss(l, m, olds);
    RunLast(On(l, []), Stores(es) + Lookups(olds), Op.Lookup(c.key, 1, true));
    assert UniqueKeys(m + []) by {
      forall i, j | 0 <= i < j < |m| ensures m[i].key != m[j].key { assert es[|olds| + i] == m[i] && es[|olds| + j] == m[j]; }
      assert m + [] == m;
    }
    assert kept + [c] + [] == m && kept + [] == kept;
    Expire(l, kept, c, []);
  }

  /** A last store of full length fits the small cache, but costs the large one its oldest entry. */
  lemma StoreTipsOver(small: Limits, large: Limits, olds: Lru, kept: Lru, key: string, len: nat)
    requires small.total == large.total && small.entry == large.entry && len <= large.entry && len <= large.total && |key| < KEY_MAX
    requires kept != [] && |kept| < small.entries && 0 < large.entries && UniqueKeys(kept + olds)
    requires forall e :: e in kept + olds ==> e.key != key
    requires Bytes(kept) + len <= large.total < Bytes(kept) + Bytes(olds) + len
    ensures var op := Op.Store(key, Repeat('x', len), 10, 1, true);
            && kept[0] in Step(On(small, kept), op).lru
            && forall e :: e in Step(On(large, kept + olds), op).lru ==> e.key != kept[0].key
  {
    hide Bytes, EvictToFit, Without;
    var m, e := kept + olds, Entry(key, Repeat('x', len), 11);
    forall i | 0 <= i < |kept| ensures kept[i].key != key { assert kept[i] in m; }
    forall i | 0 <= i < |m| ensures m[i].key != key { assert m[i] in m; }
    WithoutAbsent(kept, key);
    WithoutAbsent(m, key);
    var k := EvictsShortestPrefix(small, kept, len);
    assert kept[0..] == kept;
    var n := EvictsShortestPrefix(large, m, len);
    BytesConcat(kept, olds);
    assert m[0..] == m;
    assert n > 0;
    forall i | 0 <= i < |m[n..]| ensures m[n..][i].key != kept[0].key { assert m[n..][i] == m[n + i] && m[0] == kept[0]; }
    assert kept[0] in m;
  }

  /** The failing half: with 1 < N < M and a byte bound that M full entries exceed, some run leaves an entry in
      the small cache that the large one has lost, and a lookup hits the one and misses the other. */
  lemma SomeRunBreaks(small: Limits, large: Limits) returns (ops: seq<Op>, key: string)
    requires Accepted(large) && small == large.(entries := small.entries) && 1 < small.entries < large.entries
    requires large.entries * Longest(large) > large.total
    ensures OnlyUses(ops) && !Included(small, large, ops)
    ensures Answer(Run(On(small, []), ops), key, 2, true).Some? && Answer(Run(On(large, []), ops), key, 2, true).None?
  {
    hide Run, Step, Bytes, Dec, Get;
    var len, n := Longest(large), large.entries - 1;
    var full := FullEntries(large);
    var all, c := Items(0, n, full, len), Entry(Dec(n), "", 1);
    var olds, kept := Items(0, large.entries - small.entries, full, len), Items(large.entries - small.entries, n, full, len);
    assert all == olds + kept;
    FillingIsTaken(large, full, len, c);
    PreludeLarge(large, olds, kept, c);
    PreludeSmall(small, olds, kept, c);
    PreludeUses(olds, kept, c);
    FreshKey(large, all, kept + olds, full, len);
    DecMonotone(large.entries, large.entries);
    ItemsBytes(n, full, len);
    ItemsBytes(|olds|, full, len);
    BytesConcat(olds, kept);
    MulMonotone(1, AtMost(|olds|, full), len);
    UniqueParts(olds, kept, c);
    StoreTipsOver(small, large, olds, kept, Dec(large.entries), len);
    var op := Op.Store(Dec(large.entries), Repeat('x', len), 10, 1, true);
    ops := Prelude(olds, kept, c) + [op];
    RunLast(On(small, []), Prelude(olds, kept, c), op);
    RunLast(On(large, []), Prelude(olds, kept, c), op);
    RunKeepsLimits(small, ops);
    RunKeepsLimits(large, ops);
    assert kept[0] in Held(small, ops) && kept[0] !in Held(large, ops);
    key := kept[0].key;
    OneEntryPerKey(Held(small, ops), kept[0]);
    GetIsMember(Held(large, ops), key);
  }

  /** How many full entries the byte bound admits: at least one, fewer than the entry bound. */
  lemma FullEntries(l: Limits) returns (full: nat)
    requires 0 < l.entry && 0 < l.total && l.entries * Longest(l) > l.total
    ensures 0 < full < l.entries && full * Longest(l) <= l.total < full * Longest(l) + Longest(l)
  {
    var len := Longest(l);
    full := l.total / len;
    assert full * len <= l.total < full * len + len;
    if full >= l.entries { MulMonotone(l.entries, full, len); }
  }

  lemma UniqueParts(olds: Lru, kept: Lru, c: Entry)
    requires UniqueKeys(olds + kept + [c])
    ensures UniqueKeys(kept + olds)
  {
    var es, m := olds + kept + [c], olds + kept;
    forall i, j | 0 <= i < j < |m| ensures m[i].key != m[j].key { assert m[i] == es[i] && m[j] == es[j]; }
    UniqueRotated(olds, kept);
  }

  lemma FreshKey(l: Limits, all: Lru, m: Lru, full: nat, len: nat)
    requires 0 < l.entries && all == Items(0, l.entries - 1, full, len) && forall e :: e in m ==> e in all
    ensures forall e :: e in m ==> e.key != Dec(l.entries)
  {
    forall e | e in m ensures e.key != Dec(l.entries) {
      var i :| 0 <= i < |all| && all[i] == e;
      DecValueOfDec(i);
      DecValueOfDec(l.entries);
    }
  }

  // ---------- exactly when ----------

  /** Two caches that differ in their entry bound only: the larger holds, after every run of lookups and stores,
      whatever the smaller holds, if and only if the smaller has one entry, or they are the same, or the byte
      bound has room for as many entries of the greatest length as the larger may hold. */
  lemma InclusionExactly(small: Limits, large: Limits)
    requires Accepted(large) && small == large.(entries := small.entries) && 0 < small.entries <= large.entries
    ensures AlwaysIncluded(small, large) <==>
            small.entries == 1 || small.entries == large.entries || large.entries * Longest(large) <= large.total
  {
    if small.entries == 1 || small.entries == large.entries || large.entries * Longest(large) <= large.total {
      forall ops | OnlyUses(ops) ensures Included(small, large, ops) {
        if small.entries == 1 {
          SingleIncluded(small, large, ops);
        } else if small.entries < large.entries {
          RoomyIncluded(small, large, ops);
        }
      }
    } else {
      var ops, key := SomeRunBreaks(small, large);
    }
  }

  /** At the smallest entry bounds for which it can fail: two entries keep what three lose. */
  lemma BeladyAnomalyUnderBytePressure() returns (ops: seq<Op>, key: string)
    ensures OnlyUses(ops)
    ensures Answer(Run(On(Limits(2, 4, 3), []), ops), key, 2, true).Some?
    ensures Answer(Run(On(Limits(3, 4, 3), []), ops), key, 2, true).None?
  {
    hide Run;
    DecLength(3);
    ops, key := SomeRunBreaks(Limits(2, 4, 3), Limits(3, 4, 3));
  }

  lemma RoomyIncluded(small: Limits, large: Limits, ops: seq<Op>)
    requires Accepted(large) && small == large.(entries := small.entries) && 1 < small.entries < large.entries
    requires large.entries * Longest(large) <= large.total && OnlyUses(ops)
    ensures Included(small, large, ops)
  {
    MulMonotone(2, large.entries, Longest(large));
    MulMonotone(small.entries, large.entries, large.entry);
    RoomyNeverPressed(small, ops);
    RoomyNeverPressed(large, ops);
    NoBeladyAnomaly(small, large, ops);
  }
}
