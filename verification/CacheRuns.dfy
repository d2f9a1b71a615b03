/** Whole runs of the response cache: any sequence of init, destroy, lookup and store calls
    (each one critical section of src/cache.c). */
module CacheRuns {
  import opened LruSpec
  import opened Text
  import ResponseCache

  datatype Op =
    | Init(limits: Limits, granted: bool)
    | Destroy
    | Lookup(key: string, now: int, copied: bool)
    | Store(key: string, data: string, ttl: nat, now: int, copied: bool)

  datatype State = Off | On(limits: Limits, lru: Lru)

  predicate Resets(op: Op) {
    op.Destroy? || (op.Init? && op.granted && op.limits.entries > 0 && op.limits.total > 0 && op.limits.entry > 0)
  }

  function Step(s: State, op: Op): State {
    if Resets(op) then (if op.Destroy? then Off else On(op.limits, []))
    else if s.Off? then Off
    else match op
      case Lookup(key, now, copied) => On(s.limits, LruSpec.Lookup(s.lru, key, now, copied).0)
      case Store(key, data, ttl, now, copied) => On(s.limits, LruSpec.Store(s.limits, s.lru, key, data, ttl, now, copied))
      case _ => s
  }

  /** What a lookup returns in state `s`. */
  function Answer(s: State, key: string, now: int, copied: bool): Option<string> {
    if s.Off? then None else LruSpec.Lookup(s.lru, key, now, copied).1
  }

  predicate Stores(s: State, op: Op, key: string) {
    op.Store? && op.key == key && s.On? && Storable(s.limits, op.key, op.data, op.ttl, op.copied)
  }

  function Run(s: State, ops: seq<Op>): State {
    if ops == [] then s else Step(Run(s, ops[..|ops| - 1]), ops[|ops| - 1])
  }

  lemma {:induction false} RunConcat(s: State, a: seq<Op>, b: seq<Op>)
    ensures Run(Run(s, a), b) == Run(s, a + b)
    decreases |b|
  {
    hide Step;
    var n := |b| - 1;
    if b == [] {
      assert a + b == a;
    } else {
      RunConcat(s, a, b[..n]);
      assert (a + b)[..|a + b| - 1] == a + b[..n];
    }
  }

  lemma RunLast(s: State, ops: seq<Op>, op: Op)
    ensures Run(s, ops + [op]) == Step(Run(s, ops), op)
  {
    assert (ops + [op])[..|ops|] == ops;
  }

  // ---------- the slot array refines the recency-ordered list, over every run ----------

  ghost function StateOf(c: ResponseCache.Cache): State
    reads c
  {
    if c.entries == null then Off else On(c.limits, c.contents)
  }

  method Perform(c: ResponseCache.Cache, op: Op) returns (answer: Option<string>)
    requires c.Valid()
    modifies c, c.entries
    ensures c.Valid() && (c.entries == old(c.entries) || c.entries == null || fresh(c.entries))
    ensures StateOf(c) == Step(old(StateOf(c)), op)
    ensures op.Lookup? ==> answer == Answer(old(StateOf(c)), op.key, op.now, op.copied)
  {
    hide ResponseCache.Ordered, ResponseCache.View, Bounded;
    answer := None;
    match op
    case Init(limits, granted) => var _ := c.Init(limits, granted);
    case Destroy => c.Destroy();
    case Lookup(key, now, copied) => answer := c.Lookup(key, now, copied);
    case Store(key, data, ttl, now, copied) => var _ := c.Store(key, data, ttl, now, copied);
  }

  /** Runs `ops` on a fresh slot array. */
  method Execute(ops: seq<Op>) returns (c: ResponseCache.Cache, answers: seq<Option<string>>)
    ensures c.Valid() && StateOf(c) == Run(Off, ops)
    ensures |answers| == |ops|
    ensures forall n :: 0 <= n < |ops| && ops[n].Lookup? ==>
              answers[n] == Answer(Run(Off, ops[..n]), ops[n].key, ops[n].now, ops[n].copied)
  {
    hide ResponseCache.Ordered, ResponseCache.View, Bounded;
    c := new ResponseCache.Cache();
    answers := [];
    for i := 0 to |ops|
      invariant fresh(c) && c.Valid() && (c.entries == null || fresh(c.entries))
      invariant StateOf(c) == Run(Off, ops[..i])
      invariant |answers| == i
      invariant forall n :: 0 <= n < i && ops[n].Lookup? ==>
                  answers[n] == Answer(Run(Off, ops[..n]), ops[n].key, ops[n].now, ops[n].copied)
    {
      assert ops[..i + 1][..i] == ops[..i];
      var answer := Perform(c, ops[i]);
      answers := answers + [answer];
    }
    assert ops[..|ops|] == ops;
  }

  // ---------- what a lookup can return ----------

  /** Index of the last successful store of `key` since the cache was last emptied. */
  function LastStore(ops: seq<Op>, key: string): (i: Option<nat>)
    ensures i.Some? ==> i.value < |ops| && ops[i.value].Store?
  {
    if ops == [] then None
    else
      var n := |ops| - 1;
      if Stores(Run(Off, ops[..n]), ops[n], key) then Some(n)
      else if Resets(ops[n]) then None
      else LastStore(ops[..n], key)
  }

  lemma {:induction false} RunBounded(ops: seq<Op>)
    ensures Run(Off, ops).On? ==> Run(Off, ops).limits.entries > 0 && Bounded(Run(Off, ops).limits, Run(Off, ops).lru)
  {
    if ops != [] {
      var n := |ops| - 1;
      RunBounded(ops[..n]);
      var s := Run(Off, ops[..n]);
      if s.On? {
        match ops[n]
        case Lookup(key, now, copied) => LookupKeepsBounded(s.limits, s.lru, key, now, copied);
        case Store(key, data, ttl, now, copied) => StoreKeepsBounded(s.limits, s.lru, key, data, ttl, now, copied);
        case _ =>
      }
    }
  }

  lemma {:induction false} EvictKeepsMembers(l: Limits, m: Lru, len: nat)
    ensures forall e :: e in EvictToFit(l, m, len) ==> e in m
  {
    if m != [] { EvictKeepsMembers(l, m[1..], len); }
  }

  /** Every live entry is the last successful store of its key. */
  lemma {:induction false} LiveIsLastStore(ops: seq<Op>, e: Entry)
    requires Run(Off, ops).On? && e in Run(Off, ops).lru
    ensures LastStore(ops, e.key).Some?
    ensures var op := ops[LastStore(ops, e.key).value];
            op.key == e.key && op.data == e.data && e.expires == Expiry(op.now, op.ttl)
  {
    var n := |ops| - 1;
    var s := Run(Off, ops[..n]);
    match ops[n]
    case Lookup(key, _, _) =>
      WithoutShrinks(s.lru, key);
      GetIsMember(s.lru, key);
      LiveIsLastStore(ops[..n], e);
    case Store(key, data, ttl, now, copied) =>
      WithoutShrinks(s.lru, key);
      EvictKeepsMembers(s.limits, Without(s.lru, key), |data|);
      if !(Stores(s, ops[n], key) && e == Entry(key, data, Expiry(now, ttl))) {
        LiveIsLastStore(ops[..n], e);
      }
    case Init(_, _) =>
      if !Resets(ops[n]) { LiveIsLastStore(ops[..n], e); }
    case Destroy =>
  }

  ghost predicate Resident(s: State, key: string) {
    s.On? && exists e :: e in s.lru && e.key == key
  }

  /** A lookup answers with exactly the bytes of the last successful store of that key, if that store is still resident and
      its time to live, at most an hour, has not passed; otherwise it misses. */
  lemma LookupIsLastStore(ops: seq<Op>, key: string, now: int)
    ensures var s, i := Run(Off, ops), LastStore(ops, key);
            Answer(s, key, now, true) ==
            if i.Some? && Resident(s, key) && now < ops[i.value].now + (if ops[i.value].ttl > 3600 then 3600 else ops[i.value].ttl)
            then Some(ops[i.value].data) else None
  {
    var s := Run(Off, ops);
    if s.On? {
      GetIsMember(s.lru, key);
      if e :| e in s.lru && e.key == key {
        assert Get(s.lru, key).Some?;
        LiveIsLastStore(ops, Get(s.lru, key).value);
      }
    }
  }

  // ---------- LRU keeps what was used recently ----------

  /** Key `key` is live and everything more recent is in `used`. */
  ghost predicate RecentSince(m: Lru, key: string, used: set<string>) {
    m != [] && ((m[0].key == key && AllIn(m[1..], used)) || RecentSince(m[1..], key, used))
  }

  ghost predicate AllIn(m: Lru, keys: set<string>) {
    forall e :: e in m ==> e.key in keys
  }

  /** No byte pressure: dropping at most the one entry that the entry bound demands leaves room. */
  predicate NoBytePressure(s: State, op: Op) {
    s.On? && op.Store? && |op.data| <= s.limits.entry ==>
      |op.data| + Bytes(DropForCount(s.limits, Without(s.lru, op.key))) <= s.limits.total
  }

  function DropForCount(l: Limits, m: Lru): Lru {
    if m != [] && |m| >= l.entries then m[1..] else m
  }

  lemma EvictByCount(l: Limits, m: Lru, len: nat)
    requires 0 < l.entries && |m| <= l.entries && len + Bytes(DropForCount(l, m)) <= l.total
    ensures EvictToFit(l, m, len) == DropForCount(l, m)
  {
    if |m| >= l.entries {
      assert !Fits(l, m, len) && EvictToFit(l, m, len) == EvictToFit(l, m[1..], len);
    }
  }

  ghost predicate OnlyUses(ops: seq<Op>) {
    forall i :: 0 <= i < |ops| ==> ops[i].Lookup? || ops[i].Store?
  }

  ghost function KeysOf(ops: seq<Op>): set<string>
    requires OnlyUses(ops)
  {
    if ops == [] then {} else KeysOf(ops[..|ops| - 1]) + {ops[|ops| - 1].key}
  }

  ghost predicate NeverPressed(s: State, ops: seq<Op>) {
    ops != [] ==> var n := |ops| - 1;
                  NeverPressed(s, ops[..n]) && NoBytePressure(Run(s, ops[..n]), ops[n])
  }

  /** A lookup of `key` that finds it expired removes it. */
  predicate Expires(s: State, op: Op, key: string) {
    s.On? && op.Lookup? && op.key == key && Get(s.lru, key).Some? && Get(s.lru, key).value.expires <= op.now
  }

  ghost predicate NeverExpires(s: State, ops: seq<Op>, key: string) {
    ops != [] ==> var n := |ops| - 1;
                  NeverExpires(s, ops[..n], key) && !Expires(Run(s, ops[..n]), ops[n], key)
  }

  lemma {:induction false} KeysAtMost(m: Lru, keys: set<string>)
    requires UniqueKeys(m) && AllIn(m, keys)
    ensures |m| <= |keys|
  {
    if m != [] {
      var n := |m| - 1;
      forall e | e in m[..n] ensures e.key in keys - {m[n].key} {
        var i :| 0 <= i < n && m[i] == e;
      }
      assert m[n] in m;
      KeysAtMost(m[..n], keys - {m[n].key});
    }
  }

  lemma {:induction false} RecentWithout(m: Lru, key: string, used: set<string>, other: string)
    requires RecentSince(m, key, used) && other != key
    ensures RecentSince(Without(m, other), key, used - {other})
  {
    var w := Without(m[1..], other);
    WithoutShrinks(m[1..], other);
    if m[0].key == key && AllIn(m[1..], used) {
      assert ([m[0]] + w)[1..] == w;
    } else {
      RecentWithout(m[1..], key, used, other);
      if m[0].key != other { assert ([m[0]] + w)[1..] == w; }
    }
  }

  lemma {:induction false} RecentAppend(m: Lru, key: string, used: set<string>, e: Entry)
    requires e.key == key || RecentSince(m, key, used)
    ensures RecentSince(m + [e], key, used + ({e.key} - {key}))
  {
    if m == [] {
      assert m + [e] == [e];
    } else {
      assert (m + [e])[1..] == m[1..] + [e];
      if e.key == key || !(m[0].key == key && AllIn(m[1..], used)) {
        RecentAppend(m[1..], key, used, e);
      }
    }
  }

  /** Counting out entries never reaches a key with fewer than `l.entries` keys used since. */
  lemma RecentSurvivesCount(l: Limits, m: Lru, key: string, used: set<string>)
    requires UniqueKeys(m) && RecentSince(m, key, used) && |used| + 1 < l.entries
    ensures RecentSince(DropForCount(l, m), key, used)
  {
    if m[0].key == key && AllIn(m[1..], used) {
      KeysAtMost(m[1..], used);
    }
  }

  lemma {:induction false} RecentMonotone(m: Lru, key: string, used: set<string>, more: set<string>)
    requires RecentSince(m, key, used) && used <= more
    ensures RecentSince(m, key, more)
  {
    if !(m[0].key == key && AllIn(m[1..], used)) { RecentMonotone(m[1..], key, used, more); }
  }

  lemma StoreKeepsRecent(l: Limits, m: Lru, op: Op, key: string, used: set<string>)
    requires UniqueKeys(m) && |m| <= l.entries && RecentSince(m, key, used) && key !in used
    requires op.Store? && Storable(l, op.key, op.data, op.ttl, op.copied) && NoBytePressure(On(l, m), op)
    requires |used + ({op.key} - {key})| < l.entries
    ensures RecentSince(Step(On(l, m), op).lru, key, used + ({op.key} - {key}))
  {
    hide Step, RecentSince, Bytes, UniqueKeys, Without, EvictToFit, DropForCount;
    UsedAfter(used, op.key, key);
    var w := Without(m, op.key);
    WithoutShrinks(m, op.key);
    EvictByCount(l, w, |op.data|);
    StepStores(l, m, op);
    if op.key != key { OthersKeepRecent(l, m, key, used, op.key); }
    RecentAppend(DropForCount(l, w), key, used - {op.key}, Entry(op.key, op.data, Expiry(op.now, op.ttl)));
  }

  lemma UsedAfter(used: set<string>, k: string, key: string)
    ensures (used - {k}) + ({k} - {key}) == used + ({k} - {key}) || key in used
    ensures k != key ==> used + ({k} - {key}) == used + {k}
  {
    if k == key { assert {k} - {key} == {}; assert key !in used ==> used - {k} == used; }
  }

  lemma OthersKeepRecent(l: Limits, m: Lru, key: string, used: set<string>, other: string)
    requires UniqueKeys(m) && RecentSince(m, key, used) && other != key && |used + {other}| < l.entries
    ensures RecentSince(DropForCount(l, Without(m, other)), key, used - {other})
  {
    hide RecentSince, UniqueKeys, Without, DropForCount;
    WithoutShrinks(m, other);
    RecentWithout(m, key, used, other);
    OthersAtMost(used, other);
    RecentSurvivesCount(l, Without(m, other), key, used - {other});
  }

  lemma OthersAtMost(used: set<string>, key: string)
    ensures |used - {key}| + 1 == |used + {key}|
  {
    assert used + {key} == (used - {key}) + {key};
  }

  lemma LookupKeepsRecent(l: Limits, m: Lru, op: Op, key: string, used: set<string>)
    requires RecentSince(m, key, used) && op.Lookup? && !Expires(On(l, m), op, key)
    ensures RecentSince(Step(On(l, m), op).lru, key, used + ({op.key} - {key}))
  {
    hide RecentSince, Bytes, Without;
    var used' := used + ({op.key} - {key});
    RecentMonotone(m, key, used, used');
    if Get(m, op.key).Some? {
      GetIsMember(m, op.key);
      var w := Without(m, op.key);
      if op.key != key {
        RecentWithout(m, key, used, op.key);
        RecentMonotone(w, key, used - {op.key}, used');
      }
      RecentAppend(w, key, used', Get(m, op.key).value);
      assert used' + ({op.key} - {key}) == used';
    }
  }

  lemma StepKeepsRecent(l: Limits, m: Lru, op: Op, key: string, used: set<string>)
    requires Bounded(l, m) && RecentSince(m, key, used) && key !in used
    requires (op.Lookup? || op.Store?) && |used + ({op.key} - {key})| < l.entries
    requires NoBytePressure(On(l, m), op) && !Expires(On(l, m), op, key)
    ensures RecentSince(Step(On(l, m), op).lru, key, used + ({op.key} - {key}))
  {
    hide RecentSince, Bytes, Get;
    if op.Lookup? {
      LookupKeepsRecent(l, m, op, key, used);
    } else if Storable(l, op.key, op.data, op.ttl, op.copied) {
      StoreKeepsRecent(l, m, op, key, used);
    } else {
      RecentMonotone(m, key, used, used + ({op.key} - {key}));
    }
  }

  lemma {:induction false} RecentIsMember(m: Lru, key: string, used: set<string>)
    requires RecentSince(m, key, used)
    ensures exists e :: e in m && e.key == key
  {
    if m[0].key == key {
      assert m[0] in m;
    } else {
      RecentIsMember(m[1..], key, used);
    }
  }

  /** LRU residency: while fewer than `entries` other keys are touched, with no byte pressure and
      no expiry, a key that was just used stays live. */
  lemma {:induction false} RecentlyUsedStays(l: Limits, m: Lru, ops: seq<Op>, key: string)
    requires Bounded(l, m) && RecentSince(m, key, {})
    requires OnlyUses(ops) && |KeysOf(ops) - {key}| < l.entries
    requires NeverPressed(On(l, m), ops) && NeverExpires(On(l, m), ops, key)
    ensures Resident(Run(On(l, m), ops), key)
    ensures Run(On(l, m), ops).limits == l && Bounded(l, Run(On(l, m), ops).lru)
    ensures RecentSince(Run(On(l, m), ops).lru, key, KeysOf(ops) - {key})
  {
    var s := Run(On(l, m), ops);
    if ops != [] {
      var n := |ops| - 1;
      var before := Run(On(l, m), ops[..n]);
      var used := KeysOf(ops[..n]) - {key};
      assert KeysOf(ops) - {key} == used + ({ops[n].key} - {key});
      SubsetAtMost(used, KeysOf(ops) - {key});
      RecentlyUsedStays(l, m, ops[..n], key);
      StepKeepsRecent(l, before.lru, ops[n], key, used);
      match ops[n]
      case Lookup(k, now, copied) => LookupKeepsBounded(l, before.lru, k, now, copied);
      case Store(k, data, ttl, now, copied) => StoreKeepsBounded(l, before.lru, k, data, ttl, now, copied);
    }
    RecentIsMember(s.lru, key, KeysOf(ops) - {key});
  }

  lemma {:induction false} SubsetAtMost(a: set<string>, b: set<string>)
    requires a <= b
    ensures |a| <= |b|
  {
    if a != {} {
      var x :| x in a;
      SubsetAtMost(a - {x}, b - {x});
    }
  }

  // ---------- a larger cache never loses what a smaller one keeps ----------

  /** `a` is a subsequence of `b`. */
  ghost predicate Sub(a: Lru, b: Lru) {
    a == [] || (b != [] && ((a[0] == b[0] && Sub(a[1..], b[1..])) || Sub(a, b[1..])))
  }

  lemma {:induction false} SubMembers(a: Lru, b: Lru)
    requires Sub(a, b)
    ensures |a| <= |b| && forall e :: e in a ==> e in b
  {
    if a != [] {
      if a[0] == b[0] && Sub(a[1..], b[1..]) {
        SubMembers(a[1..], b[1..]);
        assert forall e :: e in a ==> e == a[0] || e in a[1..];
      } else {
        SubMembers(a, b[1..]);
      }
    }
  }

  lemma {:induction false} SubTail(a: Lru, b: Lru)
    requires Sub(a, b) && a != []
    ensures Sub(a[1..], b) && Sub(a[1..], b[1..])
  {
    if !(a[0] == b[0] && Sub(a[1..], b[1..])) {
      SubTail(a, b[1..]);
    }
  }

  lemma {:induction false} SubWithout(a: Lru, b: Lru, key: string)
    requires Sub(a, b)
    ensures Sub(Without(a, key), Without(b, key))
  {
    if a != [] {
      if a[0] == b[0] && Sub(a[1..], b[1..]) {
        SubWithout(a[1..], b[1..], key);
        if b[0].key != key {
          assert Without(a, key)[1..] == Without(a[1..], key) && Without(b, key)[1..] == Without(b[1..], key);
        }
      } else {
        SubWithout(a, b[1..], key);
        if b[0].key != key { assert Without(b, key)[1..] == Without(b[1..], key); }
      }
    }
  }

  lemma {:induction false} SubAppend(a: Lru, b: Lru, e: Entry)
    requires Sub(a, b)
    ensures Sub(a, b + [e]) && Sub(a + [e], b + [e])
  {
    if b == [] {
      assert a + [e] == [e] && b + [e] == [e];
    } else {
      assert (b + [e])[1..] == b[1..] + [e];
      if a == [] {
        SubAppend(a, b[1..], e);
      } else if a[0] == b[0] && Sub(a[1..], b[1..]) {
        SubAppend(a[1..], b[1..], e);
        assert (a + [e])[1..] == a[1..] + [e];
      } else {
        SubAppend(a, b[1..], e);
      }
    }
  }

  /** The lists agree in order, and the small cache has no more free places than the large one. */
  ghost predicate Dominated(small: Limits, a: Lru, large: Limits, b: Lru) {
    && Bounded(small, a) && Bounded(large, b)
    && Sub(a, b) && small.entries - |a| <= large.entries - |b|
  }

  lemma LookupKeepsDominated(small: Limits, a: Lru, large: Limits, b: Lru, key: string, now: int, copied: bool)
    requires Dominated(small, a, large, b)
    ensures Dominated(small, LruSpec.Lookup(a, key, now, copied).0, large, LruSpec.Lookup(b, key, now, copied).0)
    ensures LruSpec.Lookup(a, key, now, copied).1.Some? ==>
              LruSpec.Lookup(b, key, now, copied).1 == LruSpec.Lookup(a, key, now, copied).1
  {
    LookupKeepsBounded(small, a, key, now, copied);
    LookupKeepsBounded(large, b, key, now, copied);
    SubMembers(a, b);
    SubWithout(a, b, key);
    SizeWithout(a, key);
    SizeWithout(b, key);
    GetIsMember(a, key);
    GetIsMember(b, key);
    if Get(a, key).Some? {
      OneEntryPerKey(b, Get(a, key).value);
      SubAppend(Without(a, key), Without(b, key), Get(a, key).value);
    } else {
      WithoutAbsent(a, key);
      if Get(b, key).Some? { SubAppend(a, Without(b, key), Get(b, key).value); }
    }
  }

  lemma SizeWithout(m: Lru, key: string)
    requires UniqueKeys(m)
    ensures |Without(m, key)| == |m| - if Get(m, key).Some? then 1 else 0
  {
    GetIsMember(m, key);
    if Get(m, key).Some? {
      var k :| 0 <= k < |m| && m[k] == Get(m, key).value;
      AtPosition(m, k);
    } else {
      WithoutAbsent(m, key);
    }
  }

  lemma OneEntryPerKey(m: Lru, e: Entry)
    requires UniqueKeys(m) && e in m
    ensures Get(m, e.key) == Some(e)
  {
    var k :| 0 <= k < |m| && m[k] == e;
    AtPosition(m, k);
  }

  lemma StoreKeepsDominated(small: Limits, a: Lru, large: Limits, b: Lru, op: Op)
    requires Dominated(small, a, large, b) && 0 < small.entries <= large.entries && small.entry == large.entry
    requires op.Store? && NoBytePressure(On(small, a), op) && NoBytePressure(On(large, b), op)
    ensures Dominated(small, Step(On(small, a), op).lru, large, Step(On(large, b), op).lru)
  {
    StoreKeepsBounded(small, a, op.key, op.data, op.ttl, op.now, op.copied);
    StoreKeepsBounded(large, b, op.key, op.data, op.ttl, op.now, op.copied);
    if Storable(small, op.key, op.data, op.ttl, op.copied) {
      var u, v := Without(a, op.key), Without(b, op.key);
      SubWithout(a, b, op.key);
      SizeWithout(a, op.key);
      SizeWithout(b, op.key);
      SubMembers(a, b);
      GetIsMember(a, op.key);
      GetIsMember(b, op.key);
      EvictByCount(small, u, |op.data|);
      EvictByCount(large, v, |op.data|);
      if u != [] { SubTail(u, v); }
      SubAppend(DropForCount(small, u), DropForCount(large, v), Entry(op.key, op.data, Expiry(op.now, op.ttl)));
    }
  }

  /** No Belady anomaly: with byte bounds that never bind, every entry live in the smaller cache is
      live in the larger one after the same run, and every hit of the smaller is the same hit. */
  lemma {:induction false} NoBeladyAnomaly(small: Limits, large: Limits, ops: seq<Op>)
    requires 0 < small.entries <= large.entries && small.entry == large.entry
    requires OnlyUses(ops) && NeverPressed(On(small, []), ops) && NeverPressed(On(large, []), ops)
    ensures var a, b := Run(On(small, []), ops), Run(On(large, []), ops);
            && a.On? && b.On? && a.limits == small && b.limits == large
            && Dominated(small, a.lru, large, b.lru)
            && (forall e :: e in a.lru ==> e in b.lru)
            && forall key, now, copied :: Answer(a, key, now, copied).Some? ==>
                 Answer(b, key, now, copied) == Answer(a, key, now, copied)
  {
    if ops != [] {
      var n := |ops| - 1;
      NoBeladyAnomaly(small, large, ops[..n]);
      var a, b := Run(On(small, []), ops[..n]), Run(On(large, []), ops[..n]);
      match ops[n]
      case Lookup(key, now, copied) => LookupKeepsDominated(small, a.lru, large, b.lru, key, now, copied);
      case Store(_, _, _, _, _) => StoreKeepsDominated(small, a.lru, large, b.lru, ops[n]);
    }
    var a, b := Run(On(small, []), ops), Run(On(large, []), ops);
    SubMembers(a.lru, b.lru);
    forall key, now, copied | Answer(a, key, now, copied).Some?
      ensures Answer(b, key, now, copied) == Answer(a, key, now, copied)
    {
      LookupKeepsDominated(small, a.lru, large, b.lru, key, now, copied);
    }
  }

  lemma {:induction false} BytesAtMost(m: Lru, cap: nat)
    requires forall e :: e in m ==> |e.data| <= cap
    ensures Bytes(m) <= |m| * cap
  {
    if m != [] { BytesAtMost(m[1..], cap); }
  }

  /** A total bound of `entries` full entries never binds... */
  lemma {:induction false} RoomyFrom(l: Limits, m: Lru, ops: seq<Op>)
    requires 0 < l.entries && l.entries * l.entry <= l.total && OnlyUses(ops) && Bounded(l, m)
    ensures NeverPressed(On(l, m), ops)
    ensures Run(On(l, m), ops).On? && Run(On(l, m), ops).limits == l && Bounded(l, Run(On(l, m), ops).lru)
  {
    if ops != [] {
      var n := |ops| - 1;
      RoomyFrom(l, m, ops[..n]);
      var m' := Run(On(l, m), ops[..n]).lru;
      match ops[n]
      case Lookup(key, now, copied) => LookupKeepsBounded(l, m', key, now, copied);
      case Store(key, data, ttl, now, copied) =>
        StoreKeepsBounded(l, m', key, data, ttl, now, copied);
        RoomForOneMore(l, m', key);
    }
  }

  /** ...on any run. */
  lemma RoomyNeverPressed(l: Limits, ops: seq<Op>)
    requires 0 < l.entries && l.entries * l.entry <= l.total && OnlyUses(ops)
    ensures NeverPressed(On(l, []), ops)
    ensures Run(On(l, []), ops).On? && Run(On(l, []), ops).limits == l && Bounded(l, Run(On(l, []), ops).lru)
  {
    RoomyFrom(l, [], ops);
  }

  lemma RoomForOneMore(l: Limits, m: Lru, key: string)
    requires Bounded(l, m) && 0 < l.entries && l.entries * l.entry <= l.total
    ensures Bytes(DropForCount(l, Without(m, key))) + l.entry <= l.total
  {
    WithoutShrinks(m, key);
    hide UniqueKeys, Bytes, Without;
    var kept := DropForCount(l, Without(m, key));
    BytesAtMost(kept, l.entry);
    MulMonotone(|kept| + 1, l.entries, l.entry);
  }

  lemma MulMonotone(a: nat, b: nat, c: nat)
    requires a <= b
    ensures a * c <= b * c
  {
  }

  // ---------- a stored key stays ----------

  /** Every lookup of the key is made before the deadline, and every store of it lasts at least as long. */
  ghost predicate Timely(ops: seq<Op>, key: string, deadline: int) {
    forall i :: 0 <= i < |ops| && (ops[i].Lookup? || ops[i].Store?) && ops[i].key == key ==>
                  if ops[i].Lookup? then ops[i].now < deadline else Expiry(ops[i].now, ops[i].ttl) >= deadline
  }

  ghost predicate StoresNo(ops: seq<Op>, key: string) { forall i :: 0 <= i < |ops| && ops[i].Store? ==> ops[i].key != key }

  /** Whatever the cache holds under the key lasts until the deadline. */
  ghost predicate Lasting(m: Lru, key: string, deadline: int) { forall e :: e in m && e.key == key ==> e.expires >= deadline }

  lemma StepMembers(l: Limits, m: Lru, op: Op, e: Entry)
    requires (op.Lookup? || op.Store?) && e in Step(On(l, m), op).lru
    ensures e in m || (op.Store? && e == Entry(op.key, op.data, Expiry(op.now, op.ttl)))
  {
    WithoutShrinks(m, op.key);
    GetIsMember(m, op.key);
    if op.Store? { EvictKeepsMembers(l, Without(m, op.key), |op.data|); }
  }

  lemma {:induction false} LastsOverRun(l: Limits, m: Lru, ops: seq<Op>, key: string, deadline: int, x: Entry)
    requires OnlyUses(ops) && Timely(ops, key, deadline) && Lasting(m, key, deadline)
    ensures NeverExpires(On(l, m), ops, key) && Run(On(l, m), ops).On? && Run(On(l, m), ops).limits == l
    ensures Lasting(Run(On(l, m), ops).lru, key, deadline)
    ensures StoresNo(ops, key) && x in Run(On(l, m), ops).lru && x.key == key ==> x in m
  {
    if ops != [] {
      var n := |ops| - 1;
      LastsOverRun(l, m, ops[..n], key, deadline, x);
      var before := Run(On(l, m), ops[..n]).lru;
      GetIsMember(before, key);
      forall e | e in Run(On(l, m), ops).lru && e.key == key ensures e.expires >= deadline {
        StepMembers(l, before, ops[n], e);
      }
      if x in Run(On(l, m), ops).lru { StepMembers(l, before, ops[n], x); }
    }
  }

  /** With a roomy byte bound, after any run: a stored key is answered until its deadline as long as fewer than
      `entries` other keys are used, and with the bytes that were stored unless it is stored again. */
  lemma StoredKeyStays(l: Limits, before: seq<Op>, op: Op, after: seq<Op>, deadline: int, now: int)
    requires 0 < l.entries && l.entries * l.entry <= l.total && OnlyUses(before) && OnlyUses(after)
    requires op.Store? && Storable(l, op.key, op.data, op.ttl, op.copied) && Expiry(op.now, op.ttl) >= deadline > now
    requires Timely(after, op.key, deadline) && |KeysOf(after) - {op.key}| < l.entries
    ensures var answer := Answer(Run(On(l, []), before + [op] + after), op.key, now, true);
            answer.Some? && (StoresNo(after, op.key) ==> answer == Some(op.data))
  {
    hide Run, NeverPressed, NeverExpires, RecentSince, KeysOf, Timely, StoresNo, Bounded;
    var m := StoredLast(l, before, op);
    RunConcat(On(l, []), before + [op], after);
    RoomyFrom(l, m, after);
    var e := Entry(op.key, op.data, Expiry(op.now, op.ttl));
    LastsOverRun(l, m, after, op.key, deadline, e);
    RecentlyUsedStays(l, m, after, op.key);
    var t := Run(On(l, m), after).lru;
    GetIsMember(t, op.key);
    LastsOverRun(l, m, after, op.key, deadline, Get(t, op.key).value);
  }

  /** A store puts its entry, and no other of its key, at the recent end. */
  lemma StoredLast(l: Limits, before: seq<Op>, op: Op) returns (m: Lru)
    requires 0 < l.entries && l.entries * l.entry <= l.total && OnlyUses(before)
    requires op.Store? && Storable(l, op.key, op.data, op.ttl, op.copied)
    ensures Run(On(l, []), before + [op]) == On(l, m) && Bounded(l, m) && RecentSince(m, op.key, {})
    ensures forall e :: e in m && e.key == op.key ==> e == Entry(op.key, op.data, Expiry(op.now, op.ttl))
  {
    hide Run, Step, RecentSince, EvictToFit, Without, Bounded, NeverPressed;
    NothingBounded(l);
    RoomyFrom(l, [], before);
    var s := Run(On(l, []), before);
    RunLast(On(l, []), before, op);
    var w := Without(s.lru, op.key);
    var kept, e := EvictToFit(l, w, |op.data|), Entry(op.key, op.data, Expiry(op.now, op.ttl));
    m := kept + [e];
    StepStores(l, s.lru, op);
    StoreKeepsBounded(l, s.lru, op.key, op.data, op.ttl, op.now, op.copied);
    WithoutShrinks(s.lru, op.key);
    EvictKeepsMembers(l, w, |op.data|);
    RecentAppend(kept, op.key, {}, e);
    assert {} + ({op.key} - {op.key}) == {};
  }

  lemma NothingBounded(l: Limits)
    ensures Bounded(l, [])
  {
  }

  lemma StepStores(l: Limits, m: Lru, op: Op)
    requires op.Store? && Storable(l, op.key, op.data, op.ttl, op.copied)
    ensures Step(On(l, m), op) == On(l, LruSpec.Store(l, m, op.key, op.data, op.ttl, op.now, op.copied))
    ensures Step(On(l, m), op).lru ==
            EvictToFit(l, Without(m, op.key), |op.data|) + [Entry(op.key, op.data, Expiry(op.now, op.ttl))]
  {
    hide EvictToFit, Without;
  }
}
