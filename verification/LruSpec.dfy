/** The response cache as a recency-ordered list of entries, least recently used first.
    This is the reference that the slot array of src/cache.c is proved to refine. */
module LruSpec {
  import opened Text

  const KEY_MAX := 2400
  const MAX_TTL := 3600

  datatype Limits = Limits(entries: nat, total: nat, entry: nat)

  datatype Entry = Entry(key: string, data: string, expires: int)

  type Lru = seq<Entry>

  /** Total payload bytes held. */
  function Bytes(m: Lru): nat {
    if m == [] then 0 else |m[0].data| + Bytes(m[1..])
  }

  ghost predicate UniqueKeys(m: Lru) {
    forall i, j :: 0 <= i < j < |m| ==> m[i].key != m[j].key
  }

  function Get(m: Lru, key: string): Option<Entry> {
    if m == [] then None else if m[0].key == key then Some(m[0]) else Get(m[1..], key)
  }

  function Without(m: Lru, key: string): Lru {
    if m == [] then []
    else if m[0].key == key then Without(m[1..], key)
    else [m[0]] + Without(m[1..], key)
  }

  function Lookup(m: Lru, key: string, now: int, copied: bool): (Lru, Option<string>) {
    match Get(m, key)
    case None => (m, None)
    case Some(e) =>
      if e.expires <= now then (Without(m, key), None)
      else if copied then (Without(m, key) + [e], Some(e.data))
      else (m, None)
  }

  predicate Fits(l: Limits, m: Lru, len: nat) {
    |m| < l.entries && Bytes(m) + len <= l.total
  }

  /** Drops least recently used entries, one at a time, until `len` more bytes fit. */
  function EvictToFit(l: Limits, m: Lru, len: nat): Lru {
    if m == [] || Fits(l, m, len) then m else EvictToFit(l, m[1..], len)
  }

  predicate Storable(l: Limits, key: string, data: string, ttl: nat, copied: bool) {
    |key| < KEY_MAX && ttl != 0 && copied && |data| <= l.entry && |data| <= l.total
  }

  function Expiry(now: int, ttl: nat): int {
    now + if ttl > MAX_TTL then MAX_TTL else ttl
  }

  function Store(l: Limits, m: Lru, key: string, data: string, ttl: nat, now: int, copied: bool): Lru {
    if Storable(l, key, data, ttl, copied)
    then EvictToFit(l, Without(m, key), |data|) + [Entry(key, data, Expiry(now, ttl))]
    else m
  }

  /** What every reachable cache satisfies. */
  ghost predicate Bounded(l: Limits, m: Lru) {
    && UniqueKeys(m)
    && |m| <= l.entries
    && Bytes(m) <= l.total
    && forall e :: e in m ==> |e.data| <= l.entry && |e.key| < KEY_MAX
  }

  // ---------- facts about the pieces ----------

  lemma {:induction false} BytesConcat(a: Lru, b: Lru)
    ensures Bytes(a + b) == Bytes(a) + Bytes(b)
  {
    if a == [] {
      assert a + b == b;
    } else {
      assert (a + b)[1..] == a[1..] + b;
      BytesConcat(a[1..], b);
    }
  }

  lemma {:induction false} WithoutAbsent(m: Lru, key: string)
    requires forall i :: 0 <= i < |m| ==> m[i].key != key
    ensures Without(m, key) == m && Get(m, key) == None
  {
    if m != [] {
      WithoutAbsent(m[1..], key);
      assert m == [m[0]] + m[1..];
    }
  }

  /** With unique keys, `Get` and `Without` address the one position that holds the key. */
  lemma {:induction false} AtPosition(m: Lru, k: nat)
    requires UniqueKeys(m) && k < |m|
    ensures Get(m, m[k].key) == Some(m[k])
    ensures Without(m, m[k].key) == m[..k] + m[k + 1..]
  {
    var key := m[k].key;
    if k == 0 {
      WithoutAbsent(m[1..], key);
      assert m[..0] + m[1..] == m[1..];
    } else {
      assert m[1..][k - 1] == m[k];
      AtPosition(m[1..], k - 1);
      assert m[1..][..k - 1] + m[1..][k..] == m[1..k] + m[k + 1..];
      assert [m[0]] + (m[1..k] + m[k + 1..]) == m[..k] + m[k + 1..];
    }
  }

  lemma {:induction false} GetIsMember(m: Lru, key: string)
    ensures Get(m, key).Some? ==> Get(m, key).value in m && Get(m, key).value.key == key
    ensures Get(m, key).None? ==> forall i :: 0 <= i < |m| ==> m[i].key != key
  {
    if m != [] {
      GetIsMember(m[1..], key);
      if Get(m, key).None? {
        forall i | 0 <= i < |m| ensures m[i].key != key {
          if i > 0 { assert m[i] == m[1..][i - 1]; }
        }
      }
    }
  }

  lemma {:induction false} WithoutShrinks(m: Lru, key: string)
    ensures |Without(m, key)| <= |m| && Bytes(Without(m, key)) <= Bytes(m)
    ensures forall e :: e in Without(m, key) <==> e in m && e.key != key
    ensures UniqueKeys(m) ==> UniqueKeys(Without(m, key))
  {
    if m != [] {
      hide UniqueKeys;
      var t := m[1..];
      WithoutShrinks(t, key);
      UniqueTail(m);
      assert forall e :: e in m <==> e == m[0] || e in t;
      if m[0].key != key {
        BytesConcat([m[0]], Without(t, key));
        UniqueCons(m, Without(t, key));
      }
    }
  }

  lemma UniqueTail(m: Lru)
    requires m != []
    ensures UniqueKeys(m) ==> UniqueKeys(m[1..])
  {
    var t := m[1..];
    if UniqueKeys(m) {
      forall i, j | 0 <= i < j < |t| ensures t[i].key != t[j].key {
        assert t[i] == m[i + 1] && t[j] == m[j + 1];
      }
    }
  }

  /** The head may stand before any unique selection from the tail. */
  lemma UniqueCons(m: Lru, w: Lru)
    requires m != [] && forall e :: e in w ==> e in m[1..]
    ensures UniqueKeys(m) && UniqueKeys(w) ==> UniqueKeys([m[0]] + w)
  {
    var r := [m[0]] + w;
    if UniqueKeys(m) && UniqueKeys(w) {
      forall i, j | 0 <= i < j < |r| ensures r[i].key != r[j].key {
        assert r[j] == w[j - 1] && w[j - 1] in m[1..];
        if i > 0 { assert r[i] == w[i - 1]; }
      }
    }
  }

  /** Eviction removes exactly the shortest least-recently-used prefix that makes room,
      and it always makes room for a payload within the total bound. */
  lemma {:induction false} EvictsShortestPrefix(l: Limits, m: Lru, len: nat) returns (n: nat)
    requires l.entries > 0 && len <= l.total
    ensures n <= |m| && EvictToFit(l, m, len) == m[n..]
    ensures Fits(l, m[n..], len)
    ensures forall k :: 0 <= k < n ==> !Fits(l, m[k..], len)
  {
    if m == [] || Fits(l, m, len) {
      n := 0;
      assert m[0..] == m;
    } else {
      var r := EvictsShortestPrefix(l, m[1..], len);
      n := r + 1;
      assert m[1..][r..] == m[n..];
      forall k | 0 <= k < n ensures !Fits(l, m[k..], len) {
        if k == 0 { assert m[0..] == m; } else { assert m[k..] == m[1..][k - 1..]; }
      }
    }
  }

  lemma StoreKeepsBounded(l: Limits, m: Lru, key: string, data: string, ttl: nat, now: int, copied: bool)
    requires Bounded(l, m) && l.entries > 0
    ensures Bounded(l, Store(l, m, key, data, ttl, now, copied))
  {
    if Storable(l, key, data, ttl, copied) {
      var w := Without(m, key);
      WithoutShrinks(m, key);
      var n := EvictsShortestPrefix(l, w, |data|);
      var e := Entry(key, data, Expiry(now, ttl));
      BytesConcat(w[n..], [e]);
      var r := w[n..] + [e];
      assert Bytes([e]) == |data|;
      forall i, j | 0 <= i < j < |r| ensures r[i].key != r[j].key {
        assert r[i] == w[n + i];
        if j == |r| - 1 { assert w[n + i] in w; } else { assert r[j] == w[n + j]; }
      }
      forall x | x in r ensures |x.data| <= l.entry && |x.key| < KEY_MAX {
        assert x == e || x in w;
      }
    }
  }

  /** Moving one entry to the recent end keeps the payload total. */
  lemma MovedBytes(m: Lru, k: nat)
    requires k < |m|
    ensures Bytes(m[..k] + m[k + 1..]) + |m[k].data| == Bytes(m)
    ensures Bytes(m[..k] + m[k + 1..] + [m[k]]) == Bytes(m)
  {
    BytesConcat(m[..k], m[k + 1..]);
    BytesConcat(m[..k], m[k..]);
    assert m == m[..k] + m[k..] && m[k..][1..] == m[k + 1..];
    BytesConcat(m[..k] + m[k + 1..], [m[k]]);
    assert Bytes([m[k]]) == |m[k].data|;
  }

  lemma RemovedBounded(l: Limits, m: Lru, k: nat)
    requires Bounded(l, m) && k < |m|
    ensures Bounded(l, m[..k] + m[k + 1..])
    ensures Bytes(m[..k] + m[k + 1..]) + |m[k].data| == Bytes(m)
  {
    MovedBytes(m, k);
    AtPosition(m, k);
    WithoutShrinks(m, m[k].key);
  }

  lemma LookupKeepsBounded(l: Limits, m: Lru, key: string, now: int, copied: bool)
    requires Bounded(l, m)
    ensures Bounded(l, Lookup(m, key, now, copied).0)
  {
    hide Bytes, UniqueKeys, Without, Get;
    WithoutShrinks(m, key);
    GetIsMember(m, key);
    if Get(m, key).Some? {
      var e := Get(m, key).value;
      var k :| 0 <= k < |m| && m[k] == e;
      AtPosition(m, k);
      MovedBytes(m, k);
      UniqueAppend(Without(m, key), e);
    }
  }

  lemma UniqueAppend(w: Lru, e: Entry)
    requires UniqueKeys(w) && forall x :: x in w ==> x.key != e.key
    ensures UniqueKeys(w + [e])
  {
    var r := w + [e];
    forall i, j | 0 <= i < j < |r| ensures r[i].key != r[j].key {
      assert r[i] == w[i] && w[i] in w;
    }
  }
}
