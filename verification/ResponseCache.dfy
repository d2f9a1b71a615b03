/** src/cache.c: the unordered slot array with its logical clock and counters.
    Every method is proved to act on `contents` exactly as `LruSpec` says. */
module ResponseCache {
  import opened LruSpec
  import opened Text

  datatype Slot = Free | Live(key: string, data: string, expires: int, lastUsed: nat)

  datatype Stats = Stats(hits: nat, misses: nat, stores: nat, evictions: nat, rejected: nat)

  // ---------- slot arrays seen through a recency order ----------

  /** `order` lists the live slots by increasing tick. */
  ghost predicate Ordered(slots: seq<Slot>, order: seq<nat>, tick: nat) {
    && (forall k :: 0 <= k < |order| ==>
          order[k] < |slots| && slots[order[k]].Live? && slots[order[k]].lastUsed <= tick)
    && (forall k, n :: 0 <= k < n < |order| ==> slots[order[k]].lastUsed < slots[order[n]].lastUsed)
    && (forall i: nat {:trigger i in order} :: i < |slots| && slots[i].Live? ==> i in order)
  }

  ghost function EntryOf(s: Slot): Entry
    requires s.Live?
  {
    Entry(s.key, s.data, s.expires)
  }

  ghost function View(slots: seq<Slot>, order: seq<nat>): (m: Lru)
    requires forall k :: 0 <= k < |order| ==> order[k] < |slots| && slots[order[k]].Live?
    ensures |m| == |order|
    ensures forall k :: 0 <= k < |order| ==> m[k] == EntryOf(slots[order[k]])
  {
    seq(|order|, k requires 0 <= k < |order| => EntryOf(slots[order[k]]))
  }

  ghost function Drop(order: seq<nat>, k: nat): seq<nat>
    requires k < |order|
  {
    order[..k] + order[k + 1..]
  }

  /** Dropping place `k` leaves the other places, in order, on other slots. */
  lemma DropKeeps(slots: seq<Slot>, order: seq<nat>, tick: nat, k: nat)
    requires Ordered(slots, order, tick) && k < |order|
    ensures var d := Drop(order, k);
            && (forall j :: 0 <= j < |d| ==> d[j] == order[if j < k then j else j + 1])
            && (forall j :: 0 <= j < |d| ==> d[j] != order[k])
            && (forall i :: i in order && i != order[k] ==> i in d)
  {
    var d := Drop(order, k);
    forall j | 0 <= j < |d| ensures d[j] != order[k] {
      var j' := if j < k then j else j + 1;
      assert slots[order[j']].lastUsed != slots[order[k]].lastUsed;
    }
    forall i | i in order && i != order[k] ensures i in d {
      var j :| 0 <= j < |order| && order[j] == i;
      assert d[if j < k then j else j - 1] == i;
    }
  }

  lemma FreeOne(slots: seq<Slot>, order: seq<nat>, tick: nat, k: nat)
    requires Ordered(slots, order, tick) && k < |order|
    ensures order[k] < |slots| && slots[order[k]].Live? && View(slots, order)[k] == EntryOf(slots[order[k]])
    ensures Ordered(slots[order[k] := Free], Drop(order, k), tick)
    ensures View(slots[order[k] := Free], Drop(order, k)) == View(slots, order)[..k] + View(slots, order)[k + 1..]
  {
    DropKeeps(slots, order, tick, k);
    var slots' := slots[order[k] := Free];
    forall i: nat | i < |slots'| && slots'[i].Live? ensures i in Drop(order, k) {
      assert i in order;
    }
  }

  lemma TouchOne(slots: seq<Slot>, order: seq<nat>, tick: nat, k: nat)
    requires Ordered(slots, order, tick) && k < |order|
    ensures order[k] < |slots| && slots[order[k]].Live?
    ensures var i := order[k];
            var slots', order' := slots[i := slots[i].(lastUsed := tick + 1)], Drop(order, k) + [i];
            var m := View(slots, order);
            Ordered(slots', order', tick + 1) && View(slots', order') == m[..k] + m[k + 1..] + [m[k]]
  {
    DropKeeps(slots, order, tick, k);
    var i := order[k];
    var slots', d := slots[i := slots[i].(lastUsed := tick + 1)], Drop(order, k);
    forall x: nat | x < |slots'| && slots'[x].Live? ensures x in d + [i] {
      assert x in order;
    }
  }

  lemma AddOne(slots: seq<Slot>, order: seq<nat>, tick: nat, i: nat, e: Entry)
    requires Ordered(slots, order, tick) && i < |slots| && slots[i].Free?
    ensures var slots', order' := slots[i := Live(e.key, e.data, e.expires, tick + 1)], order + [i];
            Ordered(slots', order', tick + 1) && View(slots', order') == View(slots, order) + [e]
  {
    var slots' := slots[i := Live(e.key, e.data, e.expires, tick + 1)];
    forall x: nat | x < |slots'| && slots'[x].Live? ensures x in order + [i] {
      assert x == i || x in order;
    }
  }

  lemma SomeLive(slots: seq<Slot>, order: seq<nat>, tick: nat)
    requires Ordered(slots, order, tick)
    ensures order != [] ==> exists i :: 0 <= i < |slots| && slots[i].Live?
  {
    if order != [] {
      assert slots[order[0]].Live?;
    }
  }

  lemma OldestIsFirst(slots: seq<Slot>, order: seq<nat>, tick: nat, k: nat)
    requires Ordered(slots, order, tick) && k < |order|
    requires forall i :: 0 <= i < |slots| && slots[i].Live? ==> slots[order[k]].lastUsed <= slots[i].lastUsed
    ensures k == 0
  {
    var oldest := slots[order[0]].lastUsed;
    assert slots[order[k]].lastUsed <= oldest;
  }

  /** Fewer live entries than slots leaves a free slot. */
  lemma SomeFree(slots: seq<Slot>, order: seq<nat>, tick: nat)
    requires Ordered(slots, order, tick) && |order| < |slots|
    ensures exists i :: 0 <= i < |slots| && slots[i].Free?
  {
    if forall i :: 0 <= i < |slots| ==> slots[i].Live? {
      forall i: nat | i < |slots| ensures i in order {
        assert slots[i].Live?;
      }
      Pigeonhole(|slots|, order);
    }
  }

  /** A list that holds every number below `n` is at least `n` long. */
  lemma {:induction false} Pigeonhole(n: nat, s: seq<nat>)
    requires forall i: nat {:trigger i in s} :: i < n ==> i in s
    ensures n <= |s|
  {
    if n > 0 {
      assert n - 1 in s;
      var k :| 0 <= k < |s| && s[k] == n - 1;
      var t := s[..k] + s[k + 1..];
      forall i: nat | i < n - 1 ensures i in t {
        assert i in s;
        var j :| 0 <= j < |s| && s[j] == i;
        assert t[if j < k then j else j - 1] == i;
      }
      Pigeonhole(n - 1, t);
    }
  }

  // ---------- the cache object ----------

  class Cache {
    var entries: array?<Slot>
    var limits: Limits
    var usedEntries: nat
    var usedBytes: nat
    var tick: nat
    var stats: Stats
    /** Live slots by increasing tick, and the entries they hold: least recently used first. */
    ghost var order: seq<nat>
    ghost var contents: Lru

    ghost predicate Valid()
      reads this, entries
    {
      && usedEntries == |contents|
      && usedBytes == Bytes(contents)
      && (entries == null ==> limits == Limits(0, 0, 0) && contents == [])
      && (entries != null ==>
            && entries.Length == limits.entries > 0
            && Bounded(limits, contents)
            && Ordered(entries[..], order, tick)
            && contents == View(entries[..], order))
    }

    constructor ()
      ensures Valid() && entries == null && contents == []
    {
      entries, limits := null, Limits(0, 0, 0);
      usedEntries, usedBytes, tick := 0, 0, 0;
      stats, order, contents := Stats(0, 0, 0, 0, 0), [], [];
    }

    /** `granted` is the outcome of calloc. */
    method Init(l: Limits, granted: bool) returns (rc: int)
      requires Valid()
      modifies this
      ensures Valid()
      ensures rc == 0 <==> l.entries > 0 && l.total > 0 && l.entry > 0 && granted
      ensures rc == 0 ==> entries != null && fresh(entries) && limits == l && contents == []
      ensures rc == 0 ==> stats == Stats(0, 0, 0, 0, 0)
      ensures rc != 0 ==> rc == -1 && unchanged(this)
    {
      if l.entries == 0 || l.total == 0 || l.entry == 0 || !granted {
        return -1;
      }
      entries := new Slot[l.entries](_ => Free);
      limits := l;
      usedEntries, usedBytes, tick := 0, 0, 0;
      stats, order, contents := Stats(0, 0, 0, 0, 0), [], [];
      rc := 0;
    }

    method Destroy()
      requires Valid()
      modifies this
      ensures Valid() && entries == null && contents == [] && stats == old(stats)
    {
      entries, limits := null, Limits(0, 0, 0);
      usedEntries, usedBytes, order, contents := 0, 0, [], [];
    }

    /** First slot holding `key`, or -1. `k` is its place in the recency order. */
    method Find(key: string) returns (i: int, ghost k: nat)
      requires Valid() && entries != null
      ensures i == -1 || (0 <= i < entries.Length && k < |order| && order[k] == i)
      ensures i == -1 ==> Get(contents, key) == None && Without(contents, key) == contents
      ensures i != -1 ==> entries[i].Live? && entries[i].key == key && Get(contents, key) == Some(contents[k])
      ensures i != -1 ==> Without(contents, key) == contents[..k] + contents[k + 1..]
    {
      i, k := 0, 0;
      while i < entries.Length
        invariant 0 <= i <= entries.Length
        invariant forall j :: 0 <= j < i ==> !(entries[j].Live? && entries[j].key == key)
      {
        if entries[i].Live? && entries[i].key == key {
          assert i in order;
          k :| 0 <= k < |order| && order[k] == i;
          AtPosition(contents, k);
          return;
        }
        i := i + 1;
      }
      i := -1;
      WithoutAbsent(contents, key);
    }

    /** Frees slot `i`, which stands at place `k` of the recency order. */
    method RemoveEntry(i: nat, ghost k: nat)
      requires Valid() && entries != null && k < |order| && order[k] == i
      modifies this, entries
      ensures Valid() && entries == old(entries) && limits == old(limits) && tick == old(tick) && stats == old(stats)
      ensures contents == old(contents)[..k] + old(contents)[k + 1..]
      ensures usedEntries == old(usedEntries) - 1
    {
      hide Ordered, Bounded, View;
      FreeOne(entries[..], order, tick, k);
      RemovedBounded(limits, contents, k);
      usedBytes := usedBytes - |entries[i].data|;
      usedEntries := usedEntries - 1;
      entries[i] := Free;
      order, contents := Drop(order, k), contents[..k] + contents[k + 1..];
      assert entries[..] == old(entries[..])[i := Free];
    }

    /** The live slot with the smallest tick, or -1. */
    method Oldest() returns (victim: int)
      requires Valid() && entries != null
      ensures victim == -1 <==> contents == []
      ensures victim != -1 ==> 0 <= victim && order[0] == victim
    {
      victim := -1;
      var i := 0;
      while i < entries.Length
        invariant 0 <= i <= entries.Length && -1 <= victim < i
        invariant victim == -1 ==> forall j :: 0 <= j < i ==> entries[j].Free?
        invariant victim != -1 ==> entries[victim].Live?
        invariant victim != -1 ==> forall j :: 0 <= j < i && entries[j].Live? ==>
                                     entries[victim].lastUsed <= entries[j].lastUsed
      {
        if entries[i].Live? && (victim == -1 || entries[i].lastUsed < entries[victim].lastUsed) {
          victim := i;
        }
        i := i + 1;
      }
      if victim == -1 {
        SomeLive(entries[..], order, tick);
      } else {
        assert victim in order;
        ghost var k :| 0 <= k < |order| && order[k] == victim;
        OldestIsFirst(entries[..], order, tick, k);
      }
    }

    /** Removes the least recently used live entry; false if there is none. */
    method EvictLru() returns (evicted: bool)
      requires Valid() && entries != null
      modifies this, entries
      ensures Valid() && entries == old(entries) && limits == old(limits) && tick == old(tick)
      ensures evicted <==> old(contents) != []
      ensures evicted ==> contents == old(contents)[1..]
      ensures evicted ==> stats == old(stats).(evictions := old(stats).evictions + 1)
      ensures !evicted ==> unchanged(this) && unchanged(entries)
    {
      var victim := Oldest();
      if victim == -1 {
        return false;
      }
      RemoveEntry(victim, 0);
      stats := stats.(evictions := stats.evictions + 1);
      evicted := true;
    }

    /** Gives slot `i`, at place `k` of the recency order, the next tick. */
    method Touch(i: nat, ghost k: nat)
      requires Valid() && entries != null && k < |order| && order[k] == i
      requires var m := contents; Bounded(limits, m[..k] + m[k + 1..] + [m[k]])
      modifies this, entries
      ensures Valid() && entries == old(entries) && limits == old(limits) && stats == old(stats)
      ensures contents == old(contents)[..k] + old(contents)[k + 1..] + [old(contents)[k]]
    {
      hide Ordered, Bounded, View;
      TouchOne(entries[..], order, tick, k);
      MovedBytes(contents, k);
      tick := tick + 1;
      entries[i] := entries[i].(lastUsed := tick);
      order, contents := Drop(order, k) + [i], contents[..k] + contents[k + 1..] + [contents[k]];
      assert entries[..] == old(entries[..])[i := old(entries[i]).(lastUsed := tick)];
    }

    /** `copied` is the outcome of malloc for the caller's private copy. */
    method Lookup(key: string, now: int, copied: bool) returns (r: Option<string>)
      requires Valid()
      modifies this, entries
      ensures Valid() && entries == old(entries) && limits == old(limits)
      ensures entries != null ==> (contents, r) == LruSpec.Lookup(old(contents), key, now, copied)
      ensures entries != null ==> stats == if r.Some? then old(stats).(hits := old(stats).hits + 1)
                                           else old(stats).(misses := old(stats).misses + 1)
      ensures entries == null ==> r == None && unchanged(this)
    {
      hide Ordered, Bounded, View;
      r := None;
      if entries != null {
        LookupKeepsBounded(limits, contents, key, now, copied);
        var i, k := Find(key);
        if i != -1 && entries[i].expires <= now {
          RemoveEntry(i, k);
          i := -1;
        }
        if i != -1 && copied {
          r := Some(entries[i].data);
          Touch(i, k);
          stats := stats.(hits := stats.hits + 1);
        }
        if r == None {
          stats := stats.(misses := stats.misses + 1);
        }
      }
    }

    /** Removes least recently used entries until `len` more bytes fit.
        The "none left" exit of the loop is never taken. */
    method MakeRoom(len: nat)
      requires Valid() && entries != null && len <= limits.total
      modifies this, entries
      ensures Valid() && entries == old(entries) && limits == old(limits) && tick == old(tick)
      ensures contents == EvictToFit(limits, old(contents), len) && Fits(limits, contents, len)
      ensures stats == old(stats).(evictions := stats.evictions)
      ensures stats.evictions + |contents| == old(stats.evictions + |contents|)
    {
      ghost var target := EvictToFit(limits, contents, len);
      while usedEntries >= limits.entries || usedBytes + len > limits.total
        invariant Valid() && entries == old(entries) && limits == old(limits) && tick == old(tick)
        invariant EvictToFit(limits, contents, len) == target
        invariant stats == old(stats).(evictions := stats.evictions)
        invariant stats.evictions + |contents| == old(stats.evictions + |contents|)
        decreases usedEntries
      {
        var evicted := EvictLru();
        if !evicted {
          assert false;
          break;
        }
      }
    }

    /** `copied` is the outcome of malloc for the stored copy. */
    method Store(key: string, data: string, ttl: nat, now: int, copied: bool) returns (rc: int)
      requires Valid()
      modifies this, entries
      ensures Valid() && entries == old(entries) && limits == old(limits)
      ensures rc == 0 <==> entries != null && Storable(limits, key, data, ttl, copied)
      ensures rc != 0 ==> rc == -1
      ensures entries != null ==> contents == LruSpec.Store(limits, old(contents), key, data, ttl, now, copied)
      ensures rc == 0 ==> stats == old(stats).(stores := old(stats).stores + 1, evictions := stats.evictions)
      ensures rc == 0 ==> stats.evictions + |contents| == old(stats).evictions + |Without(old(contents), key)| + 1
      ensures rc != 0 && (|key| >= 2400 || ttl == 0 || !copied) ==> unchanged(this)
      ensures rc != 0 && !(|key| >= 2400 || ttl == 0 || !copied) ==>
                stats == old(stats).(rejected := old(stats).rejected + 1)
    {
      hide Ordered, Bounded, View;
      if |key| >= KEY_MAX || ttl == 0 {
        return -1;
      }
      var kept := if ttl > MAX_TTL then MAX_TTL else ttl;
      if !copied {
        return -1;
      }
      rc := -1;
      if entries == null || |data| > limits.entry || |data| > limits.total {
        stats := stats.(rejected := stats.rejected + 1);
      } else {
        StoreKeepsBounded(limits, contents, key, data, ttl, now, copied);
        rc := Replace(Entry(key, data, now + kept));
      }
    }

    /** The accepted part of a store: drop the same key, make room, fill a free slot.
        The "no slot" rejection is never taken. */
    method Replace(e: Entry) returns (rc: int)
      requires Valid() && entries != null && |e.data| <= limits.total
      requires Bounded(limits, EvictToFit(limits, Without(contents, e.key), |e.data|) + [e])
      modifies this, entries
      ensures rc == 0 && Valid() && entries == old(entries) && limits == old(limits)
      ensures contents == EvictToFit(limits, Without(old(contents), e.key), |e.data|) + [e]
      ensures stats == old(stats).(stores := old(stats).stores + 1, evictions := stats.evictions)
      ensures stats.evictions + |contents| == old(stats).evictions + |Without(old(contents), e.key)| + 1
    {
      hide Ordered, Bounded, View;
      var i, k := Find(e.key);
      if i != -1 {
        RemoveEntry(i, k);
      }
      MakeRoom(|e.data|);
      var slot := FreeSlot();
      if slot == -1 {
        assert false;
      } else {
        Fill(slot, e);
        stats := stats.(stores := stats.stores + 1);
        rc := 0;
      }
    }

    /** First free slot, or -1; never -1 while there are fewer entries than slots. */
    method FreeSlot() returns (slot: int)
      requires Valid() && entries != null
      ensures slot == -1 || (0 <= slot < entries.Length && entries[slot].Free?)
      ensures usedEntries < entries.Length ==> slot != -1
    {
      slot := 0;
      while slot < entries.Length
        invariant 0 <= slot <= entries.Length
        invariant forall j :: 0 <= j < slot ==> entries[j].Live?
      {
        if entries[slot].Free? {
          return;
        }
        slot := slot + 1;
      }
      if usedEntries < entries.Length {
        SomeFree(entries[..], order, tick);
      }
      slot := -1;
    }

    /** Writes a new most-recent entry into a free slot. */
    method Fill(slot: nat, e: Entry)
      requires Valid() && entries != null && slot < entries.Length && entries[slot].Free?
      requires Bounded(limits, contents + [e])
      modifies this, entries
      ensures Valid() && entries == old(entries) && limits == old(limits) && stats == old(stats)
      ensures contents == old(contents) + [e]
    {
      hide Ordered, Bounded, View;
      AddOne(entries[..], order, tick, slot, e);
      BytesConcat(contents, [e]);
      assert Bytes([e]) == |e.data|;
      tick := tick + 1;
      entries[slot] := Live(e.key, e.data, e.expires, tick);
      order, contents := order + [slot], contents + [e];
      usedEntries := usedEntries + 1;
      usedBytes := usedBytes + |e.data|;
      assert entries[..] == old(entries[..])[slot := Live(e.key, e.data, e.expires, tick)];
    }
  }
}
