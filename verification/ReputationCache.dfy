/** src/reputation.c: host normalisation and the result cache. */
module ReputationCache {
  import opened Text

  const HOST_MAX := 253
  const CACHE_ENTRIES := 256

  datatype Verdict = Safe | Suspicious | Malicious | Unavailable

  // ---------- the privacy gate ----------

  ghost predicate HasDoubleDot(s: string) { exists i :: 0 <= i < |s| - 1 && s[i] == '.' && s[i + 1] == '.' }

  function StripDot(s: string): string { if s != "" && s[|s| - 1] == '.' then s[..|s| - 1] else s }

  /** Lowercase, 1 to 253 plain hostname characters, no leading dot and no empty inner label. */
  ghost predicate IsBareHost(s: string) {
    && 1 <= |s| <= 253 && s[0] != '.' && !HasDoubleDot(s) && LowerAll(s) == s
    && forall i :: 0 <= i < |s| ==> IsNameChar(s[i])
  }

  /** What may leave the proxy for `host`, if anything (None models a NULL argument). */
  ghost function Normalise(host: Option<string>): Option<string> {
    if host.None? then None
    else var h := LowerAll(StripDot(host.value)); if IsBareHost(h) then Some(h) else None
  }

  method NormaliseHost(host: Option<string>) returns (r: Option<string>)
    ensures r == Normalise(host)
  {
    if host.None? {
      return None;
    }
    var s := host.value;
    var n := |s|;
    if n > 0 && s[n - 1] == '.' {
      n := n - 1;
    }
    assert s[..n] == StripDot(s);
    ghost var h := LowerAll(StripDot(s));
    if n == 0 || n > HOST_MAX {
      return None;
    }
    var out := "";
    var i := 0;
    while i < n
      invariant 0 <= i <= n && |out| == i
      invariant forall j :: 0 <= j < i ==> IsNameChar(s[j]) && out[j] == h[j]
    {
      if !IsNameChar(s[i]) {
        assert h[i] == Lower(s[i]) && !IsNameChar(h[i]);
        return None;
      }
      out := out + [Lower(s[i])];
      i := i + 1;
    }
    assert out == h;
    var dots := DoubleDot(out);
    if out[0] == '.' || dots {
      return None;
    }
    assert LowerAll(h) == h;
    r := Some(out);
  }

  method DoubleDot(s: string) returns (r: bool)
    ensures r <==> HasDoubleDot(s)
  {
    var i := 0;
    while i + 1 < |s|
      invariant 0 <= i
      invariant forall j :: 0 <= j < i && j < |s| - 1 ==> !(s[j] == '.' && s[j + 1] == '.')
    {
      if s[i] == '.' && s[i + 1] == '.' {
        return true;
      }
      i := i + 1;
    }
    r := false;
  }

  /** Only one trailing dot is stripped, so normalising is idempotent exactly when the input does not
      end in two dots. */
  lemma IdempotentUnlessTwoDots(s: string)
    requires Normalise(Some(s)).Some?
    ensures Normalise(Normalise(Some(s))) == Normalise(Some(s)) <==>
            !(|s| >= 2 && s[|s| - 1] == '.' && s[|s| - 2] == '.')
  {
    var h := LowerAll(StripDot(s));
    var k := LowerAll(StripDot(h));
    assert LowerAll(h) == h;
    if h[|h| - 1] != '.' {
      assert k == h;
    } else {
      assert |k| == |h| - 1;
    }
  }

  lemma TwoDotsNotIdempotent()
    ensures Normalise(Some("a..")) == Some("a.") && Normalise(Some("a.")) == Some("a")
  {
    assert "a.."[..2] == "a." && LowerAll("a.") == "a." && "a."[..1] == "a" && LowerAll("a") == "a";
  }

  // ---------- the result cache ----------

  datatype Slot = Unused | Used(host: string, verdict: Verdict, expires: int, lastUsed: nat)

  predicate Holds(s: Slot, host: string) { s.Used? && s.host == host }

  /** First slot holding `host`, or the length. */
  function FindHost(c: seq<Slot>, host: string): (k: nat)
    ensures k <= |c| && (k < |c| ==> Holds(c[k], host)) && forall i :: 0 <= i < k ==> !Holds(c[i], host)
  {
    if c == [] || Holds(c[0], host) then 0 else 1 + FindHost(c[1..], host)
  }

  /** The slot that a new host takes: the first unused one, else the least recently used. */
  ghost predicate Takes(c: seq<Slot>, k: nat) {
    && k < |c|
    && (c[k].Unused? ==> forall i :: 0 <= i < k ==> c[i].Used?)
    && (c[k].Used? ==> (forall i :: 0 <= i < |c| ==> c[i].Used? && c[k].lastUsed <= c[i].lastUsed)
                       && forall i :: 0 <= i < k ==> c[k].lastUsed < c[i].lastUsed)
  }

  /** Where `host` is written: its own slot if it has one. */
  ghost predicate Target(c: seq<Slot>, host: string, k: nat) {
    if FindHost(c, host) < |c| then k == FindHost(c, host) else Takes(c, k)
  }

  lemma TargetUnique(c: seq<Slot>, host: string, k: nat, k': nat)
    requires Target(c, host, k) && Target(c, host, k')
    ensures k == k'
  {
  }

  ghost function TargetOf(c: seq<Slot>, host: string): (k: nat)
    requires c != []
    ensures k < |c| && Target(c, host, k)
  {
    TargetExists(c, host);
    var k: nat :| Target(c, host, k);
    k
  }

  /** The cache after a verdict was put. */
  ghost function PutVerdict(c: seq<Slot>, tick: nat, host: string, v: Verdict, expires: int): seq<Slot>
    requires c != []
  {
    c[TargetOf(c, host) := Used(host, v, expires, tick)]
  }

  lemma TargetExists(c: seq<Slot>, host: string)
    requires c != []
    ensures exists k: nat :: Target(c, host, k)
  {
    var k := FindHost(c, host);
    if k == |c| {
      k := TakesExists(c, |c|);
      assert c[..|c|] == c;
    }
    assert Target(c, host, k);
  }

  lemma {:induction false} TakesExists(c: seq<Slot>, n: nat) returns (k: nat)
    requires 0 < n <= |c|
    ensures Takes(c[..n], k)
  {
    if n == 1 {
      k := 0;
    } else {
      k := TakesExists(c, n - 1);
      var a := c[..n];
      assert forall i :: 0 <= i < n - 1 ==> a[i] == c[..n - 1][i];
      if a[k].Used? && (a[n - 1].Unused? || a[n - 1].lastUsed < a[k].lastUsed) {
        k := n - 1;
      }
    }
  }

  /** No host is cached twice. */
  ghost predicate UniqueHosts(c: seq<Slot>) {
    forall i, j :: 0 <= i < j < |c| && c[i].Used? && c[j].Used? ==> c[i].host != c[j].host
  }

  lemma PutKeepsUnique(c: seq<Slot>, tick: nat, host: string, v: Verdict, expires: int)
    requires c != [] && UniqueHosts(c)
    ensures UniqueHosts(PutVerdict(c, tick, host, v, expires))
  {
    var k, f := TargetOf(c, host), FindHost(c, host);
    forall i | 0 <= i < |c| && i != k ensures !Holds(c[i], host) {
      if f < |c| && i > k { assert c[k].host == host; }
    }
  }

  class ResultCache {
    const slots: array<Slot>
    var tick: nat

    constructor ()
      ensures fresh(slots) && slots.Length == CACHE_ENTRIES && tick == 0
      ensures forall i :: 0 <= i < slots.Length ==> slots[i] == Unused
    {
      slots := new Slot[CACHE_ENTRIES](_ => Unused);
      tick := 0;
    }

    method Find(host: string) returns (k: nat)
      ensures k == FindHost(slots[..], host)
    {
      k := 0;
      while k < slots.Length
        invariant 0 <= k <= slots.Length
        invariant forall i :: 0 <= i < k ==> !Holds(slots[i], host)
      {
        if slots[k].Used? && slots[k].host == host {
          break;
        }
        k := k + 1;
      }
      FindHostIs(slots[..], host, k);
    }

    /** Writes a verdict for `host`, over its old entry, into an unused slot, or over the least recently used. */
    method Put(host: string, v: Verdict, ttl: nat, now: int)
      requires slots.Length > 0
      modifies this, slots
      ensures ttl == 0 ==> slots[..] == old(slots[..]) && tick == old(tick)
      ensures ttl != 0 ==> tick == old(tick) + 1
      ensures ttl != 0 ==> slots[..] == PutVerdict(old(slots[..]), tick, host, v, now + ttl)
    {
      if ttl == 0 {
        return;
      }
      var k := Find(host);
      if k == slots.Length {
        k := Victim();
      }
      TargetUnique(slots[..], host, k, TargetOf(slots[..], host));
      tick := tick + 1;
      slots[k] := Used(host, v, now + ttl, tick);
    }

    method Victim() returns (k: nat)
      requires slots.Length > 0
      ensures Takes(slots[..], k)
    {
      k := 0;
      var i := 0;
      while i < slots.Length
        invariant 0 <= i <= slots.Length && (i > 0 ==> k < i)
        invariant i > 0 ==> Takes(slots[..i], k) && slots[k].Used?
      {
        if slots[i].Unused? {
          k := i;
          assert Takes(slots[..], k);
          return;
        }
        if i == 0 || slots[i].lastUsed < slots[k].lastUsed {
          k := i;
        }
        i := i + 1;
      }
      assert slots[..i] == slots[..];
    }
  }

  lemma {:induction false} FindHostIs(c: seq<Slot>, host: string, k: nat)
    requires k <= |c| && (k < |c| ==> Holds(c[k], host)) && forall i :: 0 <= i < k ==> !Holds(c[i], host)
    ensures FindHost(c, host) == k
  {
    var f := FindHost(c, host);
    assert f >= k;
    assert f <= k;
  }
}
