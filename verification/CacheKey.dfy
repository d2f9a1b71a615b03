/** src/cache.c: the cache key of a URL. */
module CacheKey {
  import opened Text
  import opened RequestParser
  import LruSpec

  const LOWERED_MAX := 299

  ghost predicate IsParsed(u: Url) { exists raw :: ParseUrl(raw) == Ok(u) }

  function Key(host: string, port: nat, path: string): string {
    LowerAll(if |host| > LOWERED_MAX then host[..LOWERED_MAX] else host) + ":" + Dec(port) + " " + path
  }

  function KeyOf(u: Url): string { Key(u.host, u.port, u.path) }

  /** The key, or None if it does not fit the key buffer. */
  method MakeKey(host: string, port: nat, path: string) returns (key: Option<string>)
    ensures key == if |Key(host, port, path)| >= LruSpec.KEY_MAX then None else Some(Key(host, port, path))
  {
    var lowered, i := "", 0;
    while i < |host| && i < LOWERED_MAX
      invariant 0 <= i == |lowered| <= |host| && i <= LOWERED_MAX
      invariant forall j :: 0 <= j < i ==> lowered[j] == Lower(host[j])
    {
      lowered := lowered + [Lower(host[i])];
      i := i + 1;
    }
    assert lowered == LowerAll(if |host| > LOWERED_MAX then host[..LOWERED_MAX] else host);
    var text := lowered + ":" + Dec(port) + " " + path;
    key := if |text| >= LruSpec.KEY_MAX then None else Some(text);
  }

  lemma ParsedHost(u: Url)
    requires IsParsed(u)
    ensures |u.host| < MAX_HOST && |u.path| < MAX_PATH && u.port <= 65535
    ensures KeyOf(u) == u.host + (":" + (Dec(u.port) + (" " + u.path)))
    ensures ':' !in u.host
  {
    hide ParseUrl, LowerAll, Dec, BracketOk, PortOf, PathOf, IsHostChar, Find, KeyOf;
    var raw :| ParseUrl(raw) == Ok(u);
    PathAlwaysFits(raw);
    var p := ParsedIsSpelled(raw, u);
    LowerStays(p.host);
    NoColon(u.host);
    KeyText(u);
  }

  lemma KeyText(u: Url)
    requires |u.host| <= LOWERED_MAX && LowerAll(u.host) == u.host
    ensures KeyOf(u) == u.host + (":" + (Dec(u.port) + (" " + u.path)))
  {
    hide LowerAll, Dec;
    var d, p := Dec(u.port), u.path;
    assert u.host + ":" + d + " " + p == u.host + (":" + (d + (" " + p)));
  }

  lemma NoColon(host: string)
    requires AllHostChars(host)
    ensures ':' !in host
  {
  }

  lemma DecHasNoSpace(n: nat)
    ensures ' ' !in Dec(n)
  {
  }

  lemma CutAt(a: string, b: string, c: char, s: string, t: string)
    requires c !in a && c !in b && a + ([c] + s) == b + ([c] + t)
    ensures a == b && s == t
  {
    var x, y := a + ([c] + s), b + ([c] + t);
    FindIs(x, c, |a|);
    FindIs(y, c, |b|);
    assert a == x[..|a|] && b == y[..|b|];
    assert s == x[|a| + 1..] && t == y[|b| + 1..];
  }

  /** The key of every parsed URL fits, and no two parsed URLs share one. */
  lemma KeyFitsAndIsInjective(u: Url, v: Url)
    requires IsParsed(u) && IsParsed(v)
    ensures |KeyOf(u)| < LruSpec.KEY_MAX
    ensures KeyOf(u) == KeyOf(v) ==> u == v
  {
    hide IsParsed, KeyOf;
    ParsedHost(u);
    ParsedHost(v);
    DecLength(u.port);
    if KeyOf(u) == KeyOf(v) {
      CutAt(u.host, v.host, ':', Dec(u.port) + (" " + u.path), Dec(v.port) + (" " + v.path));
      DecHasNoSpace(u.port);
      DecHasNoSpace(v.port);
      CutAt(Dec(u.port), Dec(v.port), ' ', u.path, v.path);
      DecValueOfDec(u.port);
      DecValueOfDec(v.port);
    }
  }
}
