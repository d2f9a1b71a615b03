/** src/policy.c: host rules, host normalisation and the allow/block decision. */
module Policy {
  import opened Text

  const HOST_MAX := 253
  const NORM_MAX := 254   // the normalised copy holds at most this many characters
  const LINE_MAX := 1024
  const SPACE: set<char> := {' ', '\t', '\n', '\r', 11 as char, 12 as char}
  const DOT: set<char> := {'.'}

  datatype Rule = Rule(host: string, subdomains: bool)

  datatype Decision = Allow | DenyBlocklist | DenyNotAllowlisted

  datatype Policy = Policy(block: seq<Rule>, allow: seq<Rule>, allowlistActive: bool)

  // ---------- host names as label lists ----------

  function Labels(s: string): (ls: seq<string>)
    ensures ls != []
    decreases |s|
  {
    var k := Find(s, '.');
    if k == |s| then [s] else [s[..k]] + Labels(s[k + 1..])
  }

  function Join(ls: seq<string>): string
    requires ls != []
  {
    if |ls| == 1 then ls[0] else ls[0] + "." + Join(ls[1..])
  }

  ghost predicate IsSuffix(a: seq<string>, b: seq<string>) { |a| <= |b| && b[|b| - |a|..] == a }

  lemma {:induction false} JoinLabels(s: string)
    ensures Join(Labels(s)) == s
    decreases |s|
  {
    var k := Find(s, '.');
    if k < |s| {
      JoinLabels(s[k + 1..]);
      assert Labels(s)[1..] == Labels(s[k + 1..]);
      assert s == s[..k] + "." + s[k + 1..];
    } else {
      assert s[..k] == s;
    }
  }

  lemma {:induction false} JoinConcat(a: seq<string>, b: seq<string>)
    requires a != [] && b != []
    ensures Join(a + b) == Join(a) + "." + Join(b)
  {
    if |a| == 1 {
      assert (a + b)[1..] == b;
    } else {
      JoinConcat(a[1..], b);
      assert (a + b)[1..] == a[1..] + b;
    }
  }

  lemma LabelsAt(s: string, k: nat)
    requires k <= |s| && (forall i :: 0 <= i < k ==> s[i] != '.') && (k < |s| ==> s[k] == '.')
    ensures Labels(s) == if k == |s| then [s] else [s[..k]] + Labels(s[k + 1..])
  {
    hide Find;
    FindIs(s, '.', k);
  }

  /** A dot joins label lists. */
  lemma {:induction false} LabelsConcat(a: string, b: string)
    ensures Labels(a + "." + b) == Labels(a) + Labels(b)
    decreases |a|
  {
    hide Labels;
    var s, k := a + "." + b, Find(a, '.');
    LabelsAt(a, k);
    LabelsAt(s, k);
    assert s[..k] == a[..k];
    if k < |a| {
      LabelsConcat(a[k + 1..], b);
      assert s[k + 1..] == a[k + 1..] + "." + b;
    } else {
      assert a[..k] == a && s[k + 1..] == b;
    }
  }

  // ---------- matching ----------

  predicate RuleMatches(r: Rule, host: string) {
    || host == r.host
    || (r.subdomains && |host| > |r.host| + 1 && host[|host| - |r.host| - 1] == '.' && host[|host| - |r.host|..] == r.host)
  }

  /** A subdomain rule matches exactly the hosts whose label list ends in the rule's, except for the rule
      with a bare dot in front; an exact rule matches only itself. */
  lemma MatchIsLabelSuffix(r: Rule, host: string)
    ensures RuleMatches(r, host) <==>
            if r.subdomains then IsSuffix(Labels(r.host), Labels(host)) && host != "." + r.host else host == r.host
  {
    if r.subdomains {
      if RuleMatches(r, host) && host != r.host {
        var x := host[..|host| - |r.host| - 1];
        assert host == x + "." + r.host;
        LabelsConcat(x, r.host);
      }
      if IsSuffix(Labels(r.host), Labels(host)) && host != "." + r.host { SuffixMatches(r, host); }
    }
  }

  lemma SuffixMatches(r: Rule, host: string)
    requires r.subdomains && IsSuffix(Labels(r.host), Labels(host)) && host != "." + r.host
    ensures RuleMatches(r, host)
  {
    var h, l := Labels(host), Labels(r.host);
    var front := h[..|h| - |l|];
    assert h == front + l;
    JoinLabels(host);
    JoinLabels(r.host);
    if front == [] {
      assert h == l;
    } else {
      JoinConcat(front, l);
      assert host == Join(front) + "." + r.host;
    }
  }

  // ---------- normalising ----------

  function HostPart(s: string): string { s[..Find(s, ':')] }

  function Take(s: string, n: nat): string { if |s| > n then s[..n] else s }

  /** Lowercase, without port and trailing dots, from at most 254 characters. */
  function Normal(s: string): string { TrimRight(LowerAll(Take(HostPart(s), NORM_MAX)), DOT) }

  /** The same without the length limit. */
  function FullNormal(s: string): string { TrimRight(LowerAll(HostPart(s)), DOT) }

  method StripDots(s: string) returns (r: string)
    ensures r == TrimRight(s, DOT)
  {
    var n := |s|;
    while n > 0 && s[n - 1] == '.'
      invariant 0 <= n <= |s| && forall j :: n <= j < |s| ==> s[j] in DOT
    {
      n := n - 1;
    }
    TrimRightIs(s, DOT, n);
    r := s[..n];
  }

  method NormalizeHost(s: string) returns (r: string)
    ensures r == Normal(s)
  {
    var out, i := "", 0;
    while i < |s| && |out| < NORM_MAX && s[i] != ':'
      invariant 0 <= i == |out| <= |s| && |out| <= NORM_MAX
      invariant forall j :: 0 <= j < i ==> s[j] != ':' && out[j] == Lower(s[j])
    {
      out := out + [Lower(s[i])];
      i := i + 1;
    }
    assert i < NORM_MAX ==> Find(s, ':') == i by {
      if i < NORM_MAX { FindIs(s, ':', i); }
    }
    assert Find(s, ':') >= i;
    assert Take(HostPart(s), NORM_MAX) == s[..i];
    assert out == LowerAll(s[..i]);
    r := StripDots(out);
  }

  /** Nothing but dots lies beyond the limit. */
  predicate DotsBeyond(s: string) { forall i :: NORM_MAX <= i < |HostPart(s)| ==> HostPart(s)[i] == '.' }

  /** The limit changes the outcome exactly when something other than dots lies beyond it. */
  lemma TruncationMatters(s: string)
    ensures Normal(s) == FullNormal(s) <==> DotsBeyond(s)
  {
    hide TrimRight, Find;
    var h := HostPart(s);
    if |h| > NORM_MAX {
      var low := LowerAll(h);
      assert LowerAll(h[..NORM_MAX]) == low[..NORM_MAX];
      var full, cut := TrimRight(low, DOT), TrimRight(low[..NORM_MAX], DOT);
      if forall i :: NORM_MAX <= i < |h| ==> h[i] == '.' {
        TrimRightIs(low, DOT, |cut|);
        assert low[..NORM_MAX][..|cut|] == low[..|cut|];
      } else {
        var i :| NORM_MAX <= i < |h| && h[i] != '.';
        assert low[i] !in DOT && |full| > i;
      }
    }
  }

  /** Letter case, a port and trailing dots do not change the normal form. */
  lemma CaseDoesNotMatter(s: string, t: string)
    requires LowerAll(s) == LowerAll(t)
    ensures Normal(s) == Normal(t)
  {
    forall i | 0 <= i < |s| ensures s[i] == ':' <==> t[i] == ':' {
      assert LowerAll(s)[i] == LowerAll(t)[i];
    }
    FindIs(t, ':', Find(s, ':'));
    var a, b := Take(HostPart(s), NORM_MAX), Take(HostPart(t), NORM_MAX);
    forall i | 0 <= i < |a| ensures LowerAll(a)[i] == LowerAll(b)[i] {
      assert LowerAll(s)[i] == LowerAll(t)[i];
    }
    assert LowerAll(a) == LowerAll(b);
  }

  lemma PortDoesNotMatter(s: string, port: string)
    ensures Normal(s + ":" + port) == Normal(s)
  {
    var t := s + ":" + port;
    FindIs(t, ':', Find(s, ':'));
    assert HostPart(t) == HostPart(s);
  }

  lemma TrailingDotsDoNotMatter(s: string, dots: string)
    requires ':' !in s && forall i :: 0 <= i < |dots| ==> dots[i] == '.'
    ensures Normal(s + dots) == Normal(s)
  {
    hide TrimRight, Find;
    var t := s + dots;
    FindIs(t, ':', |t|);
    FindIs(s, ':', |s|);
    assert HostPart(t) == t && HostPart(s) == s;
    var a, b := LowerAll(Take(t, NORM_MAX)), LowerAll(Take(s, NORM_MAX));
    if |s| > NORM_MAX {
      assert Take(t, NORM_MAX) == Take(s, NORM_MAX);
    } else {
      var n := |TrimRight(b, DOT)|;
      TrimRightIs(a, DOT, n);
      assert a[..n] == b[..n];
    }
  }

  // ---------- the decision ----------

  ghost predicate AnyMatches(rules: seq<Rule>, host: string) { exists i :: 0 <= i < |rules| && RuleMatches(rules[i], host) }

  /** The blocklist dominates; in allowlist mode a host must be listed. */
  ghost function Decide(p: Policy, host: string): Decision {
    if AnyMatches(p.block, Normal(host)) then DenyBlocklist
    else if p.allowlistActive && !AnyMatches(p.allow, Normal(host)) then DenyNotAllowlisted
    else Allow
  }

  method CheckHost(p: Policy, host: string) returns (d: Decision)
    ensures d == Decide(p, host)
  {
    hide Normal, RuleMatches;
    var norm := NormalizeHost(host);
    for i := 0 to |p.block|
      invariant forall j :: 0 <= j < i ==> !RuleMatches(p.block[j], norm)
    {
      if RuleMatches(p.block[i], norm) {
        return DenyBlocklist;
      }
    }
    if p.allowlistActive {
      for i := 0 to |p.allow|
        invariant forall j :: 0 <= j < i ==> !RuleMatches(p.allow[j], norm)
      {
        if RuleMatches(p.allow[i], norm) {
          return Allow;
        }
      }
      return DenyNotAllowlisted;
    }
    d := Allow;
  }

  /** The rule covers the host, by labels. */
  ghost predicate Covers(r: Rule, host: string) {
    if r.subdomains then IsSuffix(Labels(r.host), Labels(host)) && host != "." + r.host else host == r.host
  }

  ghost predicate AnyCovers(rules: seq<Rule>, host: string) { exists i :: 0 <= i < |rules| && Covers(rules[i], host) }

  /** The decision read off the label lists of the whole name. */
  ghost function DecideByLabels(p: Policy, host: string): Decision {
    if AnyCovers(p.block, FullNormal(host)) then DenyBlocklist
    else if p.allowlistActive && !AnyCovers(p.allow, FullNormal(host)) then DenyNotAllowlisted
    else Allow
  }

  /** Matching is covering, for every rule list. */
  lemma MatchIsCover(rules: seq<Rule>, h: string)
    ensures AnyMatches(rules, h) <==> AnyCovers(rules, h)
  {
    hide RuleMatches;
    forall i | 0 <= i < |rules| ensures RuleMatches(rules[i], h) <==> Covers(rules[i], h) {
      MatchIsLabelSuffix(rules[i], h);
    }
  }

  /** All spellings of a host, letter by letter, are decided alike... */
  lemma SpellingsDecideAlike(p: Policy, s: string, t: string)
    requires SameLetters(s, t)
    ensures Decide(p, s) == Decide(p, t)
  {
    hide Normal;
    SameLettersLower(s, t);
    CaseDoesNotMatter(s, t);
  }

  /** ...and a rule catches every spelling of its own host. */
  lemma EverySpellingMatches(r: Rule, s: string)
    requires SameLetters(s, r.host) && IsSmallName(r.host)
    ensures RuleMatches(r, Normal(s))
    ensures forall p: Policy :: r in p.block ==> Decide(p, s) == DenyBlocklist
  {
    hide Normal, IsSmallName, SameLetters;
    SameLettersLower(s, r.host);
    CaseDoesNotMatter(s, r.host);
    SmallNameIsNormal(r.host);
    forall p: Policy | r in p.block ensures Decide(p, s) == DenyBlocklist {
      var i :| 0 <= i < |p.block| && p.block[i] == r;
      assert RuleMatches(p.block[i], Normal(s));
    }
  }

  /** At most 253 characters, no capital, no colon and no dot at the end. */
  ghost predicate IsSmallName(h: string) {
    && |h| <= HOST_MAX && (h != "" ==> h[|h| - 1] != '.')
    && forall i :: 0 <= i < |h| ==> h[i] != ':' && !(65 <= h[i] as int <= 90)
  }

  lemma SmallNameIsNormal(h: string)
    requires IsSmallName(h)
    ensures Normal(h) == h
  {
    hide TrimRight, Find;
    FindIs(h, ':', |h|);
    assert HostPart(h) == h && LowerAll(h) == h;
    TrimRightIs(h, DOT, |h|);
    assert h[..|h|] == h;
  }

  lemma DecisionByLabels(p: Policy, host: string)
    requires DotsBeyond(host)
    ensures Decide(p, host) == DecideByLabels(p, host)
  {
    hide AnyMatches, AnyCovers, Normal, FullNormal;
    TruncationMatters(host);
    MatchIsCover(p.block, Normal(host));
    MatchIsCover(p.allow, Normal(host));
  }

  /** Policies decide a host by its labels, all of them, if and only if nothing but dots lies beyond the cut. */
  lemma LabelsDecideExactly(host: string)
    ensures (forall p :: Decide(p, host) == DecideByLabels(p, host)) <==> DotsBeyond(host)
  {
    if DotsBeyond(host) {
      forall p ensures Decide(p, host) == DecideByLabels(p, host) { DecisionByLabels(p, host); }
    } else {
      hide Normal, FullNormal, DotsBeyond;
      TruncationMatters(host);
      var r := Rule(Normal(host), false);
      var p := Policy([r], [], false);
      assert RuleMatches(p.block[0], Normal(host)) && !Covers(p.block[0], FullNormal(host));
      assert Decide(p, host) == DenyBlocklist && DecideByLabels(p, host) == Allow;
    }
  }

  /** Beyond 254 characters the label reading fails: a rule of 253 characters matches a longer name. */
  lemma TruncationMatchesOtherHost() returns (r: Rule, host: string)
    ensures r == Rule(Repeat('a', 253), false) && host == r.host + ".x" && !DotsBeyond(host)
    ensures RuleMatches(r, Normal(host)) && !Covers(r, FullNormal(host))
  {
    var a := Repeat('a', 253);
    r, host := Rule(a, false), a + "." + "x";
    FindIs(host, ':', 255);
    assert HostPart(host) == host && host[..254] == a + ".";
    assert LowerAll(a + ".") == a + "." && LowerAll(host) == host;
    TrimRightIs(a + ".", DOT, 253);
    assert (a + ".")[..253] == a;
    TrimRightIs(host, DOT, 255);
    assert host[..255] == host;
    assert host[254] == 'x';
  }
}
