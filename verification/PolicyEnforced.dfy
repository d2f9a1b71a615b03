/** src/policy.c: from the text of the rule files to the decision, and the exact hosts for which the cut at 254
    characters does not show. */
module PolicyEnforced {
  import opened Text
  import opened Policy
  import opened PolicyFile

  // ---------- rules and the lines they come from ----------

  ghost predicate LineCovers(line: string, host: string) { Kind(line).Good? && Covers(Kind(line).rule, host) }

  ghost predicate SomeLineCovers(ls: seq<string>, host: string) { exists i :: 0 <= i < |ls| && LineCovers(ls[i], host) }

  lemma {:induction false} RulesCoverAsLines(ls: seq<string>, host: string)
    ensures AnyCovers(Rules(ls), host) <==> SomeLineCovers(ls, host)
  {
    hide Kind, Covers;
    if ls != [] {
      var rest := ls[1..];
      RulesCoverAsLines(rest, host);
      if AnyCovers(Rules(rest), host) {
        var i :| 0 <= i < |rest| && LineCovers(rest[i], host);
        assert ls[i + 1] == rest[i];
      }
      if SomeLineCovers(ls, host) && !LineCovers(ls[0], host) {
        var i :| 0 <= i < |ls| && LineCovers(ls[i], host);
        assert rest[i - 1] == ls[i];
      }
      FirstRule(ls, host);
    }
  }

  lemma FirstRule(ls: seq<string>, host: string)
    requires ls != []
    ensures AnyCovers(Rules(ls), host) <==> LineCovers(ls[0], host) || AnyCovers(Rules(ls[1..]), host)
  {
    hide Kind, Covers;
    var all, rest := Rules(ls), Rules(ls[1..]);
    if Kind(ls[0]).Good? {
      assert all == [Kind(ls[0]).rule] + rest;
      assert all[0] == Kind(ls[0]).rule;
      if AnyCovers(rest, host) {
        var i :| 0 <= i < |rest| && Covers(rest[i], host);
        assert all[i + 1] == rest[i];
      }
    } else {
      assert all == rest;
    }
  }

  lemma {:induction false} TextMeansLine(ls: seq<string>)
    ensures HasText(ls) <==> exists i :: 0 <= i < |ls| && Kind(ls[i]) != Blank
  {
    if ls != [] {
      var rest := ls[1..];
      TextMeansLine(rest);
      if HasText(rest) {
        var i :| 0 <= i < |rest| && Kind(rest[i]) != Blank;
        assert ls[i + 1] == rest[i];
      }
      if i :| 0 <= i < |ls| && Kind(ls[i]) != Blank {
        if i > 0 { assert rest[i - 1] == ls[i]; }
      }
    }
  }

  lemma {:induction false} RulesAreWellFormed(ls: seq<string>, i: nat)
    requires i < |Rules(ls)|
    ensures WellFormed(Rules(ls)[i])
  {
    hide WellFormed, RuleOf;
    var rest := ls[1..];
    if Kind(ls[0]).Good? {
      if i == 0 { LoadedIsWellFormed(ls[0], Rules(ls)[0]); } else { RulesAreWellFormed(rest, i - 1); }
    } else {
      RulesAreWellFormed(rest, i);
    }
  }

  // ---------- which rules reach a host ----------

  /** A rule file can hold this name. */
  ghost predicate IsRuleHost(h: string) { WellFormed(Rule(h, false)) }

  lemma {:induction false} LabelsHaveNoDots(s: string)
    ensures forall i :: 0 <= i < |Labels(s)| ==> '.' !in Labels(s)[i]
    decreases |s|
  {
    hide Labels;
    var k := Find(s, '.');
    LabelsAt(s, k);
    if k < |s| { LabelsHaveNoDots(s[k + 1..]); }
  }

  lemma {:induction false} LabelsJoin(ls: seq<string>)
    requires ls != [] && forall i :: 0 <= i < |ls| ==> '.' !in ls[i]
    ensures Labels(Join(ls)) == ls
  {
    hide Labels;
    LabelsAt(ls[0], |ls[0]|);
    if |ls| > 1 {
      LabelsJoin(ls[1..]);
      LabelsConcat(ls[0], Join(ls[1..]));
    } else {
      assert ls == [ls[0]];
    }
  }

  /** The longest tail of the labels that spells a rule's name. */
  ghost function Longest(ls: seq<string>): seq<string> {
    if ls == [] then [] else if IsRuleHost(Join(ls)) then ls else Longest(ls[1..])
  }

  /** The tail of a host that the longest subdomain rule for it can have: a bare dot in front is not enough. */
  ghost function Tail(x: string): seq<string> {
    var ls := Labels(x);
    if |ls| > 1 && ls[0] == "" then Longest(ls[2..]) else Longest(ls)
  }

  lemma {:induction false} LongestIs(ls: seq<string>, s: seq<string>)
    ensures IsSuffix(Longest(ls), ls) && (Longest(ls) != [] ==> IsRuleHost(Join(Longest(ls))))
    ensures IsSuffix(s, ls) && s != [] && IsRuleHost(Join(s)) ==> IsSuffix(s, Longest(ls))
  {
    hide IsRuleHost;
    if ls != [] && !IsRuleHost(Join(ls)) {
      LongestIs(ls[1..], s);
      assert ls[0..] == ls;
      if IsSuffix(s, ls) && s != [] && IsRuleHost(Join(s)) {
        assert |s| < |ls|;
        assert ls[1..][|ls| - 1 - |s|..] == ls[|ls| - |s|..];
      }
      var t := Longest(ls[1..]);
      assert ls[1..][|ls| - 1 - |t|..] == ls[|ls| - |t|..];
    } else if ls != [] {
      assert ls[0..] == ls;
    }
  }

  /** A subdomain rule that a file can hold covers a host exactly when it is a tail of the host's `Tail`. */
  lemma CoverByTail(r: Rule, x: string)
    requires WellFormed(r) && r.subdomains
    ensures Covers(r, x) <==> IsSuffix(Labels(r.host), Tail(x))
  {
    hide Labels, Longest, WellFormed, IsRuleHost, IsSuffix;
    var ls, s := Labels(x), Labels(r.host);
    JoinLabels(r.host);
    RuleHostOf(r);
    if |ls| > 1 && ls[0] == "" {
      DottedCover(r, x);
      LongestIs(ls[2..], s);
      SuffixTrans(s, Longest(ls[2..]), ls[2..]);
    } else {
      NotDotted(r, x);
      LongestIs(ls, s);
      SuffixTrans(s, Longest(ls), ls);
    }
  }

  lemma NotDotted(r: Rule, x: string)
    requires !(|Labels(x)| > 1 && Labels(x)[0] == "")
    ensures x != "." + r.host
  {
    hide Labels;
    DottedLabels(r.host);
  }

  lemma DottedLabels(h: string)
    ensures Labels("." + h) == [""] + Labels(h)
  {
    hide Labels;
    LabelsConcat("", h);
    LabelsAt("", 0);
    assert "" + "." + h == "." + h;
  }

  /** With an empty first label, a rule covers the host only from the third label on. */
  lemma DottedCover(r: Rule, x: string)
    requires WellFormed(r) && |Labels(x)| > 1 && Labels(x)[0] == ""
    ensures IsSuffix(Labels(r.host), Labels(x)) && x != "." + r.host <==> IsSuffix(Labels(r.host), Labels(x)[2..])
  {
    hide Labels;
    var ls, s := Labels(x), Labels(r.host);
    var t := ls[2..];
    DottedLabels(r.host);
    assert ls[0..] == ls;
    if IsSuffix(s, ls) {
      assert |s| < |ls|;
      if |s| == |ls| - 1 {
        assert ls == [""] + s;
        JoinLabels(x);
        JoinLabels(r.host);
        assert ls[1..] == s && x == "" + "." + r.host;
      } else {
        assert t[|t| - |s|..] == ls[|ls| - |s|..];
      }
    }
    if IsSuffix(s, t) {
      assert ls[|ls| - |s|..] == t[|t| - |s|..];
    }
  }

  lemma RuleHostOf(r: Rule)
    requires WellFormed(r)
    ensures IsRuleHost(r.host)
  {
  }

  lemma SuffixTrans(a: seq<string>, b: seq<string>, c: seq<string>)
    ensures IsSuffix(a, b) && IsSuffix(b, c) ==> IsSuffix(a, c)
  {
    if IsSuffix(a, b) && IsSuffix(b, c) { assert c[|c| - |b|..][|b| - |a|..] == c[|c| - |a|..]; }
  }

  // ---------- exactly when the cut does not show ----------

  /** No rule that a file can hold tells these two names apart. */
  ghost predicate SameToRules(a: string, b: string) {
    a == b || (!IsRuleHost(a) && !IsRuleHost(b) && Tail(a) == Tail(b))
  }

  ghost predicate Undistinguished(a: string, b: string) { forall r :: WellFormed(r) ==> (Covers(r, a) <==> Covers(r, b)) }

  lemma SameAreUndistinguished(a: string, b: string)
    requires SameToRules(a, b)
    ensures Undistinguished(a, b)
  {
    forall r | WellFormed(r) ensures Covers(r, a) <==> Covers(r, b) {
      if r.subdomains {
        CoverByTail(r, a);
        CoverByTail(r, b);
      } else {
        RuleHostOf(r);
      }
    }
  }

  /** A rule that covers one name and not the other. */
  lemma TellApart(a: string, b: string) returns (r: Rule)
    requires !SameToRules(a, b)
    ensures WellFormed(r) && (Covers(r, a) <==> !Covers(r, b))
  {
    hide WellFormed, Tail, Labels;
    if IsRuleHost(a) {
      r := Rule(a, false);
    } else if IsRuleHost(b) {
      r := Rule(b, false);
    } else if |Tail(a)| >= |Tail(b)| {
      r := LongerTail(a, b);
    } else {
      r := LongerTail(b, a);
    }
  }

  lemma LongerTail(a: string, b: string) returns (r: Rule)
    requires Tail(a) != Tail(b) && |Tail(a)| >= |Tail(b)|
    ensures WellFormed(r) && Covers(r, a) && !Covers(r, b)
  {
    hide Labels, Longest, WellFormed, IsSuffix, Covers;
    TailIsRule(a);
    var t := Tail(a);
    r := Rule(Join(t), true);
    SubdomainsToo(Join(t));
    LabelsJoin(t);
    CoverByTail(r, a);
    CoverByTail(r, b);
    LongSuffix(t, Tail(a));
    LongSuffix(t, Tail(b));
  }

  lemma LongSuffix(s: seq<string>, t: seq<string>)
    requires |s| >= |t|
    ensures IsSuffix(s, t) <==> s == t
  {
    if |s| == |t| { assert t[0..] == t; }
  }

  lemma SubdomainsToo(h: string)
    requires IsRuleHost(h)
    ensures WellFormed(Rule(h, true))
  {
  }

  lemma TailIsRule(x: string)
    ensures Tail(x) != [] ==> IsRuleHost(Join(Tail(x)))
    ensures forall i :: 0 <= i < |Tail(x)| ==> '.' !in Tail(x)[i]
  {
    hide Labels, Longest, IsRuleHost;
    var ls, t := Labels(x), Tail(x);
    LabelsHaveNoDots(x);
    LongestIs(ls, []);
    if |ls| > 1 && ls[0] == "" {
      LongestIs(ls[2..], []);
      forall i | 0 <= i < |t| ensures '.' !in t[i] { assert t[i] == ls[2..][|ls| - 2 - |t| + i]; }
    } else {
      forall i | 0 <= i < |t| ensures '.' !in t[i] { assert t[i] == ls[|ls| - |t| + i]; }
    }
  }

  /** A file of one line. */
  lemma OneRuleFile(r: Rule)
    requires WellFormed(r)
    ensures LinesOf(Some(Print(r))) == [Print(r)] && Rules([Print(r)]) == [r] && Rules([]) == []
  {
    hide RuleOf, Lines, Labels;
    var line := Print(r);
    RuleRoundTrip(r);
    NoEmptyLabel(r.host);
    forall i | 0 <= i < |line| ensures line[i] != '\n' && line[i] != NUL {
      assert IsNameChar(line[i]);
    }
    NulFree(line);
    ReadsAreLines(line);
    FindIs(line, '\n', |line|);
    assert [line][1..] == [];
  }

  ghost predicate AllWellFormed(rules: seq<Rule>) { forall i :: 0 <= i < |rules| ==> WellFormed(rules[i]) }

  lemma SameCover(rules: seq<Rule>, a: string, b: string)
    requires AllWellFormed(rules) && Undistinguished(a, b)
    ensures AnyMatches(rules, a) <==> AnyCovers(rules, b)
  {
    hide RuleMatches, Covers, WellFormed;
    MatchIsCover(rules, a);
    forall i | 0 <= i < |rules| ensures Covers(rules[i], a) <==> Covers(rules[i], b) {
      assert WellFormed(rules[i]);
    }
  }

  /** The loaded files decide this host by its labels. */
  ghost predicate DecidesByLabels(allow: Option<string>, block: Option<string>, host: string) {
    Decide(PolicyOf(allow, block), host) == DecideByLabels(PolicyOf(allow, block), host)
  }

  lemma LoadedDecideByLabels(allow: Option<string>, block: Option<string>, host: string)
    requires SameToRules(Normal(host), FullNormal(host))
    ensures DecidesByLabels(allow, block, host)
  {
    hide AnyMatches, AnyCovers, Normal, FullNormal, SameToRules, Undistinguished, WellFormed, Rules, Lines, HasText;
    SameAreUndistinguished(Normal(host), FullNormal(host));
    var p := PolicyOf(allow, block);
    forall i | 0 <= i < |p.block| ensures WellFormed(p.block[i]) { RulesAreWellFormed(LinesOf(block), i); }
    forall i | 0 <= i < |p.allow| ensures WellFormed(p.allow[i]) { RulesAreWellFormed(LinesOf(allow), i); }
    SameCover(p.block, Normal(host), FullNormal(host));
    SameCover(p.allow, Normal(host), FullNormal(host));
  }

  /** All rule files decide a host by the labels of its whole name if and only if no rule that a file can hold tells
      the whole name from the cut one: they are equal, or neither is a rule's name and both have the same longest tail
      that is. */
  lemma EnforcedExactly(host: string)
    ensures (forall allow, block :: DecidesByLabels(allow, block, host)) <==> SameToRules(Normal(host), FullNormal(host))
  {
    hide SameToRules, DecidesByLabels;
    if SameToRules(Normal(host), FullNormal(host)) {
      forall allow, block ensures DecidesByLabels(allow, block, host) { LoadedDecideByLabels(allow, block, host); }
    } else {
      var block := SomeFileShows(host);
    }
  }

  lemma SomeFileShows(host: string) returns (block: Option<string>)
    requires !SameToRules(Normal(host), FullNormal(host))
    ensures !DecidesByLabels(None, block, host)
  {
    hide SameToRules, Normal, FullNormal, WellFormed, RuleMatches, Covers, Rules, Lines, RuleOf;
    var r := TellApart(Normal(host), FullNormal(host));
    block := Some(Print(r));
    OneRuleFile(r);
    var p := PolicyOf(None, block);
    assert p.block == [r] && p.block[0] == r && !p.allowlistActive;
    MatchIsCover(p.block, Normal(host));
  }

  lemma LongLabel(x: string)
    requires |x| > HOST_MAX && '.' !in x
    ensures !IsRuleHost(x) && Tail(x) == []
  {
    hide Labels;
    LabelsAt(x, |x|);
    assert Labels(x) == [x] && [x][1..] == [] && Join([x]) == x;
    assert Longest([x]) == Longest([]) == [];
  }

  /** Names with nothing but dots beyond the cut are among these... */
  lemma DotsBeyondIsSame(host: string)
    ensures DotsBeyond(host) ==> SameToRules(Normal(host), FullNormal(host))
  {
    TruncationMatters(host);
  }

  /** ...and so is a single label that is too long for any rule. */
  lemma OneLongLabel() returns (host: string)
    ensures !DotsBeyond(host) && SameToRules(Normal(host), FullNormal(host))
  {
    hide TrimRight, Find, Labels;
    host := Repeat('a', 255);
    FindIs(host, ':', 255);
    assert HostPart(host) == host && host[254] == 'a';
    assert LowerAll(host) == host && LowerAll(host[..254]) == host[..254];
    TrimRightIs(host, DOT, 255);
    TrimRightIs(host[..254], DOT, 254);
    assert host[..255] == host && host[..254][..254] == host[..254];
    LongLabel(host);
    LongLabel(host[..254]);
  }

  /** What is written is enforced: a host is let through exactly when no line of the blocklist covers it by
      labels and the allowlist either says nothing at all or has a line that covers it. */
  lemma EnforcedAsWritten(allow: Option<string>, block: Option<string>, host: string)
    requires SameToRules(Normal(host), FullNormal(host))
    ensures Decide(PolicyOf(allow, block), host) == Allow <==>
            && !SomeLineCovers(LinesOf(block), FullNormal(host))
            && ((forall i :: 0 <= i < |LinesOf(allow)| ==> Kind(LinesOf(allow)[i]) == Blank)
                || SomeLineCovers(LinesOf(allow), FullNormal(host)))
  {
    hide Decide, Normal, FullNormal, AnyCovers, Rules, Kind, Lines, HasText, SameToRules;
    LoadedDecideByLabels(allow, block, host);
    RulesCoverAsLines(LinesOf(block), FullNormal(host));
    RulesCoverAsLines(LinesOf(allow), FullNormal(host));
    TextMeansLine(LinesOf(allow));
  }
}
