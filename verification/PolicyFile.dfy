/** src/policy.c: reading rule lines and rule files. */
module PolicyFile {
  import opened Text
  import opened Policy

  const ENDS: set<char> := {'#', '\r', '\n'}

  datatype RuleLine = Blank | Malformed | Good(rule: Rule)

  // ---------- one line ----------

  /** Index of the first character of `cs`, or the length. */
  function FindIn(s: string, cs: set<char>): (k: nat)
    ensures k <= |s| && (k < |s| ==> s[k] in cs)
    ensures forall i :: 0 <= i < k ==> s[i] !in cs
  {
    if s == "" || s[0] in cs then 0 else 1 + FindIn(s[1..], cs)
  }

  lemma FindInIs(s: string, cs: set<char>, k: nat)
    requires k <= |s| && (forall i :: 0 <= i < k ==> s[i] !in cs) && (k < |s| ==> s[k] in cs)
    ensures FindIn(s, cs) == k
  {
  }

  /** Length, characters and no empty label before any dot. */
  predicate Scanned(h: string) {
    && 1 <= |h| <= HOST_MAX
    && (forall i :: 0 <= i < |h| ==> IsNameChar(h[i]))
    && (forall i :: 0 <= i < |h| && h[i] == '.' ==> i > 0 && h[i - 1] != '.')
  }

  function Trimmed(line: string): string { TrimRight(TrimLeft(line[..FindIn(line, ENDS)], SPACE), SPACE) }

  /** The classification the line scanner computes. */
  function RuleOf(line: string): RuleLine {
    if FindIn(line, ENDS) >= LINE_MAX then Malformed else
    var t := Trimmed(line);
    if t == "" then Blank else
    var h := TrimRight(if t[0] == '.' then t[1..] else t, DOT);
    if Scanned(h) then Good(Rule(LowerAll(h), t[0] == '.')) else Malformed
  }

  /** Trims white space on both sides. */
  method Trim(buf: string) returns (t: string)
    ensures t == TrimRight(TrimLeft(buf, SPACE), SPACE)
  {
    hide TrimLeft, TrimRight;
    var a := 0;
    while a < |buf| && buf[a] in SPACE
      invariant 0 <= a <= |buf| && forall i :: 0 <= i < a ==> buf[i] in SPACE
    {
      a := a + 1;
    }
    TrimLeftIs(buf, SPACE, a);
    t := buf[a..];
    var b := |t|;
    while b > 0 && t[b - 1] in SPACE
      invariant 0 <= b <= |t| && forall i :: b <= i < |t| ==> t[i] in SPACE
    {
      b := b - 1;
    }
    TrimRightIs(t, SPACE, b);
    t := t[..b];
  }

  /** Checks a trimmed host character by character. */
  method ScanHost(h: string) returns (ok: bool)
    ensures ok <==> Scanned(h)
  {
    if |h| == 0 || |h| > HOST_MAX {
      return false;
    }
    var prev := '.';
    for i := 0 to |h|
      invariant prev == if i == 0 then '.' else h[i - 1]
      invariant forall j :: 0 <= j < i ==> IsNameChar(h[j])
      invariant forall j :: 0 <= j < i && h[j] == '.' ==> j > 0 && h[j - 1] != '.'
    {
      if !IsNameChar(h[i]) || (h[i] == '.' && prev == '.') {
        return false;
      }
      prev := h[i];
    }
    ok := true;
  }

  method ParseRuleLine(line: string) returns (r: RuleLine)
    ensures r == RuleOf(line)
  {
    hide TrimLeft, TrimRight, FindIn, Scanned;
    var n := 0;
    while n < |line| && line[n] !in ENDS
      invariant 0 <= n <= |line| && forall i :: 0 <= i < n ==> line[i] !in ENDS
    {
      n := n + 1;
    }
    FindInIs(line, ENDS, n);
    if n >= LINE_MAX {
      return Malformed;
    }
    var t := Trim(line[..n]);
    if t == "" {
      return Blank;
    }
    var subdomains := t[0] == '.';
    var start := if subdomains then t[1..] else t;
    start := StripDots(start);
    var ok := ScanHost(start);
    if !ok {
      return Malformed;
    }
    r := Good(Rule(LowerAll(start), subdomains));
  }

  // ---------- the line grammar ----------

  /** How a rule line is made up: indent, optional dot, host, trailing dots, white space, comment or line end. */
  datatype Parts = Parts(lead: string, host: string, dots: string, trail: string, rest: string)

  ghost predicate AllIn(s: string, cs: set<char>) { forall i :: 0 <= i < |s| ==> s[i] in cs }

  function Core(p: Parts, subdomains: bool): string { (if subdomains then "." else "") + p.host + p.dots }

  ghost predicate Spells(line: string, r: Rule, p: Parts) {
    && line == p.lead + Core(p, r.subdomains) + p.trail + p.rest
    && |line| - |p.rest| < LINE_MAX
    && AllIn(p.lead, SPACE - ENDS) && AllIn(p.trail, SPACE - ENDS) && AllIn(p.dots, DOT)
    && (p.rest != "" ==> p.rest[0] in ENDS)
    && |p.host| <= HOST_MAX && (forall i :: 0 <= i < |p.host| ==> IsNameChar(p.host[i]))
    && NonEmpty(Labels(p.host))
    && LowerAll(p.host) == r.host
  }

  ghost predicate DotsInside(h: string) {
    h != "" && h[|h| - 1] != '.' && forall i :: 0 <= i < |h| && h[i] == '.' ==> i > 0 && h[i - 1] != '.'
  }

  ghost predicate NonEmpty(ls: seq<string>) { forall i :: 0 <= i < |ls| ==> ls[i] != "" }

  /** No label is empty exactly when no dot leads, trails or follows a dot. */
  lemma {:induction false} NoEmptyLabel(h: string)
    ensures NonEmpty(Labels(h)) <==> DotsInside(h)
    decreases |h|
  {
    hide Labels;
    var k := Find(h, '.');
    LabelsAt(h, k);
    if k == |h| {
      assert Labels(h)[0] == h;
    } else {
      hide DotsInside, NonEmpty;
      var t := h[k + 1..];
      NoEmptyLabel(t);
      SplitLabels(h, k);
      NonEmptyCons(h[..k], Labels(t));
    }
  }

  lemma NonEmptyCons(l: string, ls: seq<string>)
    ensures NonEmpty([l] + ls) <==> l != "" && NonEmpty(ls)
  {
    var all := [l] + ls;
    if NonEmpty(all) {
      assert all[0] == l;
      forall i | 0 <= i < |ls| ensures ls[i] != "" {
        assert all[i + 1] == ls[i];
      }
    }
  }

  lemma SplitLabels(h: string, k: nat)
    requires k < |h| && h[k] == '.' && forall i :: 0 <= i < k ==> h[i] != '.'
    ensures DotsInside(h) <==> k > 0 && DotsInside(h[k + 1..])
  {
    var t := h[k + 1..];
    forall i | 0 <= i < |t| ensures t[i] == h[k + 1 + i] {
    }
    if DotsInside(h) {
      assert t != "" && t[|t| - 1] == h[|h| - 1];
      forall i | 0 <= i < |t| && t[i] == '.' ensures i > 0 && t[i - 1] != '.' {
        assert h[k + 1 + i] == '.' && h[k + i] != '.';
      }
    }
    if k > 0 && DotsInside(t) {
      forall i | 0 <= i < |h| && h[i] == '.' ensures i > 0 && h[i - 1] != '.' {
        if i > k { assert t[i - k - 1] == '.'; }
      }
    }
  }

  lemma HostCharsPlain()
    ensures forall c: char :: IsNameChar(c) ==> c !in SPACE && c !in ENDS
  {
  }

  lemma DotIsHostChar()
    ensures IsNameChar('.')
  {
  }

  /** Cutting and trimming leave the core of a spelled line. */
  lemma TrimmedIsCore(lead: string, core: string, trail: string, rest: string)
    requires AllIn(lead, SPACE - ENDS) && AllIn(trail, SPACE - ENDS) && (rest != "" ==> rest[0] in ENDS)
    requires core != "" && forall i :: 0 <= i < |core| ==> IsNameChar(core[i])
    ensures var line := lead + core + trail + rest;
            FindIn(line, ENDS) == |line| - |rest| && Trimmed(line) == core
  {
    hide TrimLeft, TrimRight, FindIn, IsNameChar;
    HostCharsPlain();
    var line, buf := lead + core + trail + rest, lead + core + trail;
    FindInIs(line, ENDS, |buf|);
    assert line[..|buf|] == buf;
    TrimLeftIs(buf, SPACE, |lead|);
    assert buf[|lead|..] == core + trail;
    TrimRightIs(core + trail, SPACE, |core|);
    assert (core + trail)[..|core|] == core;
  }

  lemma SpelledIsGood(line: string, r: Rule, p: Parts)
    requires Spells(line, r, p)
    ensures RuleOf(line) == Good(r)
  {
    hide TrimLeft, TrimRight, FindIn, Labels, Trimmed, LowerAll, NonEmpty, IsNameChar, Core;
    NoEmptyLabel(p.host);
    var core := Core(p, r.subdomains);
    CoreIs(p, r.subdomains);
    TrimmedIsCore(p.lead, core, p.trail, p.rest);
  }

  lemma CoreIs(p: Parts, subdomains: bool)
    requires DotsInside(p.host) && AllIn(p.dots, DOT) && forall i :: 0 <= i < |p.host| ==> IsNameChar(p.host[i])
    ensures var core := Core(p, subdomains);
            && core != "" && (forall i :: 0 <= i < |core| ==> IsNameChar(core[i])) && (core[0] == '.' <==> subdomains)
            && TrimRight(if core[0] == '.' then core[1..] else core, DOT) == p.host
  {
    hide TrimRight, IsNameChar;
    var core, start := Core(p, subdomains), p.host + p.dots;
    DotIsHostChar();
    StartIs(p.host, p.dots);
    if subdomains {
      assert core == "." + start && core[1..] == start;
    } else {
      assert core == start;
    }
  }

  lemma StartIs(host: string, dots: string)
    requires DotsInside(host) && AllIn(dots, DOT) && forall i :: 0 <= i < |host| ==> IsNameChar(host[i])
    ensures var start := host + dots;
            start[0] != '.' && (forall i :: 0 <= i < |start| ==> IsNameChar(start[i])) && TrimRight(start, DOT) == host
  {
    hide TrimRight, IsNameChar;
    DotIsHostChar();
    TrimRightIs(host + dots, DOT, |host|);
    assert (host + dots)[..|host|] == host;
  }

  /** What a rule line went through. */
  lemma GoodIsScanned(line: string, r: Rule)
    requires RuleOf(line) == Good(r)
    ensures var t := Trimmed(line);
            && FindIn(line, ENDS) < LINE_MAX && t != "" && r.subdomains == (t[0] == '.')
            && var h := TrimRight(if t[0] == '.' then t[1..] else t, DOT);
               Scanned(h) && DotsInside(h) && r.host == LowerAll(h)
  {
    hide FindIn, Trimmed, TrimRight, LowerAll, IsNameChar;
  }

  lemma GoodIsSpelled(line: string, r: Rule) returns (p: Parts)
    requires RuleOf(line) == Good(r)
    ensures Spells(line, r, p)
  {
    hide Labels, LowerAll, FindIn, TrimLeft, TrimRight, NonEmpty, IsNameChar, Core, RuleOf, DotsInside, AllIn;
    GoodIsScanned(line, r);
    var n := FindIn(line, ENDS);
    var buf := line[..n];
    var left := TrimLeft(buf, SPACE);
    var t := TrimRight(left, SPACE);
    var start := if t[0] == '.' then t[1..] else t;
    var h := TrimRight(start, DOT);
    NoEmptyLabel(h);
    p := Parts(buf[..n - |left|], h, start[|h|..], left[|t|..], line[n..]);
    Reassemble(line, n, left, |t|);
    CoreBack(t, p);
    TrimmedAway(buf, left, SPACE);
    TrimmedOff(left, t, SPACE);
    TrimmedOff(start, h, DOT);
    NoEndsInside(line, n, p.lead, t, p.trail);
  }

  lemma TrimmedAway(s: string, r: string, ws: set<char>)
    requires r == TrimLeft(s, ws)
    ensures AllIn(s[..|s| - |r|], ws)
  {
    hide TrimLeft;
  }

  lemma TrimmedOff(s: string, r: string, ws: set<char>)
    requires r == TrimRight(s, ws)
    ensures AllIn(s[|r|..], ws)
  {
    hide TrimRight;
    var t := s[|r|..];
    forall i | 0 <= i < |t| ensures t[i] in ws { assert t[i] == s[|r| + i]; }
  }

  lemma CoreBack(t: string, p: Parts)
    requires t != ""
    requires var start := if t[0] == '.' then t[1..] else t;
             |p.host| <= |start| && p.host == start[..|p.host|] && p.dots == start[|p.host|..]
    ensures Core(p, t[0] == '.') == t
  {
    var start := if t[0] == '.' then t[1..] else t;
    assert start == p.host + p.dots;
    if t[0] == '.' {
      assert t == "." + start;
      assert "." + p.host + p.dots == "." + start;
    } else {
      assert "" + p.host + p.dots == start;
    }
  }

  lemma Reassemble(line: string, n: nat, left: string, k: nat)
    requires n <= |line| && |left| <= n && left == line[..n][n - |left|..] && k <= |left|
    ensures var lead, t, trail := line[..n][..n - |left|], left[..k], left[k..];
            line[..n] == lead + t + trail && line == lead + t + trail + line[n..]
  {
    var buf := line[..n];
    var lead := buf[..n - |left|];
    assert left == left[..k] + left[k..];
    assert buf == lead + left;
    assert lead + left[..k] + left[k..] == lead + left;
    assert line == buf + line[n..];
  }

  lemma NoEndsInside(line: string, n: nat, lead: string, t: string, trail: string)
    requires n <= |line| && line[..n] == lead + t + trail && forall i :: 0 <= i < n ==> line[i] !in ENDS
    requires AllIn(lead, SPACE) && AllIn(trail, SPACE)
    ensures AllIn(lead, SPACE - ENDS) && AllIn(trail, SPACE - ENDS)
  {
    forall i | 0 <= i < |lead| ensures lead[i] !in ENDS {
      assert line[..n][i] == lead[i];
    }
    forall i | 0 <= i < |trail| ensures trail[i] !in ENDS {
      assert line[..n][|lead| + |t| + i] == trail[i];
    }
  }

  ghost predicate Spellable(line: string, r: Rule) { exists p :: Spells(line, r, p) }

  /** A blank of a rule line: space, tab, vertical tab or form feed. */
  predicate IsBlankChar(c: char) { c as int == 32 || c as int == 9 || c as int == 11 || c as int == 12 }

  /** A host of at most 253 name characters without an empty label, with or without a dot in front, is a rule whatever blanks
      stand around it and whatever comment or line end follows. */
  lemma RuleText(lead: string, dot: bool, host: string, trail: string, rest: string)
    requires forall i :: 0 <= i < |lead| ==> IsBlankChar(lead[i])
    requires forall i :: 0 <= i < |trail| ==> IsBlankChar(trail[i])
    requires rest == "" || rest[0] == '#' || rest[0] == '\r' || rest[0] == '\n'
    requires |host| <= 253 && DotsInside(host) && forall i :: 0 <= i < |host| ==> IsNameChar(host[i])
    requires |lead| + 1 + |host| + |trail| < 1024
    ensures RuleOf(lead + ((if dot then "." else "") + host) + trail + rest) == Good(Rule(LowerAll(host), dot))
  {
    hide RuleOf, Labels;
    NoEmptyLabel(host);
    var p, r := Parts(lead, host, "", trail, rest), Rule(LowerAll(host), dot);
    var line := lead + ((if dot then "." else "") + host) + trail + rest;
    assert Core(p, dot) == (if dot then "." else "") + host;
    SpelledIsGood(line, r, p);
  }

  /** Exactly the spelled lines are rules, exactly the lines with nothing but white space before their
      comment or end are blank, and so everything else is malformed. */
  lemma LineGrammar(line: string, r: Rule)
    ensures RuleOf(line) == Good(r) <==> Spellable(line, r)
    ensures RuleOf(line) == Blank <==> FindIn(line, ENDS) < LINE_MAX && AllIn(line[..FindIn(line, ENDS)], SPACE)
  {
    if RuleOf(line) == Good(r) {
      var p := GoodIsSpelled(line, r);
    }
    if Spellable(line, r) {
      var p :| Spells(line, r, p);
      SpelledIsGood(line, r, p);
    }
    BlankTrim(line[..FindIn(line, ENDS)]);
  }

  lemma BlankTrim(buf: string)
    ensures TrimRight(TrimLeft(buf, SPACE), SPACE) == "" <==> AllIn(buf, SPACE)
  {
    hide TrimLeft, TrimRight;
    if AllIn(buf, SPACE) {
      TrimLeftIs(buf, SPACE, |buf|);
      TrimRightIs("", SPACE, 0);
    } else {
      var left := TrimLeft(buf, SPACE);
      assert left != "" && left[0] !in SPACE;
    }
  }

  // ---------- printing ----------

  function Print(r: Rule): string { (if r.subdomains then "." else "") + r.host }

  ghost predicate WellFormed(r: Rule) {
    && |r.host| <= HOST_MAX && (forall i :: 0 <= i < |r.host| ==> IsNameChar(r.host[i]))
    && NonEmpty(Labels(r.host)) && LowerAll(r.host) == r.host
  }

  /** A rule reads back from its printed form exactly when it is well formed... */
  lemma RuleRoundTrip(r: Rule)
    ensures RuleOf(Print(r)) == Good(r) <==> WellFormed(r)
  {
    hide Labels, TrimLeft, TrimRight, FindIn, LowerAll;
    if WellFormed(r) {
      SpelledIsGood(Print(r), r, Parts("", r.host, "", "", ""));
    }
    if RuleOf(Print(r)) == Good(r) { LoadedIsWellFormed(Print(r), r); }
  }

  /** ...and every rule that was read is. */
  lemma LoadedIsWellFormed(line: string, r: Rule)
    requires RuleOf(line) == Good(r)
    ensures WellFormed(r)
  {
    hide Labels, RuleOf, LowerAll, IsNameChar, NonEmpty, DotsInside, AllIn, Core;
    var p := GoodIsSpelled(line, r);
    NoEmptyLabel(p.host);
    LoweredName(p.host);
    NoEmptyLabel(r.host);
  }

  lemma LoweredName(h: string)
    requires DotsInside(h) && forall i :: 0 <= i < |h| ==> IsNameChar(h[i])
    ensures var l := LowerAll(h); DotsInside(l) && LowerAll(l) == l && forall i :: 0 <= i < |l| ==> IsNameChar(l[i])
  {
    var l := LowerAll(h);
    forall i | 0 <= i < |h| ensures IsNameChar(l[i]) && Lower(l[i]) == l[i] && (l[i] == '.' <==> h[i] == '.') {
      assert l[i] == Lower(h[i]);
    }
    assert LowerAll(l) == l;
  }

  // ---------- files ----------

  const NUL: char := 0 as char

  /** The lines of a text, without their line ends; nothing follows a final line end. */
  function TextLines(s: string): seq<string>
    decreases |s|
  {
    if s == "" then [] else
    var k := Find(s, '\n');
    if k == |s| then [s] else [s[..k]] + TextLines(s[k + 1..])
  }

  /** How much one buffered read takes: up to and including a line end, but at most 1023 characters. */
  function ChunkLength(s: string): (n: nat)
    ensures n <= |s| && n <= LINE_MAX - 1 && (s != "" ==> n > 0)
  {
    var k := Find(s, '\n');
    var n := if k < |s| then k + 1 else |s|;
    if n > LINE_MAX - 1 then LINE_MAX - 1 else n
  }

  function CString(s: string): string { s[..Find(s, NUL)] }

  /** The read filled the buffer without reaching a line end. */
  predicate TooLong(t: string) { |t| == LINE_MAX - 1 && t[|t| - 1] != '\n' }

  function FirstLineOf(s: string): string { s[..Find(s, '\n')] }

  function AfterLine(s: string): string { if Find(s, '\n') < |s| then s[Find(s, '\n') + 1..] else "" }

  function Stripped(t: string): string { if t != "" && t[|t| - 1] == '\n' then t[..|t| - 1] else t }

  /** The lines of a file as the loader reads them. A NUL ends the text of a read early; see `ReadsAreLines`. */
  function Lines(s: string): seq<string>
    decreases |s|
  {
    if s == "" then [] else
    var n := ChunkLength(s);
    var t := CString(s[..n]);
    if TooLong(t) then [FirstLineOf(s)] + Lines(AfterLine(s)) else [Stripped(t)] + Lines(s[n..])
  }

  /** A line of 1023 characters or more does not fit the read buffer. */
  function Kind(line: string): RuleLine { if |line| >= LINE_MAX - 1 then Malformed else RuleOf(line) }

  function Rules(ls: seq<string>): seq<Rule> {
    if ls == [] then [] else
    (match Kind(ls[0]) case Good(r) => [r] case _ => []) + Rules(ls[1..])
  }

  function Bad(ls: seq<string>): nat {
    if ls == [] then 0 else (if Kind(ls[0]) == Malformed then 1 else 0) + Bad(ls[1..])
  }

  function Blanks(ls: seq<string>): nat {
    if ls == [] then 0 else (if Kind(ls[0]) == Blank then 1 else 0) + Blanks(ls[1..])
  }

  predicate HasText(ls: seq<string>) { ls != [] && (Kind(ls[0]) != Blank || HasText(ls[1..])) }

  /** Every line is counted once. */
  lemma {:induction false} EveryLineCounted(ls: seq<string>)
    ensures |Rules(ls)| + Bad(ls) + Blanks(ls) == |ls|
    ensures HasText(ls) <==> |Rules(ls)| + Bad(ls) > 0
  {
    if ls != [] { EveryLineCounted(ls[1..]); }
  }

  /** Reads up to 1023 characters, stopping behind a line end. */
  method Fgets(s: string, pos: nat) returns (chunk: string)
    requires pos <= |s|
    ensures var n := ChunkLength(s[pos..]); pos + n <= |s| && chunk == s[pos..pos + n]
  {
    hide Find;
    ghost var rest := s[pos..];
    chunk := "";
    while |chunk| < LINE_MAX - 1 && pos + |chunk| < |s| && !(chunk != "" && chunk[|chunk| - 1] == '\n')
      invariant pos + |chunk| <= |s| && chunk == s[pos..pos + |chunk|] && |chunk| <= LINE_MAX - 1
      invariant forall i :: 0 <= i < |chunk| - 1 ==> chunk[i] != '\n'
      decreases LINE_MAX - |chunk|
    {
      chunk := chunk + [s[pos + |chunk|]];
    }
    assert chunk == rest[..|chunk|];
    ChunkIs(rest, chunk);
  }

  lemma ChunkIs(s: string, chunk: string)
    requires |chunk| <= |s| && chunk == s[..|chunk|] && |chunk| <= LINE_MAX - 1
    requires forall i :: 0 <= i < |chunk| - 1 ==> chunk[i] != '\n'
    requires |chunk| == LINE_MAX - 1 || |chunk| == |s| || (chunk != "" && chunk[|chunk| - 1] == '\n')
    ensures |chunk| == ChunkLength(s)
  {
    hide Find;
    var n := |chunk|;
    forall i | 0 <= i < n - 1 ensures s[i] != '\n' { assert chunk[i] == s[i]; }
    if n > 0 && chunk[n - 1] == '\n' {
      assert s[n - 1] == '\n';
      FindIs(s, '\n', n - 1);
    } else if n == |s| {
      forall i | 0 <= i < n ensures s[i] != '\n' { assert chunk[i] == s[i]; }
      FindIs(s, '\n', n);
    }
  }

  /** Skips the rest of a line with its line end. */
  method Discard(s: string, pos: nat) returns (next: nat)
    requires pos <= |s|
    ensures pos <= next <= |s| && s[next..] == AfterLine(s[pos..])
  {
    hide Find;
    next := pos;
    while next < |s| && s[next] != '\n'
      invariant pos <= next <= |s| && forall i :: pos <= i < next ==> s[i] != '\n'
    {
      next := next + 1;
    }
    FindIs(s[pos..], '\n', next - pos);
    if next < |s| {
      next := next + 1;
    }
  }

  /** No line has a NUL among the characters that one read takes. */
  predicate NoEarlyNul(s: string)
    decreases |s|
  {
    s != "" ==> NUL !in Take(FirstLineOf(s), LINE_MAX - 1) && NoEarlyNul(AfterLine(s))
  }

  lemma {:induction false} NulFree(s: string)
    requires NUL !in s
    ensures NoEarlyNul(s)
    decreases |s|
  {
    if s != "" { NulFree(AfterLine(s)); }
  }

  lemma TextLinesAt(s: string)
    requires s != ""
    ensures TextLines(s) == [FirstLineOf(s)] + TextLines(AfterLine(s))
  {
    hide Find;
    if Find(s, '\n') == |s| { assert s[..|s|] == s; }
  }

  /** What is read first, if no NUL comes early in the first line... */
  lemma ReadsLine(s: string)
    requires s != "" && NUL !in Take(FirstLineOf(s), LINE_MAX - 1)
    ensures Lines(s) == [FirstLineOf(s)] + Lines(AfterLine(s))
  {
    hide Find;
    var k, n := Find(s, '\n'), ChunkLength(s);
    var c := s[..n];
    forall i | 0 <= i < n ensures c[i] != NUL {
      if i < k { assert Take(s[..k], LINE_MAX - 1)[i] == c[i]; }
    }
    FindIs(c, NUL, n);
    assert c[..n] == c && c[n - 1] == s[n - 1];
    if !TooLong(c) {
      if k < |s| { assert Stripped(c) == s[..k]; } else { assert c == s && s[..k] == s && s[n..] == ""; }
    }
  }

  /** ...and if one does: less than the line. */
  lemma ReadsLess(s: string)
    requires s != "" && NUL in Take(FirstLineOf(s), LINE_MAX - 1)
    ensures Lines(s) != [] && |Lines(s)[0]| < |FirstLineOf(s)|
  {
    hide Find;
    var k, n := Find(s, '\n'), ChunkLength(s);
    var c, l := s[..n], Take(s[..k], LINE_MAX - 1);
    var i :| 0 <= i < |l| && l[i] == NUL;
    assert i < n && c[i] == NUL;
    var t := CString(c);
    assert |t| <= i < k;
    assert Lines(s)[0] == Stripped(t);
  }

  /** What is read is the text's lines exactly when no line has a NUL among its first 1023 characters. In
      particular a line too long for the buffer is one line and never swallows the next. */
  lemma {:induction false} ReadsAreLines(s: string)
    ensures Lines(s) == TextLines(s) <==> NoEarlyNul(s)
    decreases |s|
  {
    if s != "" {
      hide Lines, TextLines, FirstLineOf, AfterLine, Take, Find;
      TextLinesAt(s);
      if NUL in Take(FirstLineOf(s), LINE_MAX - 1) {
        ReadsLess(s);
        assert TextLines(s)[0] == FirstLineOf(s);
      } else {
        ReadsLine(s);
        AfterIsShorter(s);
        ReadsAreLines(AfterLine(s));
        assert Lines(s)[1..] == Lines(AfterLine(s)) && TextLines(s)[1..] == TextLines(AfterLine(s));
      }
    }
  }

  const HIDDEN := "a" + [NUL] + "*"

  /** A NUL hides the rest of its line: what the text says is malformed is read as a rule. */
  lemma NulHidesText()
    ensures TextLines(HIDDEN) == [HIDDEN] && Kind(HIDDEN) == Malformed
    ensures Lines(HIDDEN) == ["a"] && Kind("a") == Good(Rule("a", false))
  {
    hide RuleOf, Lines, TextLines, Labels;
    HiddenIsRead();
    HiddenIsMalformed();
    NoEmptyLabel("a");
    assert LowerAll("a") == "a";
    RuleRoundTrip(Rule("a", false));
    assert Print(Rule("a", false)) == "a";
  }

  lemma HiddenIsRead()
    ensures TextLines(HIDDEN) == [HIDDEN] && Lines(HIDDEN) == ["a"]
  {
    hide Find;
    FindIs(HIDDEN, '\n', 3);
    assert HIDDEN[..3] == HIDDEN && HIDDEN[3..] == "";
    FindIs(HIDDEN, NUL, 1);
    assert CString(HIDDEN) == "a";
  }

  lemma HiddenIsMalformed()
    ensures RuleOf(HIDDEN) == Malformed
  {
    hide TrimLeft, TrimRight, FindIn;
    FindInIs(HIDDEN, ENDS, 3);
    assert HIDDEN[..3] == HIDDEN && HIDDEN[0..] == HIDDEN;
    TrimLeftIs(HIDDEN, SPACE, 0);
    TrimRightIs(HIDDEN, SPACE, 3);
    TrimRightIs(HIDDEN, DOT, 3);
    assert Trimmed(HIDDEN) == HIDDEN && !IsNameChar(HIDDEN[2]);
  }

  lemma AfterIsShorter(s: string)
    requires s != ""
    ensures |AfterLine(s)| < |s|
  {
  }

  /** The line end does not change the classification. */
  lemma LineEndIgnored(line: string)
    requires '\n' !in line
    ensures RuleOf(line + "\n") == RuleOf(line)
  {
    var n := FindIn(line, ENDS);
    FindInIs(line + "\n", ENDS, n);
    assert (line + "\n")[..n] == line[..n];
  }

  // ---------- loading ----------

  datatype Loaded = Loaded(rules: seq<Rule>, malformed: nat, sawText: bool)

  ghost function Summary(s: string): Loaded { Loaded(Rules(Lines(s)), Bad(Lines(s)), HasText(Lines(s))) }

  /** What `a` lines already read and the rest `s` make together. */
  ghost function Together(a: Loaded, s: string): Loaded {
    Loaded(a.rules + Rules(Lines(s)), a.malformed + Bad(Lines(s)), a.sawText || HasText(Lines(s)))
  }

  function Add(a: Loaded, k: RuleLine): Loaded {
    match k
    case Blank => a
    case Malformed => a.(malformed := a.malformed + 1, sawText := true)
    case Good(r) => a.(rules := a.rules + [r], sawText := true)
  }

  /** Reading the first line moves it from the rest to what was read. */
  lemma FirstLine(a: Loaded, s: string, line: string, rest: string)
    requires Lines(s) == [line] + Lines(rest)
    ensures Together(a, s) == Together(Add(a, Kind(line)), rest)
  {
    hide Lines, Kind;
    var ls := Lines(s);
    assert ls[0] == line && ls[1..] == Lines(rest);
    assert Rules(ls) == (match Kind(line) case Good(r) => [r] case _ => []) + Rules(Lines(rest));
    assert a.rules + ([] + Rules(Lines(rest))) == a.rules + Rules(Lines(rest));
    if Kind(line).Good? {
      var r := Kind(line).rule;
      assert a.rules + ([r] + Rules(Lines(rest))) == (a.rules + [r]) + Rules(Lines(rest));
    }
  }

  /** One read is one line: too long for the buffer, or classified as the scanner classifies it. */
  lemma ChunkIsLine(s: string, chunk: string)
    requires s != "" && chunk == s[..ChunkLength(s)]
    ensures var t := CString(chunk);
            if TooLong(t) then
              Lines(s) == [FirstLineOf(s)] + Lines(AfterLine(s)) && Kind(FirstLineOf(s)) == Malformed
              && AfterLine(s) == AfterLine(s[|chunk|..])
            else
              Lines(s) == [Stripped(t)] + Lines(s[|chunk|..]) && Kind(Stripped(t)) == RuleOf(t)
  {
    hide RuleOf, Find, Kind, FirstLineOf, AfterLine, Stripped, ChunkLength;
    var t := CString(chunk);
    if TooLong(t) { TooLongLine(s, chunk); } else { WholeLine(s, chunk); }
  }

  lemma TooLongLine(s: string, chunk: string)
    requires chunk == s[..ChunkLength(s)] && TooLong(CString(chunk))
    ensures Kind(FirstLineOf(s)) == Malformed && AfterLine(s) == AfterLine(s[|chunk|..])
  {
    hide RuleOf, Find;
    var n, k := |chunk|, Find(s, '\n');
    assert CString(chunk) == chunk && s[n - 1] == chunk[n - 1];
    assert k >= n;
    var t := s[n..];
    forall i | 0 <= i < k - n ensures t[i] != '\n' { assert t[i] == s[n + i]; }
    FindIs(t, '\n', k - n);
    if k < |s| { assert t[k - n + 1..] == s[k + 1..]; }
  }

  lemma WholeLine(s: string, chunk: string)
    requires chunk == s[..ChunkLength(s)] && !TooLong(CString(chunk))
    ensures Kind(Stripped(CString(chunk))) == RuleOf(CString(chunk))
  {
    hide RuleOf, Find;
    var t := CString(chunk);
    if t != "" && t[|t| - 1] == '\n' {
      var n := |t| - 1;
      assert s[n] == '\n';
      forall i | 0 <= i < n ensures t[i] != '\n' { assert t[i] == s[i]; }
      assert t == t[..n] + "\n";
      LineEndIgnored(t[..n]);
    }
  }

  lemma JoinNothing(s: string)
    ensures Together(Loaded([], 0, false), s) == Summary(s)
  {
  }

  lemma JoinEmpty(a: Loaded)
    ensures Together(a, "") == a
  {
  }

  lemma JoinGrows(a: Loaded, s: string)
    ensures |Together(a, s).rules| >= |a.rules|
  {
  }

  lemma SummaryRules(s: string)
    ensures Summary(s).rules == Rules(Lines(s))
  {
  }

  /** Reads a rule file in buffer-sized chunks. `memory` is how often the rule array can grow. The outcome is
      that of the file's lines, whatever their lengths, and fails only when there are more rules than memory. */
  method LoadFile(content: Option<string>, memory: nat) returns (ok: bool, out: Loaded, missing: bool)
    ensures missing <==> content.None?
    ensures missing ==> ok && out == Loaded([], 0, false)
    ensures content.Some? ==>
              (ok <==> |Rules(Lines(content.value))| <= memory) && (ok ==> out == Summary(content.value))
  {
    hide Lines, RuleOf, Kind, Find, Together, Summary, Rules, ChunkLength, AfterLine, CString;
    out, missing, ok := Loaded([], 0, false), content.None?, true;
    if content.None? {
      return;
    }
    var s, pos := content.value, 0;
    assert s[0..] == s;
    JoinNothing(s);
    SummaryRules(s);
    var more := true;
    while more
      invariant pos <= |s| && |out.rules| <= memory && (!more ==> pos == |s|)
      invariant Together(out, s[pos..]) == Summary(s)
      decreases |s| - pos, more
    {
      var chunk := Fgets(s, pos);
      more := chunk != "";
      if more {
        ghost var rest := s[pos..];
        assert chunk == rest[..|chunk|] && rest[|chunk|..] == s[pos + |chunk|..];
        ChunkIsLine(rest, chunk);
        var line := CString(chunk);
        if TooLong(line) {
          pos := Discard(s, pos + |chunk|);
          FirstLine(out, rest, FirstLineOf(rest), s[pos..]);
          out := Add(out, Malformed);
        } else {
          var r := ParseRuleLine(line);
          pos := pos + |chunk|;
          FirstLine(out, rest, Stripped(line), s[pos..]);
          if r.Good? && |out.rules| == memory {
            JoinGrows(Add(out, r), s[pos..]);
            return false, out, missing;
          }
          out := Add(out, r);
        }
      }
    }
    assert s[pos..] == "";
    JoinEmpty(out);
  }

  datatype Report = Report(blockLoaded: nat, blockMalformed: nat, blockMissing: bool,
                           allowLoaded: nat, allowMalformed: nat, allowMissing: bool)

  function LinesOf(file: Option<string>): seq<string> { if file.Some? then Lines(file.value) else [] }

  function PolicyOf(allow: Option<string>, block: Option<string>): Policy {
    Policy(Rules(LinesOf(block)), Rules(LinesOf(allow)), HasText(LinesOf(allow)))
  }

  /** Loads both files; fails only for lack of memory. */
  method Load(allow: Option<string>, block: Option<string>, allowMemory: nat, blockMemory: nat)
    returns (p: Option<Policy>, report: Report)
    ensures p.Some? <==> |Rules(LinesOf(block))| <= blockMemory && |Rules(LinesOf(allow))| <= allowMemory
    ensures p.Some? ==> p.value == PolicyOf(allow, block) && Reports(report, allow, block)
  {
    hide Lines, Rules, Bad, HasText;
    NoLines();
    report := Report(0, 0, false, 0, 0, false);
    var ok, b, missing := LoadFile(block, blockMemory);
    if !ok {
      return None, report;
    }
    report := report.(blockLoaded := |b.rules|, blockMalformed := b.malformed, blockMissing := missing);
    var a;
    ok, a, missing := LoadFile(allow, allowMemory);
    if !ok {
      return None, report;
    }
    report := report.(allowLoaded := |a.rules|, allowMalformed := a.malformed, allowMissing := missing);
    p := Some(Policy(b.rules, a.rules, a.sawText));
  }

  lemma NoLines()
    ensures Rules([]) == [] && Bad([]) == 0 && !HasText([])
  {
  }

  /** Loaded and malformed rules of each file, with its blank lines, make up all its lines. */
  ghost predicate Reports(r: Report, allow: Option<string>, block: Option<string>) {
    && r.blockLoaded == |Rules(LinesOf(block))| && r.blockMalformed == Bad(LinesOf(block)) && r.blockMissing == block.None?
    && r.allowLoaded == |Rules(LinesOf(allow))| && r.allowMalformed == Bad(LinesOf(allow)) && r.allowMissing == allow.None?
  }
}
