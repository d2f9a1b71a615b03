/** src/cache.c, response eligibility: which complete responses may be cached, and for how long.
    A subset of RFC 9111 (section 3 on storing, section 4.2.1 on s-maxage precedence). */
module Eligibility {
  import opened Text
  import LruSpec

  const DEFAULT_TTL := 60
  const BLANK: set<char> := {' ', '\t'}

  // ---------- Cache-Control values ----------

  datatype Directive = Public | MaxAge(seconds: nat) | SMaxAge(seconds: nat) | Unapproved

  predicate IsAge(s: string) { 1 <= |s| <= 9 && AllDigits(s) }

  function Classify(d: string): Directive {
    if |d| == 6 && StartsWithCi(d, "public") then Public
    else if StartsWithCi(d, "max-age=") && IsAge(d[8..]) then MaxAge(DecValue(d[8..]))
    else if StartsWithCi(d, "s-maxage=") && IsAge(d[9..]) then SMaxAge(DecValue(d[9..]))
    else Unapproved
  }

  function Trim(s: string): string { TrimRight(TrimLeft(s, BLANK), BLANK) }

  function After(v: string, k: nat): string { if k < |v| then v[k + 1..] else "" }

  /** The comma-separated directives, trimmed, empty ones dropped. */
  function Directives(v: string): seq<string>
    decreases |v|
  {
    if v == "" then []
    else
      var k := Find(v, ',');
      var d := Trim(v[..k]);
      if d == "" then Directives(After(v, k)) else [d] + Directives(After(v, k))
  }

  function ClassifyAll(ds: seq<string>): (r: seq<Directive>)
    ensures |r| == |ds| && forall i :: 0 <= i < |ds| ==> r[i] == Classify(ds[i])
  {
    seq(|ds|, i requires 0 <= i < |ds| => Classify(ds[i]))
  }

  ghost predicate AllApproved(ds: seq<Directive>) {
    forall i :: 0 <= i < |ds| ==> !ds[i].Unapproved?
  }

  /** The last max-age (or, with `shared`, s-maxage) among the directives, else `start`. */
  function LastAge(ds: seq<Directive>, shared: bool, start: Option<nat>): Option<nat> {
    if ds == [] then start
    else
      var d := ds[|ds| - 1];
      if (if shared then d.SMaxAge? else d.MaxAge?) then Some(d.seconds) else LastAge(ds[..|ds| - 1], shared, start)
  }

  lemma {:induction false} LastAgeConcat(a: seq<Directive>, b: seq<Directive>, shared: bool, start: Option<nat>)
    ensures LastAge(a + b, shared, start) == LastAge(b, shared, LastAge(a, shared, start))
  {
    if b == [] {
      assert a + b == a;
    } else {
      assert (a + b)[..|a + b| - 1] == a + b[..|b| - 1];
      LastAgeConcat(a, b[..|b| - 1], shared, start);
    }
  }

  lemma TrimSkips(s: string)
    requires s != "" && s[0] in BLANK
    ensures Trim(s) == Trim(s[1..])
  {
  }

  lemma SkipBlank(v: string)
    requires v != "" && (v[0] in BLANK || v[0] == ',')
    ensures Directives(v) == Directives(v[1..])
  {
    hide TrimLeft, TrimRight, Directives;
    var k, t := Find(v, ','), v[1..];
    if v[0] == ',' {
      TrimEmpty();
      Unfold(v, 0);
    } else {
      Unfold(v, k);
      TrimSkips(v[..k]);
      assert v[..k][1..] == t[..k - 1];
      if t == "" {
        TrimEmpty();
        NoneInEmpty();
      } else {
        assert After(v, k) == After(t, k - 1);
        Unfold(t, k - 1);
      }
    }
  }

  lemma Unfold(v: string, k: nat)
    requires v != "" && k <= |v| && (forall i :: 0 <= i < k ==> v[i] != ',') && (k < |v| ==> v[k] == ',')
    ensures Directives(v) ==
            if Trim(v[..k]) == "" then Directives(After(v, k)) else [Trim(v[..k])] + Directives(After(v, k))
  {
    hide Trim;
    FindIs(v, ',', k);
  }

  lemma TrimEmpty()
    ensures Trim("") == ""
  {
  }

  lemma NoneInEmpty()
    ensures Directives("") == []
  {
  }

  lemma TrimmedPiece(v: string, end: nat, comma: nat)
    requires 0 < end <= comma <= |v| && v[0] !in BLANK
    requires v[end - 1] !in BLANK && forall i :: end <= i < comma ==> v[i] in BLANK
    ensures Trim(v[..comma]) == v[..end]
  {
    var piece := v[..comma];
    assert TrimLeft(piece, BLANK) == piece;
    TrimRightIs(piece, BLANK, end);
    assert piece[..end] == v[..end];
  }

  lemma FirstDirective(v: string, end: nat, comma: nat)
    requires 0 < end <= comma <= |v| && v[0] !in BLANK
    requires (forall i :: 0 <= i < comma ==> v[i] != ',') && (comma < |v| ==> v[comma] == ',')
    requires v[end - 1] !in BLANK && forall i :: end <= i < comma ==> v[i] in BLANK
    ensures Directives(v) == [v[..end]] + Directives(v[comma..])
  {
    hide Trim, Directives;
    TrimmedPiece(v, end, comma);
    Unfold(v, comma);
    if comma < |v| {
      SkipBlank(v[comma..]);
      assert v[comma..][1..] == v[comma + 1..];
    } else {
      assert v[comma..] == "";
    }
  }

  method CiPrefix(s: string, p: string) returns (r: bool)
    ensures r <==> StartsWithCi(s, p)
  {
    if |s| < |p| {
      return false;
    }
    var i := 0;
    while i < |p|
      invariant 0 <= i <= |p|
      invariant forall j :: 0 <= j < i ==> Lower(s[j]) == Lower(p[j])
    {
      if Lower(s[i]) != Lower(p[i]) {
        assert LowerAll(s[..|p|])[i] != LowerAll(p)[i];
        return false;
      }
      i := i + 1;
    }
    assert LowerAll(s[..|p|]) == LowerAll(p);
    r := true;
  }

  method CiContains(s: string, p: string) returns (r: bool)
    ensures r <==> ContainsCi(s, p)
  {
    var i := 0;
    while i + |p| <= |s|
      invariant 0 <= i <= |s| + 1 && (|s| < |p| || i + |p| <= |s| + 1)
      invariant forall j :: 0 <= j < i ==> !StartsWithCi(s[j..], p)
    {
      var here := CiPrefix(s[i..], p);
      if here {
        return true;
      }
      i := i + 1;
    }
    r := false;
  }

  /** Updates the ages with every directive of one Cache-Control value; false if one is unapproved. */
  method ParseCacheControl(v: string, maxAge0: Option<nat>, sMaxAge0: Option<nat>)
    returns (ok: bool, maxAge: Option<nat>, sMaxAge: Option<nat>)
    ensures ok <==> AllApproved(ClassifyAll(Directives(v)))
    ensures ok ==> maxAge == LastAge(ClassifyAll(Directives(v)), false, maxAge0)
    ensures ok ==> sMaxAge == LastAge(ClassifyAll(Directives(v)), true, sMaxAge0)
  {
    hide Directives, Classify, LastAge;
    ghost var all := Directives(v);
    ghost var done: seq<string> := [];
    maxAge, sMaxAge := maxAge0, sMaxAge0;
    var i := 0;
    assert v[0..] == v;
    NoDirectives(maxAge0);
    NoDirectives(sMaxAge0);
    while i < |v|
      invariant 0 <= i <= |v|
      invariant all == done + Directives(v[i..])
      invariant AllApproved(ClassifyAll(done))
      invariant maxAge == LastAge(ClassifyAll(done), false, maxAge0)
      invariant sMaxAge == LastAge(ClassifyAll(done), true, sMaxAge0)
    {
      var start := SkipSeparators(v, i);
      var end, comma := DirectiveEnd(v, start);
      i := comma;
      if end == start {
        continue;
      }
      var d := v[start..end];
      assert all == (done + [d]) + Directives(v[comma..]);
      var c := ClassifyDirective(d);
      OneMore(done, d, maxAge0, sMaxAge0);
      if c == Unapproved {
        assert ClassifyAll(all)[|done|] == c;
        return false, maxAge, sMaxAge;
      }
      if c.MaxAge? {
        maxAge := Some(c.seconds);
      } else if c.SMaxAge? {
        sMaxAge := Some(c.seconds);
      }
      done := done + [d];
    }
    assert v[i..] == "";
    NoneInEmpty();
    assert all == done;
    ok := true;
  }

  lemma NoDirectives(start: Option<nat>)
    ensures LastAge(ClassifyAll([]), false, start) == start && LastAge(ClassifyAll([]), true, start) == start
  {
  }

  lemma OneMore(done: seq<string>, d: string, maxAge0: Option<nat>, sMaxAge0: Option<nat>)
    ensures ClassifyAll(done + [d]) == ClassifyAll(done) + [Classify(d)]
    ensures LastAge(ClassifyAll(done + [d]), false, maxAge0) ==
            if Classify(d).MaxAge? then Some(Classify(d).seconds) else LastAge(ClassifyAll(done), false, maxAge0)
    ensures LastAge(ClassifyAll(done + [d]), true, sMaxAge0) ==
            if Classify(d).SMaxAge? then Some(Classify(d).seconds) else LastAge(ClassifyAll(done), true, sMaxAge0)
  {
    var r := ClassifyAll(done + [d]);
    assert r[..|r| - 1] == ClassifyAll(done);
  }

  /** The end of the directive that starts at `start`: trimmed, and up to the comma. */
  method DirectiveEnd(v: string, start: nat) returns (end: nat, comma: nat)
    requires start <= |v| && (start < |v| ==> v[start] !in BLANK && v[start] != ',')
    ensures start <= end <= comma <= |v|
    ensures end == start ==> start == |v|
    ensures start < end && start < |v| ==> start < comma && Directives(v[start..]) == [v[start..end]] + Directives(v[comma..])
  {
    hide Directives;
    comma := start;
    while comma < |v| && v[comma] != ','
      invariant start <= comma <= |v|
      invariant forall j :: start <= j < comma ==> v[j] != ','
    {
      comma := comma + 1;
    }
    end := comma;
    while end > start && v[end - 1] in BLANK
      invariant start <= end <= comma
      invariant forall j :: end <= j < comma ==> v[j] in BLANK
    {
      end := end - 1;
    }
    if start < |v| {
      FirstDirective(v[start..], end - start, comma - start);
      assert v[start..][..end - start] == v[start..end] && v[start..][comma - start..] == v[comma..];
    }
  }

  method SkipSeparators(v: string, i: nat) returns (start: nat)
    requires i <= |v|
    ensures i <= start <= |v| && Directives(v[start..]) == Directives(v[i..])
    ensures start < |v| ==> v[start] !in BLANK && v[start] != ','
  {
    hide Directives;
    start := i;
    while start < |v| && (v[start] in BLANK || v[start] == ',')
      invariant i <= start <= |v| && Directives(v[start..]) == Directives(v[i..])
    {
      SkipBlank(v[start..]);
      assert v[start..][1..] == v[start + 1..];
      start := start + 1;
    }
  }

  lemma PrefixFirst(s: string, p: string)
    requires p != ""
    ensures StartsWithCi(s, p) ==> Lower(s[0]) == Lower(p[0])
  {
    if StartsWithCi(s, p) { assert LowerAll(s[..|p|])[0] == LowerAll(p)[0]; }
  }

  method ClassifyDirective(d: string) returns (c: Directive)
    ensures c == Classify(d)
  {
    var isPublic := CiPrefix(d, "public");
    if |d| == 6 && isPublic {
      return Public;
    }
    var isMax := CiPrefix(d, "max-age=");
    var isSmax := CiPrefix(d, "s-maxage=");
    PrefixFirst(d, "max-age=");
    PrefixFirst(d, "s-maxage=");
    if isMax || isSmax {
      var num := d[if isMax then 8 else 9..];
      var ok, val := ParseAge(num);
      if !ok {
        return Unapproved;
      }
      return if isMax then MaxAge(val) else SMaxAge(val);
    }
    c := Unapproved;
  }

  method ParseAge(num: string) returns (ok: bool, val: nat)
    ensures ok <==> IsAge(num)
    ensures ok ==> val == DecValue(num)
  {
    val := 0;
    if |num| == 0 || |num| > 9 {
      return false, 0;
    }
    var k := 0;
    while k < |num|
      invariant 0 <= k <= |num| && AllDigits(num[..k]) && val == DecValue(num[..k])
    {
      if !IsDigit(num[k]) {
        return false, 0;
      }
      assert num[..k + 1][..k] == num[..k];
      val := val * 10 + (num[k] as int - '0' as int);
      k := k + 1;
    }
    assert num[..k] == num;
    ok := true;
  }

  // ---------- header lines ----------

  datatype Reason =
    | NotOk200 | IncompleteHeader | SetCookie | Authorization | PragmaNoCache | PersonalVary
    | UnapprovedDirective | BadLength | PartialBody | ZeroLifetime

  datatype Verdict = No(reason: Reason) | Yes(ttl: nat)

  predicate StatusOk(r: string) {
    && |r| >= 12 && r[..7] == "HTTP/1." && r[8] == ' ' && r[9..12] == "200"
    && (|r| > 12 ==> r[12] == ' ' || r[12] == '\r' || r[12] == '\n')
  }

  /** A newline at `i` followed by an empty line. */
  predicate BlankAfter(r: string, i: nat) {
    && i + 1 < |r| && r[i] == '\n'
    && (r[i + 1] == '\n' || (r[i + 1] == '\r' && i + 2 < |r| && r[i + 2] == '\n'))
  }

  function BlockLength(r: string, i: nat): nat
    requires BlankAfter(r, i)
  {
    i + if r[i + 1] == '\n' then 2 else 3
  }

  /** Length of the header block: up to and including its first empty line. */
  ghost predicate HeaderEnds(r: string, h: nat) {
    exists i: nat :: BlankAfter(r, i) && BlockLength(r, i) == h && forall j: nat :: j < i ==> !BlankAfter(r, j)
  }

  function StripCr(l: string): string { if l != "" && l[|l| - 1] == '\r' then l[..|l| - 1] else l }

  function Lines(h: string): seq<string>
    decreases |h|
  {
    if h == "" then [] else [StripCr(h[..Find(h, '\n')])] + Lines(After(h, Find(h, '\n')))
  }

  /** The lines after the status line. */
  function HeaderLines(r: string, h: nat): seq<string>
    requires h <= |r|
  {
    if h == 0 then [] else Lines(r[..h])[1..]
  }

  predicate IsCacheControl(l: string) { StartsWithCi(l, "cache-control:") }

  predicate IsLength(l: string) { StartsWithCi(l, "content-length:") }

  predicate Forbidden(l: string) {
    || StartsWithCi(l, "set-cookie:") || StartsWithCi(l, "authorization:") || StartsWithCi(l, "www-authenticate:")
    || (StartsWithCi(l, "pragma:") && ContainsCi(l, "no-cache"))
    || PersonalisedVary(l)
  }

  predicate PersonalisedVary(l: string) {
    StartsWithCi(l, "vary:") && (ContainsCi(l, "*") || ContainsCi(l, "cookie") || ContainsCi(l, "authorization"))
  }

  function DirectivesOf(l: string): seq<Directive>
    requires IsCacheControl(l)
  {
    ClassifyAll(Directives(l[14..]))
  }

  /** The value of a Content-Length line: digits only, and at most 1000000000 before the last digit. */
  function LengthOf(l: string): Option<nat>
    requires IsLength(l)
  {
    var d := TrimLeft(l[15..], BLANK);
    if IsCount(d) then Some(DecValue(d)) else None
  }

  predicate IsCount(d: string) { d != "" && AllDigits(d) && DecValue(d[..|d| - 1]) <= 1000000000 }

  /** Nothing in this line stands against caching. */
  ghost predicate Clean(l: string) {
    && !Forbidden(l)
    && (IsCacheControl(l) ==> AllApproved(DirectivesOf(l)))
    && (IsLength(l) ==> LengthOf(l).Some?)
  }

  /** Why a line rules out caching, in the order the checks are made. */
  ghost function Problem(l: string): Option<Reason> {
    if StartsWithCi(l, "set-cookie:") then Some(SetCookie)
    else if StartsWithCi(l, "authorization:") || StartsWithCi(l, "www-authenticate:") then Some(Authorization)
    else if StartsWithCi(l, "pragma:") && ContainsCi(l, "no-cache") then Some(PragmaNoCache)
    else if PersonalisedVary(l) then Some(PersonalVary)
    else if IsCacheControl(l) && !AllApproved(DirectivesOf(l)) then Some(UnapprovedDirective)
    else if IsLength(l) && LengthOf(l).None? then Some(BadLength)
    else None
  }

  function AllDirectives(ls: seq<string>): seq<Directive> {
    if ls == [] then []
    else (if IsCacheControl(ls[0]) then DirectivesOf(ls[0]) else []) + AllDirectives(ls[1..])
  }

  function LastLength(ls: seq<string>, start: Option<nat>): Option<nat> {
    if ls == [] then start else LastLength(ls[1..], if IsLength(ls[0]) then LengthOf(ls[0]) else start)
  }

  /** Freshness lifetime: the last s-maxage, else the last max-age, else 60 seconds. */
  function Lifetime(ls: seq<string>): nat {
    var ds := AllDirectives(ls);
    match LastAge(ds, true, None)
    case Some(n) => n
    case None => match LastAge(ds, false, None) case Some(n) => n case None => DEFAULT_TTL
  }

  /** A response is cacheable exactly when its status, every header line, its length and its
      lifetime allow it. */
  ghost predicate Cacheable(r: string, h: nat) {
    && StatusOk(r) && HeaderEnds(r, h) && h <= |r|
    && var ls := HeaderLines(r, h);
    && (forall i :: 0 <= i < |ls| ==> Clean(ls[i]))
    && (LastLength(ls, None).Some? ==> LastLength(ls, None).value == |r| - h)
    && Lifetime(ls) > 0
  }

  // ---------- scanning the lines in order ----------

  datatype Found = Found(maxAge: Option<nat>, sMaxAge: Option<nat>, length: Option<nat>)

  function Note(f: Found, l: string): Found {
    var g := if IsCacheControl(l)
             then f.(maxAge := LastAge(DirectivesOf(l), false, f.maxAge),
                     sMaxAge := LastAge(DirectivesOf(l), true, f.sMaxAge))
             else f;
    if IsLength(l) then g.(length := LengthOf(l)) else g
  }

  datatype Scan = Rejected(reason: Reason) | Passed(found: Found)

  ghost function ScanLines(ls: seq<string>, f: Found): Scan {
    if ls == [] then Passed(f)
    else match Problem(ls[0])
      case Some(why) => Rejected(why)
      case None => ScanLines(ls[1..], Note(f, ls[0]))
  }

  function Conclude(f: Found, body: int): Verdict {
    var ttl := if f.sMaxAge.Some? then f.sMaxAge.value else if f.maxAge.Some? then f.maxAge.value else DEFAULT_TTL;
    if f.length.Some? && f.length.value != body then No(PartialBody)
    else if ttl == 0 then No(ZeroLifetime)
    else Yes(if ttl > LruSpec.MAX_TTL then LruSpec.MAX_TTL else ttl)
  }

  lemma {:induction false} ScanPassesClean(ls: seq<string>, f: Found)
    ensures ScanLines(ls, f).Passed? <==> forall i :: 0 <= i < |ls| ==> Clean(ls[i])
  {
    if ls != [] {
      ScanPassesClean(ls[1..], Note(f, ls[0]));
      hide StartsWithCi, ContainsCi, ScanLines, Note;
      assert Problem(ls[0]).None? <==> Clean(ls[0]);
      assert ScanLines(ls, f).Passed? <==> Problem(ls[0]).None? && ScanLines(ls[1..], Note(f, ls[0])).Passed? by {
        UnfoldScan(ls, f);
      }
      assert forall i :: 0 <= i < |ls| - 1 ==> ls[1..][i] == ls[i + 1];
    }
  }

  lemma UnfoldScan(ls: seq<string>, f: Found)
    requires ls != []
    ensures ScanLines(ls, f) ==
            if Problem(ls[0]).Some? then Rejected(Problem(ls[0]).value) else ScanLines(ls[1..], Note(f, ls[0]))
  {
  }

  lemma {:induction false} ScanFinds(ls: seq<string>, f: Found)
    ensures ScanLines(ls, f).Passed? ==>
              ScanLines(ls, f).found == Found(LastAge(AllDirectives(ls), false, f.maxAge),
                                              LastAge(AllDirectives(ls), true, f.sMaxAge),
                                              LastLength(ls, f.length))
  {
    if ls != [] {
      hide Problem, StartsWithCi, DirectivesOf, LengthOf;
      var l := ls[0];
      ScanFinds(ls[1..], Note(f, l));
      var ds := if IsCacheControl(l) then DirectivesOf(l) else [];
      LastAgeConcat(ds, AllDirectives(ls[1..]), false, f.maxAge);
      LastAgeConcat(ds, AllDirectives(ls[1..]), true, f.sMaxAge);
    }
  }

  lemma HeaderEndUnique(r: string, h: nat, h': nat)
    requires HeaderEnds(r, h) && HeaderEnds(r, h')
    ensures h == h' && h <= |r| && h >= 2
  {
    var i: nat :| BlankAfter(r, i) && BlockLength(r, i) == h && forall j: nat :: j < i ==> !BlankAfter(r, j);
    var i': nat :| BlankAfter(r, i') && BlockLength(r, i') == h' && forall j: nat :: j < i' ==> !BlankAfter(r, j);
    assert !(i < i') && !(i' < i);
  }

  /** The verdict as a function of the response. */
  ghost predicate Judges(r: string, v: Verdict) {
    if !StatusOk(r) then v == No(NotOk200)
    else if forall h: nat :: !HeaderEnds(r, h) then v == No(IncompleteHeader)
    else exists h: nat :: HeaderEnds(r, h) && JudgesBlock(r, h, v)
  }

  ghost predicate JudgesBlock(r: string, h: nat, v: Verdict) {
    h <= |r| && match ScanLines(HeaderLines(r, h), Found(None, None, None))
                case Rejected(why) => v == No(why)
                case Passed(f) => v == Conclude(f, |r| - h)
  }

  /** Cacheable exactly when the declarative conditions hold; the lifetime is positive, and capped at an hour. */
  lemma VerdictIsExact(r: string, v: Verdict)
    requires Judges(r, v)
    ensures v.Yes? <==> exists h: nat :: Cacheable(r, h)
    ensures v.Yes? ==> exists h: nat :: h <= |r| && Cacheable(r, h) &&
                         v.ttl == (if Lifetime(HeaderLines(r, h)) > LruSpec.MAX_TTL then LruSpec.MAX_TTL else Lifetime(HeaderLines(r, h)))
    ensures v.Yes? ==> 0 < v.ttl <= LruSpec.MAX_TTL
  {
    hide HeaderLines, Lifetime, StatusOk, HeaderEnds, JudgesBlock, Cacheable;
    forall h: nat | Cacheable(r, h) ensures StatusOk(r) && HeaderEnds(r, h) { CacheableEnds(r, h); }
    if StatusOk(r) && exists h: nat :: HeaderEnds(r, h) {
      var h: nat :| HeaderEnds(r, h) && JudgesBlock(r, h, v);
      BlockVerdict(r, h, v);
      forall h': nat | Cacheable(r, h') ensures h' == h {
        HeaderEndUnique(r, h, h');
      }
    }
  }

  lemma CacheableEnds(r: string, h: nat)
    requires Cacheable(r, h)
    ensures StatusOk(r) && HeaderEnds(r, h) && h <= |r|
  {
    hide Lines, Clean, StatusOk, HeaderEnds, LastLength, Lifetime;
  }

  /** The verdict on a response with this header block. */
  lemma BlockVerdict(r: string, h: nat, v: Verdict)
    requires StatusOk(r) && HeaderEnds(r, h) && JudgesBlock(r, h, v)
    ensures h <= |r| && (v.Yes? <==> Cacheable(r, h))
    ensures v.Yes? ==> var n := Lifetime(HeaderLines(r, h)); v.ttl == (if n > LruSpec.MAX_TTL then LruSpec.MAX_TTL else n) > 0
  {
    hide Lines, Clean, StatusOk, HeaderEnds, ScanLines, LastLength, HeaderLines;
    var ls := HeaderLines(r, h);
    ScanPassesClean(ls, Found(None, None, None));
    ScanFinds(ls, Found(None, None, None));
  }

  // ---------- the scanner itself ----------

  method FindHeaderEnd(r: string) returns (h: nat)
    ensures h == 0 <==> forall n: nat :: !HeaderEnds(r, n)
    ensures h > 0 ==> HeaderEnds(r, h) && h <= |r|
  {
    hide HeaderEnds;
    var i := 0;
    while i + 1 < |r|
      invariant 0 <= i && (|r| > 0 ==> i < |r|)
      invariant forall j: nat :: j < i ==> !BlankAfter(r, j)
    {
      if r[i] == '\n' && (r[i + 1] == '\n' || (r[i + 1] == '\r' && i + 2 < |r| && r[i + 2] == '\n')) {
        h := i + if r[i + 1] == '\n' then 2 else 3;
        FirstBlank(r, i);
        return;
      }
      i := i + 1;
    }
    NoBlank(r);
    h := 0;
  }

  lemma FirstBlank(r: string, i: nat)
    requires BlankAfter(r, i) && forall j: nat :: j < i ==> !BlankAfter(r, j)
    ensures HeaderEnds(r, BlockLength(r, i))
  {
  }

  lemma NoBlank(r: string)
    requires forall j: nat :: j + 1 < |r| ==> !BlankAfter(r, j)
    ensures forall n: nat :: !HeaderEnds(r, n)
  {
  }

  method EvaluateLine(l: string, f0: Found) returns (why: Option<Reason>, f: Found)
    ensures why == Problem(l)
    ensures why == None ==> f == Note(f0, l)
  {
    hide StartsWithCi, ContainsCi, Directives, Classify, LastAge;
    f := f0;
    var hit := CiPrefix(l, "set-cookie:");
    if hit { return Some(SetCookie), f; }
    hit := CiPrefix(l, "authorization:");
    var hit2 := CiPrefix(l, "www-authenticate:");
    if hit || hit2 { return Some(Authorization), f; }
    hit := CiPrefix(l, "pragma:");
    hit2 := CiContains(l, "no-cache");
    if hit && hit2 { return Some(PragmaNoCache), f; }
    hit := CiPrefix(l, "vary:");
    if hit {
      var star := CiContains(l, "*");
      var cookie := CiContains(l, "cookie");
      var auth := CiContains(l, "authorization");
      if star || cookie || auth { return Some(PersonalVary), f; }
    }
    why, f := EvaluateAllowedLine(l, f0);
  }

  method EvaluateAllowedLine(l: string, f0: Found) returns (why: Option<Reason>, f: Found)
    ensures why == if IsCacheControl(l) && !AllApproved(DirectivesOf(l)) then Some(UnapprovedDirective)
                   else if IsLength(l) && LengthOf(l).None? then Some(BadLength) else None
    ensures why == None ==> f == Note(f0, l)
  {
    hide Directives, Classify, LastAge, LengthOf;
    f := f0;
    var isCacheControl := CiPrefix(l, "cache-control:");
    if isCacheControl {
      var ok, maxAge, sMaxAge := ParseCacheControl(l[14..], f.maxAge, f.sMaxAge);
      if !ok { return Some(UnapprovedDirective), f; }
      f := f.(maxAge := maxAge, sMaxAge := sMaxAge);
    }
    var isLength := CiPrefix(l, "content-length:");
    if isLength {
      var ok, n := ParseLength(l);
      if !ok { return Some(BadLength), f; }
      f := f.(length := Some(n));
    }
    why := None;
  }

  method ParseLength(l: string) returns (ok: bool, n: nat)
    requires IsLength(l)
    ensures ok <==> LengthOf(l).Some?
    ensures ok ==> LengthOf(l) == Some(n)
  {
    var k := 15;
    while k < |l| && (l[k] == ' ' || l[k] == '\t')
      invariant 15 <= k <= |l|
      invariant forall i :: 15 <= i < k ==> l[i] in BLANK
    {
      k := k + 1;
    }
    hide StartsWithCi, IsCount;
    TrimLeftIs(l[15..], BLANK, k - 15);
    assert l[15..][k - 15..] == l[k..];
    ok, n := ParseCount(l[k..]);
  }

  method ParseCount(d: string) returns (ok: bool, n: nat)
    ensures ok <==> IsCount(d)
    ensures ok ==> n == DecValue(d)
  {
    n := 0;
    if d == "" { return false, 0; }
    var i := 0;
    while i < |d|
      invariant 0 <= i <= |d| && AllDigits(d[..i]) && n == DecValue(d[..i])
      invariant i > 0 ==> DecValue(d[..i - 1]) <= 1000000000
    {
      if !IsDigit(d[i]) { return false, 0; }
      if n > 1000000000 {
        TooLong(d, i);
        return false, 0;
      }
      assert d[..i + 1][..i] == d[..i];
      n := n * 10 + (d[i] as int - '0' as int);
      i := i + 1;
    }
    assert d[..i] == d;
    ok := true;
  }

  lemma TooLong(d: string, i: nat)
    requires i < |d| && AllDigits(d[..i]) && DecValue(d[..i]) > 1000000000
    ensures !IsCount(d)
  {
    if AllDigits(d) {
      DecValuePrefix(d[..|d| - 1], i);
      assert d[..|d| - 1][..i] == d[..i];
    }
  }

  /** Decides whether a complete origin response may be cached. */
  method EvaluateResponse(r: string) returns (v: Verdict)
    ensures Judges(r, v)
  {
    if |r| < 12 || r[..7] != "HTTP/1." || r[8] != ' ' || r[9..12] != "200" ||
       (|r| > 12 && r[12] != ' ' && r[12] != '\r' && r[12] != '\n') {
      return No(NotOk200);
    }
    assert StatusOk(r);
    hide StatusOk, HeaderEnds, ScanLines;
    var h := FindHeaderEnd(r);
    if h == 0 {
      return No(IncompleteHeader);
    }
    var why, found := WalkLines(r[..h]);
    if why.Some? {
      return No(why.value);
    }
    v := Conclude(found, |r| - h);
  }

  /** Walks the lines of a header block; the first one is the status line. */
  method WalkLines(block: string) returns (why: Option<Reason>, f: Found)
    requires block != ""
    ensures Lines(block) != [] && var s := ScanLines(Lines(block)[1..], Found(None, None, None));
            if why.Some? then s == Rejected(why.value) else s == Passed(f)
  {
    hide Problem, Note, Lines, ScanLines, LinesFrom;
    LinesFromStart(block);
    ghost var target := ScanLines(Lines(block)[1..], Found(None, None, None));
    f := Found(None, None, None);
    var pos := 0;
    while pos < |block|
      invariant 0 <= pos <= |block| + 1
      invariant pos == 0 ==> f == Found(None, None, None)
      invariant pos > 0 ==> target == ScanLines(LinesFrom(block, pos), f)
    {
      var eol := pos;
      while eol < |block| && block[eol] != '\n'
        invariant pos <= eol <= |block|
        invariant forall i :: pos <= i < eol ==> block[i] != '\n'
      {
        eol := eol + 1;
      }
      var l := StripCr(block[pos..eol]);
      NextLine(block, pos, eol);
      if pos != 0 {
        UnfoldScan(LinesFrom(block, pos), f);
        why, f := EvaluateLine(l, f);
        if why.Some? {
          return;
        }
      }
      pos := eol + 1;
    }
    NoLinesLeft(block, pos);
    ScanNothing(f);
    why := None;
  }

  ghost function LinesFrom(block: string, pos: nat): seq<string> {
    if pos < |block| then Lines(block[pos..]) else []
  }

  lemma LinesFromStart(block: string)
    ensures LinesFrom(block, 0) == Lines(block) && (block != "" ==> Lines(block) != [])
  {
    assert block[0..] == block;
  }

  lemma NoLinesLeft(block: string, pos: nat)
    requires pos >= |block|
    ensures LinesFrom(block, pos) == []
  {
  }

  lemma NextLine(block: string, pos: nat, eol: nat)
    requires pos <= eol <= |block| && pos < |block|
    requires (forall i :: pos <= i < eol ==> block[i] != '\n') && (eol < |block| ==> block[eol] == '\n')
    ensures LinesFrom(block, pos) == [StripCr(block[pos..eol])] + LinesFrom(block, eol + 1)
    ensures LinesFrom(block, pos)[1..] == LinesFrom(block, eol + 1)
  {
    var rest := block[pos..];
    FindIs(rest, '\n', eol - pos);
    assert rest[..eol - pos] == block[pos..eol];
    assert eol < |block| ==> rest[eol - pos + 1..] == block[eol + 1..];
    assert Lines("") == [];
    assert Lines(rest) == [StripCr(block[pos..eol])] + Lines(After(rest, eol - pos));
  }

  lemma ScanNothing(f: Found)
    ensures ScanLines([], f) == Passed(f)
  {
  }

  // ---------- the body never matters ----------

  lemma SameBlockEnd(r: string, q: string, h: nat)
    requires |r| == |q| && h <= |r| && r[..h] == q[..h] && HeaderEnds(r, h)
    ensures HeaderEnds(q, h)
  {
    var i: nat :| BlankAfter(r, i) && BlockLength(r, i) == h && forall j: nat :: j < i ==> !BlankAfter(r, j);
    assert forall k :: 0 <= k < h ==> r[..h][k] == q[..h][k];
    assert forall k :: 0 <= k < h ==> r[k] == q[k];
    assert BlankAfter(q, i) && BlockLength(q, i) == h;
    forall j: nat | j < i ensures !BlankAfter(q, j) {
      assert BlankAfter(q, j) ==> BlankAfter(r, j);
    }
  }

  lemma StatusBeforeEnd(r: string, h: nat)
    requires HeaderEnds(r, h) && StatusOk(r)
    ensures 14 <= h <= |r|
  {
    var i: nat :| BlankAfter(r, i) && BlockLength(r, i) == h;
    assert r[..7][0] == r[0] && r[..7][1] == r[1] && r[..7][2] == r[2] && r[..7][3] == r[3];
    assert r[..7][4] == r[4] && r[..7][5] == r[5] && r[..7][6] == r[6];
    assert r[9..12][0] == r[9] && r[9..12][1] == r[10] && r[9..12][2] == r[11];
    assert i >= 12;
  }

  lemma SameStatus(r: string, q: string, h: nat)
    requires h <= |r| && h <= |q| && r[..h] == q[..h] && HeaderEnds(r, h)
    ensures StatusOk(r) ==> StatusOk(q)
  {
    hide HeaderEnds;
    if StatusOk(r) {
      StatusBeforeEnd(r, h);
      assert r[..h][..14] == r[..14] && q[..h][..14] == q[..14];
      SamePrefixStatus(r, q);
    }
  }

  lemma SamePrefixStatus(r: string, q: string)
    requires |r| >= 14 && |q| >= 14 && r[..14] == q[..14] && StatusOk(r)
    ensures StatusOk(q)
  {
    var p := r[..14];
    assert r[..7] == p[..7] && q[..7] == p[..7] && r[9..12] == p[9..12] && q[9..12] == p[9..12];
    assert r[8] == p[8] == q[8] && r[12] == p[12] == q[12];
  }

  /** The verdict depends only on the header block and the total length. */
  lemma BodyBytesDoNotMatter(r: string, q: string, h: nat, v: Verdict)
    requires |r| == |q| && h <= |r| && r[..h] == q[..h] && HeaderEnds(r, h)
    ensures Judges(r, v) <==> Judges(q, v)
  {
    hide StatusOk, HeaderEnds, ScanLines, Lines;
    SameBlockEnd(r, q, h);
    SameStatus(r, q, h);
    SameStatus(q, r, h);
    forall n: nat | HeaderEnds(r, n) ensures n == h { HeaderEndUnique(r, n, h); }
    forall n: nat | HeaderEnds(q, n) ensures n == h { HeaderEndUnique(q, n, h); }
    assert HeaderLines(r, h) == HeaderLines(q, h);
  }
}
