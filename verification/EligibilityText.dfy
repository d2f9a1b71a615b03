/** src/cache.c, response eligibility read off the text: which words mean which lifetime, and which headers rule
    caching out. */
module EligibilityText {
  import opened Text
  import opened Eligibility

  // ---------- a response from its lines ----------

  function Crlf(ls: seq<string>): string {
    if ls == [] then "" else ls[0] + "\r\n" + Crlf(ls[1..])
  }

  /** A 200 response with these header lines and this body. */
  function Response(ls: seq<string>, body: string): string { Crlf(["HTTP/1.1 200 OK"] + ls) + "\r\n" + body }

  predicate IsLine(l: string) { l != "" && '\r' !in l && '\n' !in l }

  predicate AreLines(ls: seq<string>) { forall i :: 0 <= i < |ls| ==> IsLine(ls[i]) }

  /** One line in front moves every empty line by its length, and adds none unless the rest begins with one. */
  lemma LineInFront(l: string, tail: string)
    requires IsLine(l)
    ensures var m := |l| + 2; var r := l + "\r\n" + tail;
            && r[m..] == tail
            && (forall j: nat :: j + 1 < m ==> !BlankAfter(r, j))
            && (BlankAfter(r, m - 1) <==> tail != "" && (tail[0] == '\n' || (tail[0] == '\r' && 1 < |tail| && tail[1] == '\n')))
            && (forall j: nat :: BlankAfter(r, m + j) <==> BlankAfter(tail, j))
  {
    var m, r := |l| + 2, l + "\r\n" + tail;
    assert forall j :: 0 <= j < |l| ==> r[j] == l[j];
    assert r[m - 2] == '\r' && r[m - 1] == '\n' && forall j :: 0 <= j < |tail| ==> r[m + j] == tail[j];
  }

  /** Inside lines no empty line follows; behind the last one it does. */
  lemma {:induction false} FirstEmptyLine(ls: seq<string>, rest: string)
    requires AreLines(ls)
    ensures var n := |Crlf(ls)|; var r := Crlf(ls) + "\r\n" + rest;
            && (forall j: nat :: j + 1 < n ==> !BlankAfter(r, j))
            && (ls != [] ==> n > 0 && BlankAfter(r, n - 1) && r[n] == '\r')
  {
    hide BlankAfter, Crlf, IsLine;
    NoLines();
    if ls != [] {
      var l, more := ls[0], Crlf(ls[1..]);
      var tail, r := more + "\r\n" + rest, Crlf(ls) + "\r\n" + rest;
      FirstEmptyLine(ls[1..], rest);
      LineInFront(l, tail);
      CrlfTail(ls, rest);
      TailStarts(ls[1..], rest);
      var m := |l| + 2;
      forall j: nat | j + 1 < |Crlf(ls)| ensures !BlankAfter(r, j) {
        if j >= m {
          assert !BlankAfter(tail, j - m) && m + (j - m) == j;
        } else if j == m - 1 {
          assert ls[1..] != [] && !BlankAfter(r, m - 1);
        } else {
          assert j + 1 < m;
        }
      }
      if ls[1..] != [] { assert BlankAfter(r, m + (|more| - 1)) && r[m..][|more|] == '\r'; }
    }
  }

  lemma NoLines()
    ensures Crlf([]) == ""
  {
  }

  lemma CrlfTail(ls: seq<string>, rest: string)
    requires ls != []
    ensures Crlf(ls) + "\r\n" + rest == ls[0] + "\r\n" + (Crlf(ls[1..]) + "\r\n" + rest)
    ensures |Crlf(ls)| == |ls[0]| + 2 + |Crlf(ls[1..])|
  {
  }

  lemma TailStarts(ls: seq<string>, rest: string)
    requires AreLines(ls)
    ensures var tail := Crlf(ls) + "\r\n" + rest;
            if ls == [] then |tail| >= 2 && tail[0] == '\r' && tail[1] == '\n' else tail != "" && tail[0] != '\r' && tail[0] != '\n'
  {
    if ls != [] {
      var tail := Crlf(ls) + "\r\n" + rest;
      assert tail[0] == ls[0][0] && IsLine(ls[0]);
    }
  }

  lemma LinesInFront(l: string, tail: string)
    requires IsLine(l)
    ensures Lines(l + "\r\n" + tail) == [l] + Lines(tail)
  {
    var h := l + "\r\n" + tail;
    FindIs(h, '\n', |l| + 1);
    assert h[..|l| + 1] == l + "\r" && StripCr(l + "\r") == l;
    assert h[|l| + 2..] == tail;
    assert tail == "" ==> Lines(tail) == [];
  }

  lemma {:induction false} LinesOfCrlf(ls: seq<string>)
    requires AreLines(ls)
    ensures Lines(Crlf(ls) + "\r\n") == ls + [""]
  {
    hide Lines;
    if ls == [] {
      LastLine();
      assert Crlf(ls) + "\r\n" == "\r\n" && ls + [""] == [""];
    } else {
      var l, tail := ls[0], Crlf(ls[1..]) + "\r\n";
      LinesOfCrlf(ls[1..]);
      LinesInFront(l, tail);
      assert Crlf(ls) + "\r\n" == l + "\r\n" + tail;
      assert [l] + (ls[1..] + [""]) == ls + [""];
    }
  }

  lemma LastLine()
    ensures Lines("\r\n") == [""]
  {
    FindIs("\r\n", '\n', 1);
    assert "\r\n"[..1] == "\r" && "\r"[..0] == "" && Lines("") == [];
  }

  /** The header lines of a response are the lines it was made from, and the rest is its body. */
  lemma ResponseLines(ls: seq<string>, body: string) returns (h: nat)
    requires AreLines(ls)
    ensures var r := Response(ls, body);
            StatusOk(r) && HeaderEnds(r, h) && h <= |r| && |r| - h == |body| && HeaderLines(r, h) == ls + [""]
  {
    hide Lines, HeaderEnds;
    var all := ["HTTP/1.1 200 OK"] + ls;
    var r := Response(ls, body);
    FirstEmptyLine(all, body);
    h := |Crlf(all)| + 2;
    FirstBlank(r, |Crlf(all)| - 1);
    LinesOfCrlf(all);
    assert r[..h] == Crlf(all) + "\r\n";
    assert (all + [""])[1..] == ls + [""];
    StartsOk(ls, body);
  }

  lemma StartsOk(ls: seq<string>, body: string)
    ensures StatusOk(Response(ls, body))
  {
    var all := ["HTTP/1.1 200 OK"] + ls;
    var r := Response(ls, body);
    assert Crlf(all) == "HTTP/1.1 200 OK" + "\r\n" + Crlf(all[1..]);
    assert r[..15] == "HTTP/1.1 200 OK";
    assert r[..7] == r[..15][..7] && r[9..12] == r[..15][9..12] && r[8] == r[..15][8] && r[12] == r[..15][12];
  }

  /** The text begins with an HTTP/1 status of 200, of any minor version. */
  predicate Is200(r: string, minor: char, rest: string) {
    r == "HTTP/1." + [minor] + " 200" + rest && (rest != "" ==> rest[0] in {' ', '\r', '\n'})
  }

  lemma StatusIsText(r: string)
    ensures StatusOk(r) <==> exists minor, rest :: Is200(r, minor, rest)
  {
    if StatusOk(r) {
      var rest := r[12..];
      assert r == r[..7] + [r[7]] + [r[8]] + r[9..12] + rest;
      assert r == "HTTP/1." + [r[7]] + " 200" + rest;
      assert Is200(r, r[7], rest);
    }
    if minor, rest :| Is200(r, minor, rest) {
      assert r[..7] == "HTTP/1." && r[8] == ' ' && r[9..12] == "200" && r[12..] == rest;
      assert rest != "" ==> r[12] == rest[0];
    }
  }

  // ---------- what a directive says ----------

  /** One to nine digits. */
  predicate IsDigits(a: string) { 1 <= |a| <= 9 && forall i :: 0 <= i < |a| ==> '0' <= a[i] <= '9' }

  /** The words of a Cache-Control value, and their text in any letter case. */
  datatype Word = PublicWord | MaxAgeWord(digits: string) | SharedWord(digits: string)

  function Spelled(w: Word): string {
    match w case PublicWord => "public" case MaxAgeWord(a) => "max-age=" + a case SharedWord(a) => "s-maxage=" + a
  }

  predicate IsWord(w: Word) { w.PublicWord? || IsDigits(w.digits) }

  function Means(w: Word): Directive
    requires IsWord(w)
  {
    match w case PublicWord => Public case MaxAgeWord(a) => MaxAge(DecValue(a)) case SharedWord(a) => SMaxAge(DecValue(a))
  }

  lemma SameEnds(d: string, p: string, a: string)
    requires SameLetters(d, p + a) && IsDigits(a)
    ensures StartsWithCi(d, p) && d[|p|..] == a
  {
    var whole := p + a;
    assert forall i :: 0 <= i < |p| ==> whole[i] == p[i];
    SameLettersLower(d[..|p|], p);
    forall i | 0 <= i < |a| ensures d[|p|..][i] == a[i] {
      assert whole[|p| + i] == a[i];
      assert d[|p| + i] == whole[|p| + i] || CapitalOf(d[|p| + i], whole[|p| + i]) || CapitalOf(whole[|p| + i], d[|p| + i]);
    }
  }

  /** Each word has its one meaning, in any letter case. */
  lemma WordMeans(d: string, w: Word)
    requires IsWord(w) && SameLetters(d, Spelled(w))
    ensures Classify(d) == Means(w)
  {
    match w
    case PublicWord => SameLettersLower(d, "public"); assert d[..6] == d;
    case MaxAgeWord(a) => SameEnds(d, "max-age=", a);
    case SharedWord(a) =>
      SameEnds(d, "s-maxage=", a);
      PrefixFirst(d, "s-maxage=");
      PrefixFirst(d, "max-age=");
  }

  lemma EndsSame(d: string, p: string)
    requires StartsWithCi(d, p)
    ensures SameLetters(d, p + d[|p|..])
  {
    SameLettersLower(d[..|p|], p);
    var whole := p + d[|p|..];
    forall i | 0 <= i < |d| ensures d[i] == whole[i] || CapitalOf(d[i], whole[i]) || CapitalOf(whole[i], d[i]) {
      if i < |p| { assert d[..|p|][i] == d[i] && p[i] == whole[i]; }
    }
  }

  /** Nothing else is approved. */
  lemma ApprovedIsWord(d: string) returns (w: Word)
    requires Classify(d) != Unapproved
    ensures IsWord(w) && SameLetters(d, Spelled(w))
  {
    if |d| == 6 && StartsWithCi(d, "public") {
      EndsSame(d, "public");
      w := PublicWord;
      assert "public" + d[6..] == "public";
    } else if StartsWithCi(d, "max-age=") && IsAge(d[8..]) {
      EndsSame(d, "max-age=");
      w := MaxAgeWord(d[8..]);
    } else {
      EndsSame(d, "s-maxage=");
      w := SharedWord(d[9..]);
    }
  }

  // ---------- what a value says ----------

  /** The directives with ", " between them. */
  function Listed(ds: seq<string>): string {
    if ds == [] then "" else if |ds| == 1 then ds[0] else ds[0] + ", " + Listed(ds[1..])
  }

  /** The directives spell these words, in any letter case. */
  ghost predicate Spell(ds: seq<string>, ws: seq<Word>) {
    |ds| == |ws| && forall i :: 0 <= i < |ds| ==> IsWord(ws[i]) && SameLetters(ds[i], Spelled(ws[i]))
  }

  lemma WordIsTight(d: string, w: Word)
    requires IsWord(w) && SameLetters(d, Spelled(w))
    ensures d != "" && d[0] !in BLANK && d[|d| - 1] !in BLANK && ',' !in d && '\r' !in d && '\n' !in d
  {
    forall i | 0 <= i < |d| ensures d[i] !in BLANK && d[i] != ',' && d[i] != '\r' && d[i] != '\n' {
      var s := Spelled(w);
      match w
      case PublicWord =>
      case MaxAgeWord(a) => if i >= 8 { assert s[i] == a[i - 8]; } else { assert s[i] == "max-age="[i]; }
      case SharedWord(a) => if i >= 9 { assert s[i] == a[i - 9]; } else { assert s[i] == "s-maxage="[i]; }
      assert d[i] == s[i] || CapitalOf(d[i], s[i]) || CapitalOf(s[i], d[i]);
    }
  }

  lemma {:induction false} DirectivesOfListed(ds: seq<string>, ws: seq<Word>)
    requires Spell(ds, ws)
    ensures Directives(Listed(ds)) == ds && '\r' !in Listed(ds) && '\n' !in Listed(ds)
  {
    hide Directives, SameLetters, Trim;
    if ds == [] {
      NoneInEmpty();
    } else {
      var d, v := ds[0], Listed(ds);
      WordIsTight(d, ws[0]);
      DirectivesOfListed(ds[1..], ws[1..]);
      FirstListed(d, ds[1..]);
      assert ds == [d] + ds[1..];
    }
  }

  /** Spaces, tabs and commas in front of a value do not matter. */
  lemma BlanksDoNotMatter(v: string)
    ensures Directives(" " + v) == Directives(v) && Directives("\t" + v) == Directives(v) && Directives("," + v) == Directives(v)
  {
    hide Directives;
    SkipBlank(" " + v);
    SkipBlank("\t" + v);
    SkipBlank("," + v);
    assert (" " + v)[1..] == v && ("\t" + v)[1..] == v && ("," + v)[1..] == v;
  }

  lemma FirstListed(d: string, more: seq<string>)
    requires d != "" && d[0] !in BLANK && d[|d| - 1] !in BLANK && ',' !in d
    ensures Directives(Listed([d] + more)) == [d] + Directives(Listed(more))
  {
    hide Directives, Trim;
    var v := Listed([d] + more);
    assert ([d] + more)[1..] == more;
    if more == [] {
      assert v == d;
    } else {
      assert v == d + ", " + Listed(more);
    }
    FirstDirective(v, |d|, |d|);
    assert v[..|d|] == d;
    if more == [] {
      assert v[|d|..] == "" == Listed(more);
    } else {
      SkipBlank(v[|d|..]);
      assert v[|d|..][1..] == v[|d| + 1..];
      SkipBlank(v[|d| + 1..]);
      assert v[|d| + 1..][1..] == Listed(more);
    }
  }

  /** How long a value lets a response live: the last s-maxage, else the last max-age, else 60 seconds. */
  ghost predicate LivesFor(ws: seq<Word>, n: nat) {
    if exists i :: 0 <= i < |ws| && ws[i].SharedWord? then
      exists i :: 0 <= i < |ws| && ws[i].SharedWord? && IsDigits(ws[i].digits) && n == DecValue(ws[i].digits)
                  && forall j :: i < j < |ws| ==> !ws[j].SharedWord?
    else if exists i :: 0 <= i < |ws| && ws[i].MaxAgeWord? then
      exists i :: 0 <= i < |ws| && ws[i].MaxAgeWord? && IsDigits(ws[i].digits) && n == DecValue(ws[i].digits)
                  && forall j :: i < j < |ws| ==> !ws[j].MaxAgeWord?
    else n == 60
  }

  lemma {:induction false} LastAgeAt(cs: seq<Directive>, shared: bool, i: nat)
    requires i < |cs| && (if shared then cs[i].SMaxAge? else cs[i].MaxAge?)
    requires forall j :: i < j < |cs| ==> !(if shared then cs[j].SMaxAge? else cs[j].MaxAge?)
    ensures LastAge(cs, shared, None) == Some(cs[i].seconds)
  {
    if i < |cs| - 1 { LastAgeAt(cs[..|cs| - 1], shared, i); }
  }

  lemma {:induction false} NoAge(cs: seq<Directive>, shared: bool)
    requires forall j :: 0 <= j < |cs| ==> !(if shared then cs[j].SMaxAge? else cs[j].MaxAge?)
    ensures LastAge(cs, shared, None) == None
  {
    if cs != [] { NoAge(cs[..|cs| - 1], shared); }
  }

  lemma AllMean(ds: seq<string>, ws: seq<Word>)
    requires Spell(ds, ws)
    ensures |ds| == |ws| && forall i :: 0 <= i < |ds| ==> IsWord(ws[i]) && ClassifyAll(ds)[i] == Means(ws[i])
  {
    hide Classify, SameLetters;
    forall i | 0 <= i < |ds| ensures ClassifyAll(ds)[i] == Means(ws[i]) { WordMeans(ds[i], ws[i]); }
  }

  /** The ages found in a value are those of its words. */
  lemma AgesOf(ds: seq<string>, ws: seq<Word>, n: nat)
    requires Spell(ds, ws) && LivesFor(ws, n)
    ensures var cs := ClassifyAll(ds);
            && AllApproved(cs)
            && n == match LastAge(cs, true, None) case Some(a) => a case None => match LastAge(cs, false, None) case Some(a) => a case None => 60
  {
    hide Classify, LastAge, SameLetters, Spell, DecValue;
    var cs := ClassifyAll(ds);
    AllMean(ds, ws);
    if exists i :: 0 <= i < |ws| && ws[i].SharedWord? {
      var i :| 0 <= i < |ws| && ws[i].SharedWord? && IsDigits(ws[i].digits) && n == DecValue(ws[i].digits)
               && forall j :: i < j < |ws| ==> !ws[j].SharedWord?;
      LastAgeAt(cs, true, i);
    } else {
      NoAge(cs, true);
      if exists i :: 0 <= i < |ws| && ws[i].MaxAgeWord? {
        var i :| 0 <= i < |ws| && ws[i].MaxAgeWord? && IsDigits(ws[i].digits) && n == DecValue(ws[i].digits)
                 && forall j :: i < j < |ws| ==> !ws[j].MaxAgeWord?;
        LastAgeAt(cs, false, i);
      } else {
        NoAge(cs, false);
      }
    }
  }

  // ---------- what a response says ----------

  lemma {:induction false} DirectivesConcat(a: seq<string>, b: seq<string>)
    ensures AllDirectives(a + b) == AllDirectives(a) + AllDirectives(b)
  {
    hide DirectivesOf, IsCacheControl, AllDirectives;
    NoDirective();
    if a == [] {
      assert a + b == b;
    } else {
      DirectivesConcat(a[1..], b);
      assert (a + b)[1..] == a[1..] + b;
      NextDirectives(a);
      NextDirectives(a + b);
    }
  }

  lemma NoDirective()
    ensures AllDirectives([]) == []
  {
  }

  lemma NextDirectives(ls: seq<string>)
    requires ls != []
    ensures AllDirectives(ls) == (if IsCacheControl(ls[0]) then DirectivesOf(ls[0]) else []) + AllDirectives(ls[1..])
  {
  }

  lemma {:induction false} LengthConcat(a: seq<string>, b: seq<string>, start: Option<nat>)
    ensures LastLength(a + b, start) == LastLength(b, LastLength(a, start))
  {
    hide LengthOf, IsLength, LastLength;
    if a == [] {
      assert a + b == b;
      NoLength(start);
    } else {
      LengthConcat(a[1..], b, if IsLength(a[0]) then LengthOf(a[0]) else start);
      assert (a + b)[1..] == a[1..] + b;
      NextLength(a, start);
      NextLength(a + b, start);
    }
  }

  lemma NoLength(start: Option<nat>)
    ensures LastLength([], start) == start
  {
  }

  lemma NextLength(ls: seq<string>, start: Option<nat>)
    requires ls != []
    ensures LastLength(ls, start) == LastLength(ls[1..], if IsLength(ls[0]) then LengthOf(ls[0]) else start)
  {
  }

  /** The header names that matter. */
  const NAMES := ["set-cookie:", "authorization:", "www-authenticate:", "pragma:", "vary:", "cache-control:", "content-length:"]

  /** The line begins with this name, in any letter case. */
  ghost predicate Begins(l: string, name: string) { |name| <= |l| && SameLetters(l[..|name|], name) }

  ghost predicate Holds(l: string, word: string) { exists k :: 0 <= k <= |l| && Begins(l[k..], word) }

  /** A header that has no say in caching. */
  ghost predicate Neutral(l: string) { forall i :: 0 <= i < |NAMES| ==> !Begins(l, NAMES[i]) }

  lemma BeginsCi(l: string, name: string)
    ensures Begins(l, name) <==> StartsWithCi(l, name)
  {
    if |name| <= |l| { SameLettersLower(l[..|name|], name); }
  }

  lemma HoldsCi(l: string, word: string)
    ensures Holds(l, word) <==> ContainsCi(l, word)
  {
    forall k | 0 <= k <= |l| ensures Begins(l[k..], word) <==> StartsWithCi(l[k..], word) { BeginsCi(l[k..], word); }
  }

  lemma NeutralIsClean(l: string)
    requires Neutral(l)
    ensures Clean(l) && !IsCacheControl(l) && !IsLength(l)
  {
    hide StartsWithCi, Begins;
    forall i | 0 <= i < |NAMES| ensures !StartsWithCi(l, NAMES[i]) { BeginsCi(l, NAMES[i]); }
    assert NAMES[0] == "set-cookie:" && NAMES[1] == "authorization:" && NAMES[2] == "www-authenticate:" && NAMES[3] == "pragma:";
    assert NAMES[4] == "vary:" && NAMES[5] == "cache-control:" && NAMES[6] == "content-length:";
  }

  ghost predicate AllNeutral(ls: seq<string>) { forall i :: 0 <= i < |ls| ==> Neutral(ls[i]) }

  lemma {:induction false} NeutralSaysNothing(ls: seq<string>, start: Option<nat>)
    requires AllNeutral(ls)
    ensures AllDirectives(ls) == [] && LastLength(ls, start) == start && forall i :: 0 <= i < |ls| ==> Clean(ls[i])
  {
    if ls != [] {
      hide Neutral, Clean, IsCacheControl, IsLength, LengthOf, DirectivesOf;
      NeutralIsClean(ls[0]);
      NeutralSaysNothing(ls[1..], start);
      forall i | 0 <= i < |ls| ensures Clean(ls[i]) { if i > 0 { assert ls[i] == ls[1..][i - 1]; } }
    }
  }

  lemma EmptyIsNeutral()
    ensures AllNeutral([""])
  {
    hide SameLetters;
  }

  /** The verdict on a response none of whose lines stands against caching. */
  lemma CleanIsJudged(ls: seq<string>, body: string, v: Verdict)
    requires AreLines(ls) && forall i :: 0 <= i < |ls| ==> Clean(ls[i])
    ensures Judges(Response(ls, body), v) <==>
            v == Conclude(Found(LastAge(AllDirectives(ls), false, None), LastAge(AllDirectives(ls), true, None), LastLength(ls, None)), |body|)
  {
    hide StatusOk, HeaderEnds, HeaderLines, Clean, ScanLines, Conclude, Response, AllDirectives, LastLength, LastAge, AllNeutral;
    var r := Response(ls, body);
    var h := ResponseLines(ls, body);
    var all := ls + [""];
    EmptyIsNeutral();
    NeutralSaysNothing([""], LastLength(ls, None));
    assert forall i :: 0 <= i < |all| ==> Clean(all[i]) by { assert all[|ls|] == [""][0]; }
    ScanPassesClean(all, Found(None, None, None));
    ScanFinds(all, Found(None, None, None));
    DirectivesConcat(ls, [""]);
    LengthConcat(ls, [""], None);
    assert AllDirectives(ls) + [] == AllDirectives(ls);
    forall h': nat | HeaderEnds(r, h') ensures h' == h { HeaderEndUnique(r, h, h'); }
  }

  /** A response with one Cache-Control value lives as long as its words say, at most an hour, and is not cached if that is
      no time at all. Its other headers have no say. */
  lemma WordsDecide(before: seq<string>, ds: seq<string>, ws: seq<Word>, after: seq<string>, body: string, n: nat, v: Verdict)
    requires AreLines(before) && AllNeutral(before) && AreLines(after) && AllNeutral(after)
    requires Spell(ds, ws) && LivesFor(ws, n)
    ensures Judges(Response(before + ["Cache-Control: " + Listed(ds)] + after, body), v) <==>
            v == if n == 0 then No(ZeroLifetime) else Yes(if n > 3600 then 3600 else n)
  {
    hide AreLines, AllNeutral, Clean, Judges, Spell, LivesFor, LastAge, AllDirectives, LastLength, Response, ClassifyAll, AllApproved;
    var l := "Cache-Control: " + Listed(ds);
    var ls := before + [l] + after;
    ValueLine(ds, ws);
    AgesOf(ds, ws, n);
    OneAmong(before, l, after);
    CleanIsJudged(ls, body, v);
  }

  /** One line among headers that have no say. */
  lemma OneAmong(before: seq<string>, l: string, after: seq<string>)
    requires AreLines(before) && AllNeutral(before) && AreLines(after) && AllNeutral(after) && IsLine(l)
    ensures var ls := before + [l] + after;
            && AreLines(ls) && (Clean(l) ==> forall i :: 0 <= i < |ls| ==> Clean(ls[i]))
            && AllDirectives(ls) == (if IsCacheControl(l) then DirectivesOf(l) else [])
            && LastLength(ls, None) == if IsLength(l) then LengthOf(l) else None
  {
    hide Neutral, Clean, IsCacheControl, IsLength, LengthOf, DirectivesOf, IsLine;
    var ls := before + [l] + after;
    NeutralSaysNothing(before, None);
    NeutralSaysNothing(after, LastLength([l], None));
    DirectivesConcat(before + [l], after);
    DirectivesConcat(before, [l]);
    LengthConcat(before + [l], after, None);
    LengthConcat(before, [l], None);
    assert [l][1..] == [];
    forall i | 0 <= i < |ls| ensures IsLine(ls[i]) && (Clean(l) ==> Clean(ls[i])) {
      assert i < |before| ==> ls[i] == before[i];
      assert i > |before| ==> ls[i] == after[i - |before| - 1];
    }
  }

  lemma NotBoth(l: string, a: string, b: string, i: nat)
    requires StartsWithCi(l, a) && i < |a| && i < |b| && Lower(a[i]) != Lower(b[i])
    ensures !StartsWithCi(l, b)
  {
    hide StartsWithCi;
    StartsAt(l, a, i);
    if StartsWithCi(l, b) { StartsAt(l, b, i); }
  }

  lemma StartsAt(l: string, p: string, i: nat)
    requires StartsWithCi(l, p) && i < |p|
    ensures i < |l| && Lower(l[i]) == Lower(p[i])
  {
    assert LowerAll(l[..|p|])[i] == LowerAll(p)[i];
  }

  /** A Cache-Control or Content-Length header is none of the forbidden ones. */
  lemma NotForbidden(l: string, name: string)
    requires name == "cache-control:" || name == "content-length:"
    requires StartsWithCi(l, name)
    ensures !Forbidden(l)
  {
    hide StartsWithCi, ContainsCi;
    NotBoth(l, name, "set-cookie:", 0);
    NotBoth(l, name, "authorization:", 0);
    NotBoth(l, name, "www-authenticate:", 0);
    NotBoth(l, name, "pragma:", 0);
    NotBoth(l, name, "vary:", 0);
  }

  lemma ValueText(x: string)
    ensures var l := "Cache-Control: " + x; StartsWithCi(l, "cache-control:") && l[14..] == " " + x && l[14..][1..] == x
    ensures '\r' !in x && '\n' !in x ==> IsLine("Cache-Control: " + x)
  {
    var l := "Cache-Control: " + x;
    assert l[..14] == "Cache-Control:" && LowerAll("Cache-Control:") == LowerAll("cache-control:");
    assert forall i :: 0 <= i < 15 ==> l[i] == "Cache-Control: "[i];
  }

  lemma ValueLine(ds: seq<string>, ws: seq<Word>)
    requires Spell(ds, ws)
    ensures var l := "Cache-Control: " + Listed(ds); IsLine(l) && IsCacheControl(l) && DirectivesOf(l) == ClassifyAll(ds) && !IsLength(l)
    ensures AllApproved(ClassifyAll(ds)) ==> Clean("Cache-Control: " + Listed(ds))
  {
    hide Directives, Spell, Forbidden, AllApproved, Listed, StartsWithCi;
    var l := "Cache-Control: " + Listed(ds);
    DirectivesOfListed(ds, ws);
    ValueText(Listed(ds));
    SkipBlank(l[14..]);
    NotForbidden(l, "cache-control:");
    NotBoth(l, "cache-control:", "content-length:", 1);
  }

  /** For all ages: max-age alone counts, s-maxage counts before or after it, and "public" alone or no value at all means
      60 seconds. */
  lemma SharedAgeWins(a: string, b: string, body: string, v: Verdict)
    requires IsDigits(a) && IsDigits(b)
    ensures Judges(Response(["Cache-Control: " + ("max-age=" + a)], body), v) <==> LivesAs(v, DecValue(a))
    ensures Judges(Response(["Cache-Control: " + ("max-age=" + a + ", " + ("s-maxage=" + b))], body), v) <==> LivesAs(v, DecValue(b))
    ensures Judges(Response(["Cache-Control: " + ("s-maxage=" + b + ", " + ("max-age=" + a))], body), v) <==> LivesAs(v, DecValue(b))
    ensures Judges(Response(["Cache-Control: " + "public"], body), v) <==> v == Yes(60)
    ensures Judges(Response([], body), v) <==> v == Yes(60)
  {
    hide Judges, Response, LivesFor, Listed, Spelled, SpelledAll;
    var x, y := MaxAgeWord(a), SharedWord(b);
    WordsLive(x, y);
    WordTexts(x, y);
    OneValue([x], Spelled(x), body, DecValue(a), v);
    OneValue([PublicWord], "public", body, 60, v);
    OneValue([x, y], Spelled(x) + ", " + Spelled(y), body, DecValue(b), v);
    OneValue([y, x], Spelled(y) + ", " + Spelled(x), body, DecValue(b), v);
    NoHeaders(body, v);
  }

  lemma WordsLive(x: Word, y: Word)
    requires IsWord(x) && IsWord(y) && x.MaxAgeWord? && y.SharedWord?
    ensures LivesFor([x], DecValue(x.digits)) && LivesFor([x, y], DecValue(y.digits)) && LivesFor([y, x], DecValue(y.digits))
    ensures LivesFor([PublicWord], 60)
  {
    var xy, yx := [x, y], [y, x];
    assert [x][0] == x && xy[1] == y && yx[0] == y;
  }

  lemma WordTexts(x: Word, y: Word)
    requires x.MaxAgeWord? && y.SharedWord?
    ensures Spelled(x) == "max-age=" + x.digits && Spelled(y) == "s-maxage=" + y.digits
    ensures Listed(SpelledAll([x])) == Spelled(x) && Listed(SpelledAll([PublicWord])) == "public"
    ensures Listed(SpelledAll([x, y])) == Spelled(x) + ", " + Spelled(y)
    ensures Listed(SpelledAll([y, x])) == Spelled(y) + ", " + Spelled(x)
  {
    hide Listed;
    TwoListed(x, y);
    TwoListed(y, x);
    OneListed(x);
    OneListed(PublicWord);
  }

  lemma TwoListed(x: Word, y: Word)
    ensures Listed(SpelledAll([x, y])) == Spelled(x) + ", " + Spelled(y)
  {
    hide Spelled;
    var ds := SpelledAll([x, y]);
    assert ds == [Spelled(x), Spelled(y)] && ds[1..] == [Spelled(y)];
  }

  lemma OneListed(x: Word)
    ensures Listed(SpelledAll([x])) == Spelled(x)
  {
    hide Spelled;
    assert SpelledAll([x]) == [Spelled(x)];
  }

  /** Not cached if that is no time at all, else for that long, but at most an hour. */
  predicate LivesAs(v: Verdict, n: nat) { v == if n == 0 then No(ZeroLifetime) else Yes(if n > 3600 then 3600 else n) }

  function SpelledAll(ws: seq<Word>): (r: seq<string>)
    ensures |r| == |ws| && forall i :: 0 <= i < |ws| ==> r[i] == Spelled(ws[i])
  {
    seq(|ws|, i requires 0 <= i < |ws| => Spelled(ws[i]))
  }

  lemma OneValue(ws: seq<Word>, value: string, body: string, n: nat, v: Verdict)
    requires (forall i :: 0 <= i < |ws| ==> IsWord(ws[i])) && LivesFor(ws, n) && value == Listed(SpelledAll(ws))
    ensures Judges(Response(["Cache-Control: " + value], body), v) <==> LivesAs(v, n)
  {
    hide Judges, Response, LivesFor, Listed;
    WordsDecide([], SpelledAll(ws), ws, [], body, n, v);
    assert [] + ["Cache-Control: " + value] + [] == ["Cache-Control: " + value];
  }

  lemma NoHeaders(body: string, v: Verdict)
    ensures Judges(Response([], body), v) <==> v == Yes(60)
  {
    hide Judges, Response;
    NeutralDecides([], body, v);
  }

  /** Headers that have no say leave the default of 60 seconds. */
  lemma NeutralDecides(ls: seq<string>, body: string, v: Verdict)
    requires AreLines(ls) && AllNeutral(ls)
    ensures Judges(Response(ls, body), v) <==> v == Yes(60)
  {
    hide Judges, Response, AreLines, AllNeutral, Clean;
    NeutralSaysNothing(ls, None);
    CleanIsJudged(ls, body, v);
  }

  /** A Content-Length must be the length of the body, and numbers beyond 10000000009 are refused. */
  lemma LengthDecides(before: seq<string>, n: nat, after: seq<string>, body: string, v: Verdict)
    requires AreLines(before) && AllNeutral(before) && AreLines(after) && AllNeutral(after)
    ensures var r := Response(before + ["Content-Length: " + Dec(n)] + after, body);
            if n <= 10000000009 then Judges(r, v) <==> v == (if n == |body| then Yes(60) else No(PartialBody))
            else Judges(r, v) ==> v.No?
  {
    hide AreLines, AllNeutral, Clean, Judges, Response, AllDirectives, LastLength;
    var l := "Content-Length: " + Dec(n);
    LengthLine(n);
    OneAmong(before, l, after);
    var ls := before + [l] + after;
    if n <= 10000000009 {
      CleanIsJudged(ls, body, v);
    } else if Judges(Response(ls, body), v) {
      DirtyIsRefused(ls, |before|, body, v);
    }
  }

  lemma LengthLine(n: nat)
    ensures var l := "Content-Length: " + Dec(n);
            && IsLine(l) && IsLength(l) && !IsCacheControl(l) && (Clean(l) <==> n <= 10000000009)
            && (n <= 10000000009 ==> LengthOf(l) == Some(n))
  {
    hide Forbidden, StartsWithCi, LengthOf, Dec, IsLine;
    var l := "Content-Length: " + Dec(n);
    LengthText(Dec(n));
    DigitsAreLine(Dec(n));
    DecValueOfDec(n);
    FrontOfDec(n);
    CountOf(l, Dec(n));
    NotForbidden(l, "content-length:");
    NotBoth(l, "content-length:", "cache-control:", 1);
  }

  lemma LengthText(d: string)
    ensures var l := "Content-Length: " + d; StartsWithCi(l, "content-length:") && l[15..] == " " + d
  {
    var l := "Content-Length: " + d;
    assert l[..15] == "Content-Length:" && LowerAll("Content-Length:") == LowerAll("content-length:");
  }

  lemma DigitsAreLine(d: string)
    requires AllDigits(d)
    ensures IsLine("Content-Length: " + d)
  {
    var l := "Content-Length: " + d;
    forall i | 0 <= i < |l| ensures l[i] != '\r' && l[i] != '\n' {
      if i >= 16 { assert l[i] == d[i - 16] && IsDigit(d[i - 16]); } else { assert l[i] == "Content-Length: "[i]; }
    }
  }

  lemma FrontOfDec(n: nat)
    ensures DecValue(Dec(n)[..|Dec(n)| - 1]) == n / 10
  {
    var d := Dec(n);
    if n < 10 {
      assert d[..|d| - 1] == "";
    } else {
      DecValueOfDec(n / 10);
      assert d[..|d| - 1] == Dec(n / 10);
    }
  }

  lemma CountOf(l: string, d: string)
    requires IsLength(l) && l[15..] == " " + d && d != "" && AllDigits(d)
    ensures LengthOf(l) == if DecValue(d[..|d| - 1]) <= 1000000000 then Some(DecValue(d)) else None
  {
    hide StartsWithCi, TrimLeft;
    assert IsDigit(d[0]);
    TrimLeftIs(" " + d, BLANK, 1);
    assert (" " + d)[1..] == d;
  }

  /** A header line, in any letter case, that makes a response one client's own. */
  ghost predicate Private(l: string) {
    || Begins(l, "set-cookie:") || Begins(l, "authorization:") || Begins(l, "www-authenticate:")
    || (Begins(l, "pragma:") && Holds(l, "no-cache"))
    || (Begins(l, "vary:") && (Holds(l, "*") || Holds(l, "cookie") || Holds(l, "authorization")))
  }

  /** One such line, and the response is not cached. */
  lemma PrivateIsRefused(ls: seq<string>, i: nat, body: string, v: Verdict)
    requires AreLines(ls) && i < |ls| && Private(ls[i]) && Judges(Response(ls, body), v)
    ensures v.No?
  {
    hide Clean, Response, Private, Judges;
    PrivateIsForbidden(ls[i]);
    DirtyIsRefused(ls, i, body, v);
  }

  lemma DirtyIsRefused(ls: seq<string>, i: nat, body: string, v: Verdict)
    requires AreLines(ls) && i < |ls| && !Clean(ls[i]) && Judges(Response(ls, body), v)
    ensures v.No?
  {
    hide StatusOk, HeaderEnds, HeaderLines, Clean, Response, Judges, Cacheable;
    var r := Response(ls, body);
    var h := ResponseLines(ls, body);
    VerdictIsExact(r, v);
    assert (ls + [""])[i] == ls[i];
    if v.Yes? {
      var h': nat :| Cacheable(r, h');
      CacheableEnds(r, h');
      HeaderEndUnique(r, h, h');
      CacheableIsClean(r, h, i);
    }
  }

  lemma CacheableIsClean(r: string, h: nat, i: nat)
    requires Cacheable(r, h) && h <= |r| && i < |HeaderLines(r, h)|
    ensures Clean(HeaderLines(r, h)[i])
  {
    hide HeaderLines, StatusOk, HeaderEnds, Clean, LastLength, Lifetime;
  }

  lemma PrivateIsForbidden(l: string)
    requires Private(l)
    ensures !Clean(l)
  {
    hide StartsWithCi, ContainsCi, Begins, Holds;
    BeginsCi(l, "set-cookie:");
    BeginsCi(l, "authorization:");
    BeginsCi(l, "www-authenticate:");
    BeginsCi(l, "pragma:");
    BeginsCi(l, "vary:");
    HoldsCi(l, "no-cache");
    HoldsCi(l, "*");
    HoldsCi(l, "cookie");
    HoldsCi(l, "authorization");
  }
}
