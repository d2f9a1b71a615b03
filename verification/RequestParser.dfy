/** src/request_parser.c: absolute URLs (a subset of section 3.2 of RFC 3986). Strings are NUL-free C strings. */
module RequestParser {
  import opened Text

  const MAX_URL := 2048
  const MAX_HOST := 256
  const MAX_PATH := 2048
  const SCHEME := "http://"

  datatype ParseError =
    | Overlong | HostTooLong | InvalidScheme | Credentials | EmptyHost | InvalidHost | InvalidPort
    | ControlChar | Fragment | Malformed

  datatype Parsed<+T> = Ok(value: T) | Err(error: ParseError)

  datatype Url = Url(host: string, port: nat, path: string)

  // ---------- pieces ----------

  predicate IsBlankOrControl(c: char) { c as int <= 32 || c as int == 127 }

  predicate IsHostChar(c: char) { IsNameChar(c) || c == '[' || c == ']' }

  predicate AllHostChars(s: string) { forall i :: 0 <= i < |s| ==> IsHostChar(s[i]) }

  predicate Visible(s: string) { forall i :: 0 <= i < |s| ==> !IsBlankOrControl(s[i]) }

  /** A port from 1 to 65535; leading zeros are tolerated. */
  function PortOf(s: string): Option<nat> {
    if s != "" && AllDigits(s) && 1 <= DecValue(s) <= 65535 then Some(DecValue(s)) else None
  }

  /** Where the authority ends: at the first '/' or '?'. */
  function AuthorityEnd(s: string): (k: nat)
    ensures k <= |s| && (k < |s| ==> s[k] == '/' || s[k] == '?')
    ensures forall i :: 0 <= i < k ==> s[i] != '/' && s[i] != '?'
  {
    if s == "" || s[0] == '/' || s[0] == '?' then 0 else 1 + AuthorityEnd(s[1..])
  }

  /** Position of the port's colon, |auth| if there is none. */
  function ColonAt(auth: string): (k: Parsed<nat>)
    requires auth != ""
    ensures k.Ok? ==> k.value <= |auth|
  {
    if auth[0] == '[' then
      var close := Find(auth, ']');
      if close == |auth| then Err(InvalidHost)
      else if close + 1 < |auth| && auth[close + 1] == ':' then Ok(close + 1)
      else Ok(|auth|)
    else
      var k := Find(auth, ':');
      if k < |auth| && ':' in auth[k + 1..] then Err(Malformed) else Ok(k)
  }

  function PathOf(tail: string): string {
    if tail == "" then "/" else if tail[0] == '?' then "/" + tail else tail
  }

  function ParseAuthority(auth: string, tail: string): Parsed<Url> {
    if auth == "" then Err(EmptyHost)
    else if '@' in auth then Err(Credentials)
    else match ColonAt(auth)
      case Err(e) => Err(e)
      case Ok(k) =>
        if k == 0 then Err(EmptyHost)
        else if k >= MAX_HOST then Err(HostTooLong)
        else if !AllHostChars(auth[..k]) then Err(InvalidHost)
        else if k < |auth| && PortOf(auth[k + 1..]).None? then Err(InvalidPort)
        else Ok(Url(LowerAll(auth[..k]), if k < |auth| then PortOf(auth[k + 1..]).value else 80, PathOf(tail)))
  }

  function ParseUrl(raw: string): Parsed<Url> {
    if |raw| == 0 then Err(Malformed)
    else if |raw| > MAX_URL then Err(Overlong)
    else if !Visible(raw) then Err(ControlChar)
    else if '#' in raw then Err(Fragment)
    else if |raw| < 7 || LowerAll(raw[..7]) != SCHEME then Err(InvalidScheme)
    else
      var rest := raw[7..];
      var k := AuthorityEnd(rest);
      ParseAuthority(rest[..k], rest[k..])
  }

  // ---------- the grammar ----------

  datatype Parts = Parts(scheme: string, host: string, port: string, tail: string)

  /** A bracketed host closes its bracket, and closes it last if a port follows. */
  predicate BracketOk(host: string, hasPort: bool) {
    host != "" && host[0] == '[' ==> Find(host, ']') < |host| && (hasPort ==> Find(host, ']') == |host| - 1)
  }

  /** `raw` spells the URL `u`, split as `p`. */
  predicate Spells(raw: string, u: Url, p: Parts) {
    && raw == p.scheme + p.host + p.port + p.tail && |raw| <= MAX_URL && Visible(raw) && '#' !in raw
    && LowerAll(p.scheme) == SCHEME
    && 1 <= |p.host| < MAX_HOST && AllHostChars(p.host) && BracketOk(p.host, p.port != "") && u.host == LowerAll(p.host)
    && (if p.port == "" then u.port == 80 else p.port[0] == ':' && PortOf(p.port[1..]) == Some(u.port))
    && (p.tail == "" || p.tail[0] == '/' || p.tail[0] == '?') && u.path == PathOf(p.tail)
  }

  lemma AuthorityEndIs(s: string, k: nat)
    requires k <= |s| && (k < |s| ==> s[k] == '/' || s[k] == '?') && forall i :: 0 <= i < k ==> s[i] != '/' && s[i] != '?'
    ensures AuthorityEnd(s) == k
  {
  }

  lemma ColonOfParts(host: string, port: string)
    requires host != "" && AllHostChars(host) && BracketOk(host, port != "")
    requires port == "" || (port[0] == ':' && AllDigits(port[1..]))
    ensures ColonAt(host + port) == Ok(|host|)
  {
    var auth := host + port;
    if host[0] == '[' {
      FindIs(auth, ']', Find(host, ']'));
    } else {
      FindIs(auth, ':', |host|);
      if port != "" { assert auth[|host| + 1..] == port[1..]; }
    }
  }

  lemma NoAt(host: string, port: string)
    requires AllHostChars(host) && (port == "" || (port[0] == ':' && AllDigits(port[1..])))
    ensures '@' !in host + port
    ensures forall i :: 0 <= i < |host + port| ==> (host + port)[i] != '/' && (host + port)[i] != '?'
  {
    var auth := host + port;
    forall i | 0 <= i < |auth| ensures auth[i] != '@' && auth[i] != '/' && auth[i] != '?' {
      if i < |host| { assert IsHostChar(host[i]); }
      else if i > |host| { assert auth[i] == port[1..][i - |host| - 1] && IsDigit(port[1..][i - |host| - 1]); }
      else { assert auth[i] == port[0]; }
    }
  }

  lemma AuthorityOfParts(p: Parts, u: Url)
    requires 1 <= |p.host| < MAX_HOST && AllHostChars(p.host) && BracketOk(p.host, p.port != "") && u.host == LowerAll(p.host)
    requires if p.port == "" then u.port == 80 else p.port[0] == ':' && PortOf(p.port[1..]) == Some(u.port)
    requires u.path == PathOf(p.tail)
    ensures ParseAuthority(p.host + p.port, p.tail) == Ok(u)
  {
    var auth := p.host + p.port;
    ColonOfParts(p.host, p.port);
    NoAt(p.host, p.port);
    assert auth[..|p.host|] == p.host;
    if p.port != "" { assert auth[|p.host| + 1..] == p.port[1..]; }
  }

  lemma PortIsDigits(port: string, u: Url)
    requires if port == "" then u.port == 80 else port[0] == ':' && PortOf(port[1..]) == Some(u.port)
    ensures port == "" || (port[0] == ':' && AllDigits(port[1..]))
  {
  }

  lemma SpelledIsParsed(raw: string, u: Url, p: Parts)
    requires Spells(raw, u, p)
    ensures ParseUrl(raw) == Ok(u)
  {
    hide ColonAt, PathOf, PortOf, BracketOk, ParseAuthority, AllHostChars, Visible, LowerAll, AuthorityEnd;
    var rest := p.host + p.port + p.tail;
    PortIsDigits(p.port, u);
    assert |p.scheme| == 7 && raw[..7] == p.scheme && raw[7..] == rest;
    NoAt(p.host, p.port);
    AuthorityEndIs(rest, |p.host + p.port|);
    assert rest[..|p.host + p.port|] == p.host + p.port && rest[|p.host + p.port|..] == p.tail;
    AuthorityOfParts(p, u);
  }

  lemma ColonShape(auth: string, k: nat)
    requires auth != "" && ColonAt(auth) == Ok(k)
    ensures k <= |auth| && (k < |auth| ==> auth[k] == ':')
    ensures 0 < k && AllHostChars(auth[..k]) ==> BracketOk(auth[..k], k < |auth|)
  {
    if auth[0] == '[' && 0 < k {
      var close := Find(auth, ']');
      if close < k { FindIs(auth[..k], ']', close); }
    }
  }

  lemma AuthorityIsSpelled(auth: string, tail: string, u: Url) returns (host: string, port: string)
    requires ParseAuthority(auth, tail) == Ok(u)
    ensures auth == host + port && 1 <= |host| < MAX_HOST && AllHostChars(host) && u.host == LowerAll(host)
    ensures BracketOk(host, port != "") && u.path == PathOf(tail)
    ensures if port == "" then u.port == 80 else port[0] == ':' && PortOf(port[1..]) == Some(u.port)
  {
    hide PathOf, BracketOk, PortOf, ColonAt;
    var k := ColonAt(auth).value;
    ColonShape(auth, k);
    host, port := auth[..k], auth[k..];
    if k < |auth| { assert port[1..] == auth[k + 1..]; }
  }

  lemma ParsedIsSpelled(raw: string, u: Url) returns (p: Parts)
    requires ParseUrl(raw) == Ok(u)
    ensures Spells(raw, u, p)
  {
    hide PathOf, BracketOk, PortOf, ParseAuthority, LowerAll, AllHostChars, Visible, AuthorityEnd;
    var rest := raw[7..];
    var end := AuthorityEnd(rest);
    var host, port := AuthorityIsSpelled(rest[..end], rest[end..], u);
    p := Parts(raw[..7], host, port, rest[end..]);
    PiecesOf(raw, end, host, port);
  }

  lemma PiecesOf(raw: string, end: nat, host: string, port: string)
    requires 7 + end <= |raw| && raw[7..][..end] == host + port
    ensures raw == raw[..7] + host + port + raw[7..][end..]
  {
    var rest := raw[7..];
    assert raw == raw[..7] + rest && rest == rest[..end] + rest[end..];
    assert raw[..7] + host + port + rest[end..] == raw[..7] + (host + port + rest[end..]);
  }

  /** The parser accepts exactly the spellings of the grammar. */
  lemma ParserMeetsGrammar(raw: string, u: Url)
    ensures ParseUrl(raw) == Ok(u) <==> exists p :: Spells(raw, u, p)
  {
    if ParseUrl(raw) == Ok(u) { var p := ParsedIsSpelled(raw, u); }
    if p :| Spells(raw, u, p) { SpelledIsParsed(raw, u, p); }
  }

  lemma AuthorityErrors(auth: string, tail: string)
    ensures ParseAuthority(auth, tail).Err? ==> ParseAuthority(auth, tail).error !in {Overlong, ControlChar, Fragment, InvalidScheme}
  {
    hide PortOf, AllHostChars, PathOf;
  }

  /** What is refused before the authority is looked at, in this order: more than 2048 characters, a blank or control
      character, a fragment, another scheme; and an authority with credentials. */
  lemma RefusedFirst(raw: string)
    ensures ParseUrl(raw) == Err(ControlChar) <==>
            |raw| <= 2048 && exists i :: 0 <= i < |raw| && (raw[i] as int <= 32 || raw[i] as int == 127)
    ensures ParseUrl(raw) == Err(Fragment) <==> |raw| <= 2048 && Visible(raw) && '#' in raw
    ensures ParseUrl(raw) == Err(InvalidScheme) <==>
            0 < |raw| <= 2048 && Visible(raw) && '#' !in raw && (|raw| < 7 || !SameLetters(raw[..7], "http://"))
    ensures ParseUrl(raw).Ok? ==> forall i :: 7 <= i < |raw| && raw[i] == '@' ==> exists j :: 7 <= j < i && (raw[j] == '/' || raw[j] == '?')
  {
    hide ColonAt, PortOf, AllHostChars, PathOf, AuthorityEnd;
    if |raw| >= 7 {
      SameLettersLower(raw[..7], "http://");
      assert LowerAll("http://") == "http://";
      var rest := raw[7..];
      var k := AuthorityEnd(rest);
      AuthorityErrors(rest[..k], rest[k..]);
      if ParseUrl(raw).Ok? {
        forall i | 7 <= i < |raw| && raw[i] == '@' ensures exists j :: 7 <= j < i && (raw[j] == '/' || raw[j] == '?') {
          assert rest[i - 7] == raw[i] && forall m :: 0 <= m < k ==> rest[m] == rest[..k][m];
          assert rest[k] == raw[7 + k];
        }
      }
    }
  }

  /** The path is the text from the first '/' or '?' behind the scheme to the end, byte for byte, with a '/' put in front
      where there is none. */
  lemma PathIsText(raw: string, u: Url, k: nat)
    requires ParseUrl(raw) == Ok(u) && 7 <= k <= |raw|
    requires (k < |raw| ==> raw[k] == '/' || raw[k] == '?') && forall i :: 7 <= i < k ==> raw[i] != '/' && raw[i] != '?'
    ensures u.path == if k == |raw| then "/" else if raw[k] == '/' then raw[k..] else "/" + raw[k..]
  {
    hide ColonAt, PortOf, AllHostChars, Visible, LowerAll, AuthorityEnd;
    var rest := raw[7..];
    AuthorityEndIs(rest, k - 7);
    assert rest[k - 7..] == raw[k..];
  }

  /** The host is the text before that and before the port's colon, in small letters; the port is what follows the colon. */
  lemma AuthorityIsText(raw: string, u: Url, k: nat) returns (c: nat)
    requires ParseUrl(raw) == Ok(u) && 7 <= k <= |raw|
    requires (k < |raw| ==> raw[k] == '/' || raw[k] == '?') && forall i :: 7 <= i < k ==> raw[i] != '/' && raw[i] != '?'
    ensures 7 < c <= k && |u.host| == c - 7
    ensures forall i :: 7 <= i < c ==> u.host[i - 7] == Lower(raw[i]) && (IsNameChar(raw[i]) || raw[i] == '[' || raw[i] == ']')
    ensures if c == k then u.port == 80 else raw[c] == ':' && AllDigits(raw[c + 1..k]) && DecValue(raw[c + 1..k]) == u.port
  {
    hide ColonAt, PathOf, BracketOk, Visible, AuthorityEnd;
    var rest := raw[7..];
    AuthorityEndIs(rest, k - 7);
    var host, port := AuthorityIsSpelled(rest[..k - 7], rest[k - 7..], u);
    c := 7 + |host|;
    assert host + port == raw[7..k];
    forall i | 7 <= i < c ensures u.host[i - 7] == Lower(raw[i]) && IsHostChar(raw[i]) {
      assert (host + port)[i - 7] == raw[i] && IsHostChar(host[i - 7]);
    }
    if c < k {
      assert port[0] == (host + port)[|host|] == raw[c];
      assert port[1..] == raw[c + 1..k];
    }
  }

  /** The two path-overflow branches are unreachable: "overlong" means just that. */
  lemma PathAlwaysFits(raw: string)
    ensures ParseUrl(raw) == Err(Overlong) <==> |raw| > MAX_URL
    ensures ParseUrl(raw).Ok? ==> |ParseUrl(raw).value.path| < MAX_PATH && |ParseUrl(raw).value.host| < MAX_HOST
    ensures ParseUrl(raw).Ok? ==> 1 <= ParseUrl(raw).value.port <= 65535
  {
    if 0 < |raw| <= MAX_URL && Visible(raw) && '#' !in raw && |raw| >= 7 && LowerAll(raw[..7]) == SCHEME {
      var rest := raw[7..];
      var k := AuthorityEnd(rest);
      assert k == 0 || |rest[k..]| <= 2040;
    }
  }

  // ---------- printing ----------

  function Print(u: Url): string {
    SCHEME + u.host + (if u.port == 80 then "" else ":" + Dec(u.port)) + u.path
  }

  lemma PrintedParts(raw: string, u: Url, p: Parts)
    requires Spells(raw, u, p) && |Print(u)| <= MAX_URL
    ensures Spells(Print(u), u, Parts(SCHEME, u.host, if u.port == 80 then "" else ":" + Dec(u.port), u.path))
  {
    var port := if u.port == 80 then "" else ":" + Dec(u.port);
    var q := Parts(SCHEME, u.host, port, u.path);
    DecValueOfDec(u.port);
    LowerStays(p.host);
    PathVisible(raw, p);
    assert port != "" ==> port[1..] == Dec(u.port);
    PrintIsVisible(u);
    assert LowerAll(SCHEME) == SCHEME;
  }

  /** Lowercasing keeps host characters, brackets and itself. */
  lemma LowerStays(host: string)
    requires AllHostChars(host)
    ensures AllHostChars(LowerAll(host)) && LowerAll(LowerAll(host)) == LowerAll(host)
    ensures Find(LowerAll(host), ']') == Find(host, ']')
    ensures forall b :: BracketOk(host, b) ==> BracketOk(LowerAll(host), b)
  {
    FindIs(LowerAll(host), ']', Find(host, ']'));
  }

  ghost predicate CleanUrl(u: Url) {
    AllHostChars(u.host) && Visible(u.path) && '#' !in u.path && u.path != "" && u.path[0] == '/'
  }

  lemma PathVisible(raw: string, p: Parts)
    requires raw == p.scheme + p.host + p.port + p.tail && Visible(raw) && '#' !in raw
    requires p.tail == "" || p.tail[0] == '/' || p.tail[0] == '?'
    ensures var path := PathOf(p.tail); Visible(path) && '#' !in path && path != "" && path[0] == '/'
  {
    var n := |raw| - |p.tail|;
    forall i | 0 <= i < |p.tail| ensures !IsBlankOrControl(p.tail[i]) && p.tail[i] != '#' {
      assert p.tail[i] == raw[n + i];
    }
  }

  lemma PrintIsVisible(u: Url)
    requires CleanUrl(u)
    ensures Visible(Print(u)) && '#' !in Print(u)
  {
    var port := if u.port == 80 then "" else ":" + Dec(u.port);
    var s := SCHEME + u.host + port;
    assert Print(u) == s + u.path;
    forall i | 0 <= i < |s| ensures !IsBlankOrControl(s[i]) && s[i] != '#' {
      if i < 7 { assert s[i] == SCHEME[i]; }
      else if i < 7 + |u.host| { assert s[i] == u.host[i - 7] && IsHostChar(u.host[i - 7]); }
      else if i > 7 + |u.host| { assert IsDigit(Dec(u.port)[i - 8 - |u.host|]); }
    }
  }

  lemma {:induction false} DecIsShortest(s: string)
    requires s != "" && AllDigits(s)
    ensures |Dec(DecValue(s))| <= |s|
  {
    var n := |s| - 1;
    var front, d := s[..n], s[n] as int - '0' as int;
    var v := DecValue(s);
    if front == "" {
      assert v == d < 10;
    } else {
      DecIsShortest(front);
      assert v == 10 * DecValue(front) + d && v / 10 == DecValue(front);
    }
  }

  /** Printing lengthens a URL by at most one byte (the "/" of an absent path). */
  lemma PrintAtMostOneLonger(raw: string, u: Url)
    requires ParseUrl(raw) == Ok(u)
    ensures |Print(u)| <= |raw| + 1
  {
    var p := ParsedIsSpelled(raw, u);
    if p.port != "" { DecIsShortest(p.port[1..]); }
  }

  /** ... and it can: this URL of 2048 bytes prints with 2049, so it does not survive the round trip. */
  lemma LongestUrlDoesNotRoundTrip() returns (raw: string, u: Url)
    ensures |raw| == MAX_URL && ParseUrl(raw) == Ok(u) && ParseUrl(Print(u)) == Err(Overlong)
  {
    var tail := "?" + Repeat('q', 2039);
    raw, u := SCHEME + "a" + "" + tail, Url("a", 80, "/" + tail);
    assert LowerAll(SCHEME) == SCHEME && LowerAll("a") == "a";
    forall i | 0 <= i < |raw| ensures !IsBlankOrControl(raw[i]) && raw[i] != '#' {
      if i > 8 { assert raw[i] == tail[i - 8]; }
    }
    SpelledIsParsed(raw, u, Parts(SCHEME, "a", "", tail));
  }

  /** Every URL that can be written down is accepted: any host of legal characters in small letters, any port, and any
      visible path without a fragment, as long as it fits. */
  lemma EveryUrlParses(u: Url)
    requires 1 <= |u.host| < 256 && LowerAll(u.host) == u.host
    requires forall i :: 0 <= i < |u.host| ==> IsNameChar(u.host[i]) || u.host[i] == '[' || u.host[i] == ']'
    requires u.host[0] != '[' || Find(u.host, ']') == |u.host| - 1
    requires 1 <= u.port <= 65535 && u.path != "" && u.path[0] == '/'
    requires forall i :: 0 <= i < |u.path| ==> u.path[i] as int > 32 && u.path[i] as int != 127 && u.path[i] != '#'
    requires |Print(u)| <= 2048
    ensures ParseUrl(Print(u)) == Ok(u)
  {
    hide ParseUrl, Find;
    var port := if u.port == 80 then "" else ":" + Dec(u.port);
    DecValueOfDec(u.port);
    assert port != "" ==> port[1..] == Dec(u.port);
    PrintIsVisible(u);
    assert LowerAll(SCHEME) == SCHEME;
    SpelledIsParsed(Print(u), u, Parts(SCHEME, u.host, port, u.path));
  }

  /** Printing a parsed URL and parsing it again gives it back, exactly when the printed form is at most
      2048 bytes; a longer one is refused as overlong. */
  lemma UrlRoundTrip(raw: string, u: Url)
    requires ParseUrl(raw) == Ok(u)
    ensures ParseUrl(Print(u)) == if |Print(u)| <= MAX_URL then Ok(u) else Err(Overlong)
  {
    if |Print(u)| <= MAX_URL {
      var p := ParsedIsSpelled(raw, u);
      PrintedParts(raw, u, p);
      SpelledIsParsed(Print(u), u, Parts(SCHEME, u.host, if u.port == 80 then "" else ":" + Dec(u.port), u.path));
    }
  }
}
