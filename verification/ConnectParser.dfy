/** src/request_parser.c, parse_connect_request: "CONNECT host:port [HTTP/1.x]". */
module ConnectParser {
  import opened Text
  import opened RequestParser
  import UrlScanner

  const METHOD := "CONNECT "
  const VERSION11 := " HTTP/1.1"
  const VERSION10 := " HTTP/1.0"

  datatype Target = Target(host: string, port: nat)

  predicate IsConnect(line: string) { StartsWith(line, METHOD) }

  predicate IsControl(c: char) { (c as int) < 32 || c as int == 127 }

  predicate NoControls(s: string) { forall i :: 0 <= i < |s| ==> !IsControl(s[i]) }

  predicate IsDelimiter(c: char) { c == '/' || c == '?' || c == '#' || c == '[' || c == ']' }

  predicate AllPlainHostChars(s: string) { forall i :: 0 <= i < |s| ==> IsNameChar(s[i]) }

  /** The error of the first offending character from `i` on, or the colon's position (|t| if none). */
  function ColonFrom(t: string, i: nat, colon: nat): Parsed<nat>
    requires i <= |t|
    decreases |t| - i
  {
    if i == |t| then Ok(colon)
    else if t[i] == '@' then Err(Credentials)
    else if IsDelimiter(t[i]) then Err(InvalidHost)
    else if t[i] == ':' then (if colon < |t| then Err(Malformed) else ColonFrom(t, i + 1, i))
    else ColonFrom(t, i + 1, colon)
  }

  function ParseHostPort(t: string): Parsed<Target> {
    match ColonFrom(t, 0, |t|)
    case Err(e) => Err(e)
    case Ok(k) =>
      if k >= |t| then Err(InvalidPort)
      else if k == 0 then Err(EmptyHost)
      else if k >= MAX_HOST then Err(HostTooLong)
      else if !AllPlainHostChars(t[..k]) then Err(InvalidHost)
      else if |t| - k - 1 > 5 || PortOf(t[k + 1..]).None? then Err(InvalidPort)
      else Ok(Target(LowerAll(t[..k]), PortOf(t[k + 1..]).value))
  }

  function ParseConnect(line: string): Parsed<Target> {
    if |line| > MAX_URL then Err(Overlong)
    else if !NoControls(line) then Err(ControlChar)
    else if !IsConnect(line) then Err(Malformed)
    else
      var target := line[8..];
      if target == "" || target[0] == ' ' then Err(EmptyHost)
      else
        var e := Find(target, ' ');
        if e < |target| && target[e..] != VERSION11 && target[e..] != VERSION10 then Err(Malformed)
        else ParseHostPort(target[..e])
  }

  /** The first things that are refused: more than 2048 characters, then any control character, then another method. */
  lemma RefusedFirst(line: string)
    ensures ParseConnect(line) == Err(Overlong) <==> |line| > 2048
    ensures ParseConnect(line) == Err(ControlChar) <==>
            |line| <= 2048 && exists i :: 0 <= i < |line| && (line[i] as int < 32 || line[i] as int == 127)
    ensures |line| < 8 || line[..8] != "CONNECT " ==> ParseConnect(line).Err?
  {
    hide ColonFrom, PortOf, AllPlainHostChars;
    if |line| <= 2048 && NoControls(line) && IsConnect(line) {
      var target := line[8..];
      OtherErrors(target[..Find(target, ' ')]);
    }
  }

  lemma {:induction false} ColonErrors(t: string, i: nat, colon: nat)
    requires i <= |t|
    ensures ColonFrom(t, i, colon).Err? ==> ColonFrom(t, i, colon).error in {Credentials, InvalidHost, Malformed}
    decreases |t| - i
  {
    if i < |t| {
      ColonErrors(t, i + 1, colon);
      ColonErrors(t, i + 1, i);
    }
  }

  lemma OtherErrors(t: string)
    ensures ParseHostPort(t).Err? ==> ParseHostPort(t).error !in {Overlong, ControlChar}
  {
    hide ColonFrom, PortOf, AllPlainHostChars;
    ColonErrors(t, 0, |t|);
  }

  // ---------- the grammar ----------

  /** `line` asks for a tunnel to `t`: host and port spelled as given, with or without a version. */
  predicate Asks(line: string, t: Target, host: string, port: string, version: string) {
    && line == "CONNECT " + host + ":" + port + version
    && (version == "" || version == " HTTP/1.1" || version == " HTTP/1.0")
    && 1 <= |host| < 256 && AllPlainHostChars(host) && t.host == LowerAll(host)
    && |port| <= 5 && PortOf(port) == Some(t.port)
  }

  lemma {:induction false} ColonFromRuns(t: string, i: nat, colon: nat, k: nat)
    requires i <= k <= |t|
    requires forall j :: i <= j < k ==> t[j] != '@' && t[j] != ':' && !IsDelimiter(t[j])
    ensures ColonFrom(t, i, colon) == ColonFrom(t, k, colon)
    decreases k - i
  {
    if i < k { ColonFromRuns(t, i + 1, colon, k); }
  }

  lemma HostPortParses(host: string, port: string, t: Target)
    requires 1 <= |host| < MAX_HOST && AllPlainHostChars(host) && t.host == LowerAll(host)
    requires |port| <= 5 && PortOf(port) == Some(t.port)
    ensures ParseHostPort(host + ":" + port) == Ok(t)
    ensures ' ' !in host + ":" + port
  {
    var s := host + ":" + port;
    forall j | 0 <= j < |s| ensures j != |host| ==> s[j] != '@' && s[j] != ':' && !IsDelimiter(s[j]) && s[j] != ' ' {
      if j < |host| { assert IsNameChar(host[j]); } else if j > |host| { assert IsDigit(port[j - |host| - 1]); }
    }
    ColonFromRuns(s, 0, |s|, |host|);
    ColonFromRuns(s, |host| + 1, |host|, |s|);
    assert s[..|host|] == host && s[|host| + 1..] == port;
  }

  lemma AskedIsParsed(line: string, t: Target, host: string, port: string, version: string)
    requires Asks(line, t, host, port, version)
    ensures ParseConnect(line) == Ok(t)
  {
    hide ParseHostPort, PortOf, AllPlainHostChars, NoControls, LowerAll, Find, IsConnect;
    var s := host + ":" + port;
    HostPortParses(host, port, t);
    LineHasNoControls(line, t, host, port, version);
    assert line == METHOD + (s + version);
    TargetSplits(line, s, version);
  }

  /** The target of a request line ends where its version begins. */
  lemma TargetSplits(line: string, s: string, version: string)
    requires line == METHOD + (s + version) && ' ' !in s && s != ""
    requires version == "" || version == VERSION11 || version == VERSION10
    ensures IsConnect(line) && var target := line[8..];
            && target != "" && target[0] != ' ' && Find(target, ' ') == |s| && target[..|s|] == s && target[|s|..] == version
  {
    hide Find;
    var target := line[8..];
    assert target == s + version && line[..8] == METHOD;
    FindIs(target, ' ', |s|);
  }

  lemma LineHasNoControls(line: string, t: Target, host: string, port: string, version: string)
    requires Asks(line, t, host, port, version)
    ensures NoControls(line) && |line| <= 278
  {
    forall i | 0 <= i < |line| ensures !IsControl(line[i]) {
      if i < 8 { assert line[i] == METHOD[i]; }
      else if i < 8 + |host| { assert line[i] == host[i - 8] && IsNameChar(host[i - 8]); }
      else if i == 8 + |host| { }
      else if i < 9 + |host| + |port| { assert line[i] == port[i - 9 - |host|] && IsDigit(port[i - 9 - |host|]); }
      else { assert line[i] == version[i - 9 - |host| - |port|]; }
    }
  }

  lemma {:induction false} ColonFromFinds(t: string, i: nat, colon: nat)
    requires i <= |t| && (colon == |t| || (colon < i && t[colon] == ':')) && ColonFrom(t, i, colon).Ok?
    ensures var k := ColonFrom(t, i, colon).value; k <= |t| && (k < |t| ==> t[k] == ':')
    decreases |t| - i
  {
    if i < |t| { ColonFromFinds(t, i + 1, if t[i] == ':' then i else colon); }
  }

  lemma ParsedIsAsked(line: string, t: Target) returns (host: string, port: string, version: string)
    requires ParseConnect(line) == Ok(t)
    ensures Asks(line, t, host, port, version)
  {
    hide PortOf, LowerAll, NoControls, AllPlainHostChars, Find, ColonFrom;
    var target := line[8..];
    var e := Find(target, ' ');
    var s := target[..e];
    ColonFromFinds(s, 0, |s|);
    var k := ColonFrom(s, 0, |s|).value;
    host, port, version := s[..k], s[k + 1..], target[e..];
    LinePieces(line, e, k);
  }

  lemma LinePieces(line: string, e: nat, k: nat)
    requires |line| >= 8 && line[..8] == METHOD && k < e <= |line| - 8 && line[8..][k] == ':'
    ensures var target := line[8..];
            line == METHOD + target[..e][..k] + ":" + target[..e][k + 1..] + target[e..]
  {
    var target := line[8..];
    var s := target[..e];
    assert s == s[..k] + ":" + s[k + 1..] && target == s + target[e..] && line == METHOD + target;
    assert METHOD + s[..k] + ":" + s[k + 1..] + target[e..] == METHOD + (s[..k] + ":" + s[k + 1..]) + target[e..];
    assert METHOD + s + target[e..] == METHOD + (s + target[e..]);
  }

  /** The parser accepts exactly the lines of the grammar. */
  lemma ConnectMeetsGrammar(line: string, t: Target)
    ensures ParseConnect(line) == Ok(t) <==> exists host, port, version :: Asks(line, t, host, port, version)
  {
    if ParseConnect(line) == Ok(t) { var host, port, version := ParsedIsAsked(line, t); }
    if host, port, version :| Asks(line, t, host, port, version) { AskedIsParsed(line, t, host, port, version); }
  }

  function PrintConnect(t: Target, version: string): string { METHOD + t.host + ":" + Dec(t.port) + version }

  /** Every legal lowercase host of 1 to 255 characters and every port survive printing and parsing. */
  lemma ConnectRoundTrip(t: Target, version: string)
    requires 1 <= |t.host| <= 255 && AllPlainHostChars(t.host) && LowerAll(t.host) == t.host && 1 <= t.port <= 65535
    requires version == "" || version == VERSION11 || version == VERSION10
    ensures ParseConnect(PrintConnect(t, version)) == Ok(t)
  {
    DecValueOfDec(t.port);
    DecLength(t.port);
    AskedIsParsed(PrintConnect(t, version), t, t.host, Dec(t.port), version);
  }

  /** Whatever is parsed is such a host and port, so printing it parses back to it. */
  lemma ParsedConnectRoundTrips(line: string, t: Target, version: string)
    requires ParseConnect(line) == Ok(t) && (version == "" || version == VERSION11 || version == VERSION10)
    ensures ParseConnect(PrintConnect(t, version)) == Ok(t)
  {
    var host, _, _ := ParsedIsAsked(line, t);
    assert LowerAll(LowerAll(host)) == LowerAll(host);
    ConnectRoundTrip(t, version);
  }

  // ---------- the scanning loops ----------

  method ParseConnectRequest(line: string) returns (r: Parsed<Target>)
    ensures r == ParseConnect(line)
  {
    hide ParseHostPort;
    if |line| > MAX_URL {
      return Err(Overlong);
    }
    for i := 0 to |line|
      invariant forall j :: 0 <= j < i ==> !IsControl(line[j])
    {
      if IsControl(line[i]) {
        return Err(ControlChar);
      }
    }
    if !IsConnect(line) {
      return Err(Malformed);
    }
    var target := line[8..];
    if target == "" || target[0] == ' ' {
      return Err(EmptyHost);
    }
    var e := 0;
    while e < |target| && target[e] != ' '
      invariant 0 <= e <= |target| && forall j :: 0 <= j < e ==> target[j] != ' '
    {
      e := e + 1;
    }
    FindIs(target, ' ', e);
    if e < |target| && target[e..] != VERSION11 && target[e..] != VERSION10 {
      return Err(Malformed);
    }
    r := ScanHostPort(target[..e]);
  }

  method ScanHostPort(t: string) returns (r: Parsed<Target>)
    ensures r == ParseHostPort(t)
  {
    hide PortOf;
    var k := |t|;
    for i := 0 to |t|
      invariant 0 <= k <= |t| && ColonFrom(t, 0, |t|) == ColonFrom(t, i, k)
    {
      if t[i] == '@' {
        return Err(Credentials);
      }
      if IsDelimiter(t[i]) {
        return Err(InvalidHost);
      }
      if t[i] == ':' {
        if k < |t| {
          return Err(Malformed);
        }
        k := i;
      }
    }
    if k == |t| {
      return Err(InvalidPort);
    }
    if k == 0 {
      return Err(EmptyHost);
    }
    if k >= MAX_HOST {
      return Err(HostTooLong);
    }
    var host := "";
    for i := 0 to k
      invariant |host| == i && forall j :: 0 <= j < i ==> IsNameChar(t[j]) && host[j] == Lower(t[j])
    {
      if !IsNameChar(t[i]) {
        assert t[..k][i] == t[i];
        return Err(InvalidHost);
      }
      host := host + [Lower(t[i])];
    }
    assert host == LowerAll(t[..k]);
    if |t| - k - 1 > 5 {
      return Err(InvalidPort);
    }
    var ok, port := UrlScanner.ScanPort(t[k + 1..]);
    r := if ok then Ok(Target(host, port)) else Err(InvalidPort);
  }
}
