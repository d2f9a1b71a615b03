/** src/request_parser.c, parse_http_url: the scanning loops, proved to compute `ParseUrl`. */
module UrlScanner {
  import opened Text
  import opened RequestParser

  method ParseHttpUrl(raw: string) returns (r: Parsed<Url>)
    ensures r == ParseUrl(raw)
  {
    hide ParseAuthority;
    if |raw| == 0 {
      return Err(Malformed);
    }
    if |raw| > MAX_URL {
      return Err(Overlong);
    }
    for i := 0 to |raw|
      invariant forall j :: 0 <= j < i ==> !IsBlankOrControl(raw[j])
    {
      if raw[i] as int <= 32 || raw[i] as int == 127 {
        return Err(ControlChar);
      }
    }
    if '#' in raw {
      return Err(Fragment);
    }
    var schemeOk := HasScheme(raw);
    if !schemeOk {
      return Err(InvalidScheme);
    }
    var end := 7;
    while end < |raw| && raw[end] != '/' && raw[end] != '?'
      invariant 7 <= end <= |raw|
      invariant forall j :: 7 <= j < end ==> raw[j] != '/' && raw[j] != '?'
    {
      end := end + 1;
    }
    AuthorityEndIs(raw[7..], end - 7);
    assert raw[7..][..end - 7] == raw[7..end] && raw[7..][end - 7..] == raw[end..];
    r := ScanAuthority(raw[7..end], raw[end..]);
    if r.Ok? && |r.value.path| >= MAX_PATH {
      PathAlwaysFits(raw);
      assert false; // the two path-overflow exits
    }
  }

  method HasScheme(raw: string) returns (ok: bool)
    ensures ok <==> |raw| >= 7 && LowerAll(raw[..7]) == SCHEME
  {
    if |raw| < 7 {
      return false;
    }
    for i := 0 to 7
      invariant forall j :: 0 <= j < i ==> Lower(raw[j]) == SCHEME[j]
    {
      if Lower(raw[i]) != SCHEME[i] {
        assert LowerAll(raw[..7])[i] != SCHEME[i];
        return false;
      }
    }
    assert LowerAll(raw[..7]) == SCHEME;
    ok := true;
  }

  method ScanAuthority(auth: string, tail: string) returns (r: Parsed<Url>)
    ensures r == ParseAuthority(auth, tail)
  {
    hide ColonAt, PortOf, PathOf;
    if auth == "" {
      return Err(EmptyHost);
    }
    for i := 0 to |auth|
      invariant forall j :: 0 <= j < i ==> auth[j] != '@'
    {
      if auth[i] == '@' {
        return Err(Credentials);
      }
    }
    var colon := ScanColon(auth);
    if colon.Err? {
      return Err(colon.error);
    }
    var k := colon.value;
    if k == 0 {
      return Err(EmptyHost);
    }
    if k >= MAX_HOST {
      return Err(HostTooLong);
    }
    var host := "";
    for i := 0 to k
      invariant |host| == i && forall j :: 0 <= j < i ==> IsHostChar(auth[j]) && host[j] == Lower(auth[j])
    {
      if !IsHostChar(auth[i]) {
        assert auth[..k][i] == auth[i];
        return Err(InvalidHost);
      }
      host := host + [Lower(auth[i])];
    }
    assert host == LowerAll(auth[..k]);
    var port := 80;
    if k < |auth| {
      var ok;
      ok, port := ScanPort(auth[k + 1..]);
      if !ok {
        return Err(InvalidPort);
      }
    }
    r := Ok(Url(host, port, PathOf(tail)));
  }

  method ScanColon(auth: string) returns (r: Parsed<nat>)
    requires auth != ""
    ensures r == ColonAt(auth)
  {
    if auth[0] == '[' {
      var close := 0;
      while close < |auth| && auth[close] != ']'
        invariant 0 <= close <= |auth| && forall j :: 0 <= j < close ==> auth[j] != ']'
      {
        close := close + 1;
      }
      FindIs(auth, ']', close);
      if close == |auth| {
        return Err(InvalidHost);
      }
      return Ok(if close + 1 < |auth| && auth[close + 1] == ':' then close + 1 else |auth|);
    }
    var k, i := |auth|, 0;
    while i < |auth|
      invariant 0 <= i <= |auth| && 0 <= k <= |auth| && (k == |auth| || k < i)
      invariant k < |auth| ==> auth[k] == ':'
      invariant forall j :: 0 <= j < i && j != k ==> auth[j] != ':'
    {
      if auth[i] == ':' {
        if k < |auth| {
          FindIs(auth, ':', k);
          assert auth[k + 1..][i - k - 1] == ':';
          return Err(Malformed);
        }
        k := i;
      }
      i := i + 1;
    }
    FindIs(auth, ':', k);
    r := Ok(k);
  }

  /** Accumulates the port, stopping as soon as it exceeds 65535. */
  method ScanPort(s: string) returns (ok: bool, port: nat)
    ensures ok <==> PortOf(s).Some?
    ensures ok ==> PortOf(s) == Some(port)
  {
    port := 0;
    if s == "" {
      return false, 0;
    }
    var i := 0;
    while i < |s|
      invariant 0 <= i <= |s| && AllDigits(s[..i]) && port == DecValue(s[..i]) <= 65535
    {
      if !IsDigit(s[i]) {
        return false, 0;
      }
      assert s[..i + 1][..i] == s[..i];
      port := port * 10 + (s[i] as int - '0' as int);
      i := i + 1;
      if port > 65535 {
        if AllDigits(s) { DecValuePrefix(s, i); }
        return false, 0;
      }
    }
    assert s[..i] == s;
    ok := port != 0;
  }
}
