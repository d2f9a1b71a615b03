/** src/origin_client.c: the request that is sent to an origin. */
module UpstreamRequest {
  import opened Text
  import opened RequestParser
  import opened CacheKey
  import Eligibility

  const REQUEST_BUF := 2368  // MAX_HOST_LEN + MAX_PATH_LEN + 64

  function RequestLine(u: Url): string { "GET " + u.path + " HTTP/1.0" }

  function RequestText(u: Url): string {
    RequestLine(u) + "\r\n" + ("Host: " + u.host + "\r\n" + ("Connection: close" + "\r\n" + ("" + "\r\n" + "")))
  }

  /** The words between single spaces. */
  function Words(s: string): seq<string>
    decreases |s|
  {
    var k := Find(s, ' ');
    if k == |s| then [s] else [s[..k]] + Words(s[k + 1..])
  }

  lemma ParsedIsClean(u: Url)
    requires IsParsed(u)
    ensures CleanUrl(u)
  {
    hide ParseUrl, BracketOk, PortOf, Visible, AllHostChars, PathOf;
    var raw :| ParseUrl(raw) == Ok(u);
    var p := ParsedIsSpelled(raw, u);
    LowerStays(p.host);
    PathVisible(raw, p);
  }

  /** A line without a line feed or final carriage return is read back as it was written. */
  lemma LineFirst(line: string, rest: string)
    requires '\n' !in line && (line != "" ==> line[|line| - 1] != '\r')
    ensures Eligibility.Lines(line + "\r\n" + rest) == [line] + Eligibility.Lines(rest)
  {
    hide Find;
    var s := line + "\r\n" + rest;
    FindIs(s, '\n', |line| + 1);
    assert s[..|line| + 1] == line + "\r";
    assert (line + "\r")[..|line|] == line;
    assert s[|line| + 2..] == rest;
  }

  lemma WordFirst(word: string, rest: string)
    requires ' ' !in word
    ensures Words(word + " " + rest) == [word] + Words(rest)
  {
    hide Find;
    var s := word + " " + rest;
    FindIs(s, ' ', |word|);
    assert s[..|word|] == word && s[|word| + 1..] == rest;
  }

  lemma LastWord(word: string)
    requires ' ' !in word
    ensures Words(word) == [word]
  {
    hide Find;
    FindIs(word, ' ', |word|);
  }

  lemma CleanCharacters(u: Url)
    requires CleanUrl(u)
    ensures ' ' !in u.path && '\n' !in u.path && '\r' !in u.path && ' ' !in u.host && '\n' !in u.host && '\r' !in u.host
  {
  }

  lemma NoLineEndIn(u: Url)
    requires CleanUrl(u)
    ensures '\n' !in RequestLine(u) && '\n' !in "Host: " + u.host && '\r' !in "Host: " + u.host
  {
    CleanCharacters(u);
  }

  /** For every parsed URL the request is its request line of three words, its host and the connection header,
      whatever the URL holds, and it fits the buffer it is printed to. */
  lemma RequestIsThreeLines(u: Url)
    requires IsParsed(u)
    ensures Eligibility.Lines(RequestText(u)) == [RequestLine(u), "Host: " + u.host, "Connection: close", ""]
    ensures Words(RequestLine(u)) == ["GET", u.path, "HTTP/1.0"]
    ensures |RequestText(u)| < REQUEST_BUF
  {
    hide IsParsed, CleanUrl, Words, Eligibility.Lines;
    ParsedIsClean(u);
    ParsedHost(u);
    CleanCharacters(u);
    NoLineEndIn(u);
    var tail := "Connection: close" + "\r\n" + ("" + "\r\n" + "");
    LineFirst(RequestLine(u), "Host: " + u.host + "\r\n" + tail);
    LineFirst("Host: " + u.host, tail);
    LineFirst("Connection: close", "" + "\r\n" + "");
    LineFirst("", "");
    NothingRead();
    WordFirst("GET", u.path + " " + "HTTP/1.0");
    assert RequestLine(u) == "GET" + " " + (u.path + " " + "HTTP/1.0");
    WordFirst(u.path, "HTTP/1.0");
    LastWord("HTTP/1.0");
  }

  lemma NothingRead()
    ensures Eligibility.Lines("") == []
  {
  }
}
