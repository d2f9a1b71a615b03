/** src/proxy.c: a whole client connection, from its first byte to its answer. */
module ProxyClient {
  import opened Text
  import opened Sockets
  import opened RequestParser
  import opened CacheKey
  import opened Fetch
  import opened Proxy
  import opened ProxyRuns
  import opened ProxyHttp
  import opened UpstreamRequest
  import CacheRuns
  import ConnectParser
  import Decision
  import Policy
  import PolicyEnforced
  import PolicyFile
  import ResponseCache
  import Tunnel
  import UrlScanner

  /** The request in a client's byte stream: its first line without line ends. */
  function RequestIn(stream: string): string {
    var k := Find(stream, '\n');
    TrimRight(if k < |stream| then stream[..k + 1] else stream, LINE_END)
  }

  /** This request may make the proxy call connect(). */
  ghost predicate MayAct(env: Env, request: string) {
    if ConnectParser.IsConnect(request) then
      var p := ConnectParser.ParseConnect(request);
      p.Ok? && p.value.port == env.connectPort && MayReach(env, p.value.host)
    else
      ParseUrl(request).Ok? && MayReach(env, ParseUrl(request).value.host)
  }

  /** This request asks for a malicious host. */
  ghost predicate AsksMalicious(env: Env, request: string, hs: Tunnel.ReadStatus) {
    if ConnectParser.IsConnect(request) then
      var p := ConnectParser.ParseConnect(request);
      p.Ok? && MaliciousTarget(env, p.value, hs)
    else
      ParseUrl(request).Ok? && KnownMalicious(env, ParseUrl(request).value.host)
  }

  /** The URL of a plain HTTP request whose answer may be cached. */
  ghost predicate AsksFor(request: string, url: Url) {
    !ConnectParser.IsConnect(request) && ParseUrl(request) == Ok(url)
  }

  lemma AskedIsParsed(request: string, url: Url)
    requires ParseUrl(request) == Ok(url)
    ensures IsParsed(url)
  {
  }

  /** The line that was read is the first line of the stream. */
  lemma LineIsRequest(line: string, rest: string, bufLen: nat)
    requires Tunnel.LineRead(Tunnel.LineOk, line, rest, bufLen)
    ensures RequestIn(line + rest) == TrimRight(line, LINE_END)
  {
    var stream := line + rest;
    FindIs(stream, '\n', |line| - 1);
    assert stream[..|line|] == line;
  }

  /** A request on a first line that ends in LF or CRLF is found without its line end, and if it has at most 2048
      characters and no NUL the line fits the reader's buffer. */
  lemma RequestOnLine(q: string, cr: bool, rest: string)
    requires '\n' !in q && (q != "" ==> q[|q| - 1] != '\r')
    ensures var line := q + (if cr then "\r\n" else "\n");
            && RequestIn(line + rest) == q
            && (|q| <= 2048 && '\0' !in q ==> Tunnel.LineRead(Tunnel.LineOk, line, rest, Tunnel.LINE_BUF))
  {
    hide Find, TrimRight;
    var line := q + (if cr then "\r\n" else "\n");
    var n := |line| - 1;
    assert line[n] == '\n' && forall i :: 0 <= i < n ==> line[i] != '\n';
    FindIs(line + rest, '\n', n);
    assert (line + rest)[..n + 1] == line;
    TrimRightIs(line, LINE_END, |q|);
    assert line[..|q|] == q;
  }

  /** How the reader stopped can be told from what it took. */
  lemma LineExclusive(status: Tunnel.ReadStatus, line: string, rest: string, bufLen: nat)
    requires Tunnel.LineRead(status, line, rest, bufLen)
    ensures Tunnel.LineRead(Tunnel.LineOk, line, "", bufLen) <==> status == Tunnel.LineOk
    ensures '\0' in line <==> status == Tunnel.BadBytes
    ensures status == Tunnel.TooLarge ==> |line| == bufLen - 1
    ensures |line| == bufLen - 1 ==> status in {Tunnel.LineOk, Tunnel.BadBytes, Tunnel.TooLarge}
  {
    var n := |line| - 1;
    if status == Tunnel.LineOk || status == Tunnel.BadBytes {
      assert line == line[..n] + [line[n]];
    }
  }

  /** The page for a request line that could not be read. */
  function FirstPage(status: Tunnel.ReadStatus): Option<Page> {
    match status
    case TooLarge => Some(LineTooLarge)
    case TimedOut => Some(LineTimeout)
    case BadBytes => Some(LineBadBytes)
    case _ => None
  }

  method StripLineEnd(line: string) returns (r: string)
    ensures r == TrimRight(line, LINE_END)
  {
    var n := |line|;
    while n > 0 && (line[n - 1] == '\n' || line[n - 1] == '\r')
      invariant 0 <= n <= |line| && forall i :: n <= i < |line| ==> line[i] in LINE_END
    {
      n := n - 1;
    }
    TrimRightIs(line, LINE_END, n);
    r := line[..n];
  }

  /** What is known about one client at the end. `line`, `headers` and the tunnel bytes of `log` are, in this
      order, everything that was taken from its stream; `read` and `hs` say how reading the first two ended. */
  datatype Account = Account(answer: Answer, read: Tunnel.ReadStatus, line: string, hs: Tunnel.ReadStatus, headers: string,
                             log: seq<Tunnel.Event>, complete: bool, s: System, trace: seq<Step>)

  /** Which answer a request gets, and why. */
  ghost predicate Answered(env: Env, request: string, polls: seq<Tunnel.PollChoice>, cacheOn: bool, s0: System, look: Moment,
                           a: Account, c0: Wire, c: Wire, o0: Wire, o: Wire) {
    if ConnectParser.IsConnect(request) then
      ConnectAnswered(env, request, polls, a.answer, a.hs, a.headers, a.log, c0, c, o0, o)
    else match ParseUrl(request)
      case Err(error) => a.answer == OwnPage(ParseFailed(error))
      case Ok(url) => HttpAnswered(env, url, cacheOn, s0, look, a.answer, a.complete, c0, c, o0, o)
  }

  /** The whole response was relayed, and stored if it may be cached and there was room. */
  ghost predicate Completed(request: string, a: Account, cacheOn: bool, w: nat, store: Moment, allocs: seq<bool>, whole: string) {
    a.answer == Relayed(whole) && whole != "" && !ConnectParser.IsConnect(request) && match ParseUrl(request)
    case Err(_) => false
    case Ok(url) =>
      && Relay(url, whole) in a.s.relays
      && (Plain(url) && cacheOn && Roomy(whole, allocs) ==> StoresLast(a.trace, w, store, whole))
  }

  /** The handler is a worker of the machine: it comes and goes, a hit is a hit of the machine, and it delivers and stores
      only what the origin sent to its end. */
  ghost predicate Worked(request: string, a: Account, w: nat, s0: System, cacheOn: bool, look: Moment, store: Moment,
                         allocs: seq<bool>, c0: Wire, c: Wire, o0: Wire, o: Wire) {
    && Runs(s0, a.trace, a.s) && w !in a.s.workers
    && (a.answer.FromCache? ==>
          exists url :: AsksFor(request, url) && a.s.hits == s0.hits + [Hit(url, a.answer.data, look.now, |s0.relays|, |s0.ops|)])
    && (a.answer.Relayed? && NoZeroWrites(c0.writes) ==> Honest(a.trace, w, o0.stream, c0.written, c.written))
    && if a.complete then o.stream == "" && Completed(request, a, cacheOn, w, store, allocs, o0.stream)
       else Undelivered(a.trace, w)
  }

  lemma Idle(request: string, a: Account, w: nat, s0: System, cacheOn: bool, look: Moment, store: Moment,
             allocs: seq<bool>, c0: Wire, c: Wire, o: Wire)
    requires a.s == s0 && a.trace == [] && !a.complete && (a.answer.OwnPage? || a.answer.NoAnswer?) && w !in s0.workers
    ensures Worked(request, a, w, s0, cacheOn, look, store, allocs, c0, c, o, o)
  {
    hide Runs, Undelivered, Completed, Honest, AsksFor, NoZeroWrites;
    RunsNothing(s0);
    NoneDelivered([], w);
  }

  lemma WorkedEarlier(request: string, a: Account, w: nat, s0: System, cacheOn: bool, look: Moment, store: Moment,
                      allocs: seq<bool>, start: Wire, c0: Wire, c: Wire, o0: Wire, o: Wire)
    requires Worked(request, a, w, s0, cacheOn, look, store, allocs, c0, c, o0, o)
    requires start.written == c0.written && start.writes == c0.writes
    ensures Worked(request, a, w, s0, cacheOn, look, store, allocs, start, c, o0, o)
  {
    hide Runs, Undelivered, Completed, Honest, AsksFor, NoZeroWrites;
  }

  /** What the origin is written: the tunnel bytes of the log, or a prefix of the request for a URL. That is all of the
      request if the answer depends on the response, and nothing unless the origin was asked. */
  ghost predicate RequestSent(request: string, a: Account, o0: Wire, o: Wire) {
    if ConnectParser.IsConnect(request) then o.written == o0.written + Tunnel.SentBytes(a.log, Tunnel.ClientToOrigin)
    else match ParseUrl(request)
      case Err(_) => o.written == o0.written
      case Ok(url) =>
        && o0.written <= o.written <= o0.written + RequestText(url)
        && (!Asked(a.answer) ==> o.written == o0.written)
        && (Asked(a.answer) && a.answer != Relayed("") && NoZeroWrites(o0.writes) ==> o.written == o0.written + RequestText(url))
  }

  /** Both streams are taken in order and nothing of them is lost: after `start` the client gave headers, then tunnel
      bytes; the origin gave what the answer says. A tunnel's answer and its shutdowns are those of the log, and
      without a tunnel there is none. */
  ghost predicate Streams(a: Account, start: string, c0: Wire, c: Wire, o0: Wire, o: Wire) {
    && c.received == start + a.headers + Tunnel.GotBytes(a.log, Tunnel.ClientToOrigin)
    && o.received == o0.received + (if a.answer.Relayed? || a.answer.Tunnelled? then a.answer.got else "")
    && c.received + c.stream == c0.received + c0.stream && o.received + o.stream == o0.received + o0.stream
    && (if a.answer.Tunnelled? then a.answer.got == Tunnel.GotBytes(a.log, Tunnel.OriginToClient) else a.log == [])
    && o.shutdowns == o0.shutdowns + Tunnel.Shuts(a.log, Tunnel.ClientToOrigin)
    && c.shutdowns == c0.shutdowns + Tunnel.Shuts(a.log, Tunnel.OriginToClient)
  }

  /** If no write returned 0, the client is given its answer and a tunnel's bytes are split exactly. */
  ghost predicate Delivered(env: Env, a: Account, bytes: nat, c0: Wire, c: Wire, o0: Wire, o: Wire) {
    NoZeroWrites(c0.writes) && NoZeroWrites(o0.writes) ==>
      && Given(env, a.answer, c0.written, c.written, c0.writes, c.writes)
      && (a.answer.Tunnelled? ==> TunnelSound(a.headers, a.log, bytes, c0, c, o0, o))
  }

  /** The connect() calls made for a request, in order. */
  ghost function AttemptsFor(env: Env, request: string, a: Account): (r: seq<Address>)
    ensures r != [] ==> MayAct(env, request)
  {
    if ConnectParser.IsConnect(request) then ConnectAttempts(env, request, a.hs)
    else match ParseUrl(request)
      case Err(_) => []
      case Ok(url) => if a.answer.FromCache? then [] else Attempts(env, url.host)
  }

  /** One request whose line was read: CONNECT or plain HTTP. */
  method HandleRequest(env: Env, client: Socket, origin: Socket, net: Network, cache: ResponseCache.Cache,
                       request: string, line: string, polls: seq<Tunnel.PollChoice>, look: Moment, store: Moment,
                       allocs: seq<bool>, ops: seq<CacheRuns.Op>, w: nat, ghost s0: System, ghost others: seq<Step>)
    returns (bytes: nat, ghost a: Account)
    requires client != origin && net.Valid() && cache.Valid() && Agrees(cache, s0) && w !in s0.workers
    requires forall url :: AsksFor(request, url) && IsParsed(url) && Plain(url) ==>
                             Meanwhile(AfterLook(s0, w, url, look), w, others, ops)
    modifies client, origin, net, cache, cache.entries
    ensures a.line == line && a.read == Tunnel.LineOk
    // connect safety, and every socket closed again
    ensures net.Valid() && net.open == old(net.open) && net.attempts == old(net.attempts) + AttemptsFor(env, request, a)
    ensures net.attempts != old(net.attempts) ==> MayAct(env, request)
    ensures AsksMalicious(env, request, a.hs) ==> a.answer == OwnPage(Blocked(Decision.Reputation)) && net.attempts == old(net.attempts)
    ensures OnlySafe(env, old(net.attempts), net.attempts)
    // one answer, and the proxy's own only when no origin byte arrived
    ensures Delivered(env, a, bytes, old(WireOf(client)), WireOf(client), old(WireOf(origin)), WireOf(origin))
    ensures Answered(env, request, polls, old(cache.entries) != null, s0, look, a,
                     old(WireOf(client)), WireOf(client), old(WireOf(origin)), WireOf(origin))
    // what was read from and written to both sides
    ensures Streams(a, old(client.received), old(WireOf(client)), WireOf(client), old(WireOf(origin)), WireOf(origin))
    ensures RequestSent(request, a, old(WireOf(origin)), WireOf(origin))
    // a worker of the machine, delivering and storing only what the origin sent to its end
    ensures cache.Valid() && Agrees(cache, a.s)
    ensures Worked(request, a, w, s0, old(cache.entries) != null, look, store, allocs,
                   old(WireOf(client)), WireOf(client), old(WireOf(origin)), WireOf(origin))
  {
    hide CacheRuns.StateOf, CacheRuns.Run, Meanwhile, Runs, NoZeroWrites, MayReach, IsParsed, Given, Agrees, AfterLook;
    hide ParseUrl, ConnectParser.ParseConnect, ConnectParser.IsConnect, Honest, Can, Do, StoresLast, Roomy, Undelivered;
    hide Tunnel.GotBytes, Tunnel.SentBytes, Tunnel.Shuts, Plain, Permitted, HttpAnswered, ConnectAnswered, RequestText;
    hide TunnelSound, Attempts, ConnectAttempts, OnlySafe, KnownMalicious, MaliciousTarget;
    bytes := 0;
    a := Account(NoAnswer, Tunnel.LineOk, line, Tunnel.LineOk, "", [], false, s0, []);
    RunsNothing(s0);
    NoEvents();
    NoneDelivered([], w);
    if ConnectParser.IsConnect(request) {
      ghost var answer, hs, headers, log;
      bytes, answer, hs, headers, log := HandleConnect(env, client, origin, net, request, polls);
      a := a.(answer := answer, hs := hs, headers := headers, log := log);
      return;
    }
    var parsed := UrlScanner.ParseHttpUrl(request);
    if parsed.Err? {
      a := a.(answer := OwnPage(ParseFailed(parsed.error)));
      SendPage(client, env, ParseFailed(parsed.error));
      return;
    }
    AskedIsParsed(request, parsed.value);
    assert AsksFor(request, parsed.value);
    ghost var answer, complete, s, trace;
    bytes, answer, complete, s, trace := HandleHttp(env, client, origin, net, cache, parsed.value, look, store, allocs,
                                                    ops, w, s0, others);
    a := a.(answer := answer, complete := complete, s := s, trace := trace);
  }

  /** How reading the request line ended shows in its bytes: completely, at a NUL, too long, or otherwise. If it was
      not read, it decides the answer. */
  ghost predicate LineAnswered(a: Account, rest: string, before: seq<RecvChoice>, after: seq<RecvChoice>) {
    && (a.read == Tunnel.LineOk <==> Tunnel.LineRead(Tunnel.LineOk, a.line, "", Tunnel.LINE_BUF))
    && (a.read == Tunnel.BadBytes <==> '\0' in a.line)
    && (a.read == Tunnel.TooLarge ==> |a.line| == 2050)
    && (|a.line| == 2050 ==> a.read in {Tunnel.LineOk, Tunnel.BadBytes, Tunnel.TooLarge})
    && (a.read != Tunnel.LineOk ==>
          && Tunnel.LineRead(a.read, a.line, rest, Tunnel.LINE_BUF) && Tunnel.Justified(a.read, before, after)
          && (match a.read
              case TooLarge => a.answer == OwnPage(LineTooLarge)
              case TimedOut => a.answer == OwnPage(LineTimeout)
              case BadBytes => a.answer == OwnPage(LineBadBytes)
              case _ => a.answer == NoAnswer))
  }

  lemma LineSettled(a: Account, rest: string, before: seq<RecvChoice>, after: seq<RecvChoice>,
                    rest': string, after': seq<RecvChoice>)
    requires Tunnel.LineRead(a.read, a.line, rest, Tunnel.LINE_BUF) && Tunnel.Justified(a.read, before, after)
    requires a.read != Tunnel.LineOk ==>
               && a.answer == (match FirstPage(a.read) case Some(page) => OwnPage(page) case None => NoAnswer)
               && rest' == rest && after' == after
    ensures LineAnswered(a, rest', before, after')
  {
    hide Tunnel.LineRead, Tunnel.Justified;
    LineExclusive(a.read, a.line, rest, Tunnel.LINE_BUF);
  }

  /** What was excused by the rest of a script was excused by all of it. */
  lemma AnsweredEarlier(env: Env, request: string, polls: seq<Tunnel.PollChoice>, cacheOn: bool, s0: System, look: Moment,
                        a: Account, start: Wire, c0: Wire, c: Wire, o0: Wire, o: Wire)
    requires Answered(env, request, polls, cacheOn, s0, look, a, c0, c, o0, o)
    requires start.writes == c0.writes && forall x :: x in c0.recvs ==> x in start.recvs
    ensures Answered(env, request, polls, cacheOn, s0, look, a, start, c, o0, o)
  {
    hide ParseUrl, ConnectParser.ParseConnect, TargetPage, DestinationPage, Tunnel.HeadersRead, TunnelEnded, Cached, Permitted;
    if TunnelEnded(env, a.log, polls, c0, c, o0, o) { EndedEarlier(env, a.log, polls, start, c0, c, o0, o); }
  }

  /** Without a request nothing is read beyond its line. */
  lemma NothingServed(env: Env, a: Account, c0: Wire, c: Wire, o: Wire)
    requires a.headers == "" && a.log == [] && !a.answer.Relayed? && !a.answer.Tunnelled? && c.shutdowns == c0.shutdowns
    requires c.received == c0.received + a.line && c.received + c.stream == c0.received + c0.stream
    requires NoZeroWrites(c0.writes) ==> Given(env, a.answer, c0.written, c.written, c0.writes, c.writes)
    ensures Streams(a, c0.received + a.line, c0, c, o, o) && Delivered(env, a, 0, c0, c, o, o)
  {
    hide Given, NoZeroWrites;
    NoEvents();
  }

  /** What was served after the request line was served to the whole connection. */
  lemma ServedEarlier(env: Env, a: Account, bytes: nat, start: Wire, c0: Wire, c: Wire, o0: Wire, o: Wire)
    requires Streams(a, c0.received, c0, c, o0, o) && Delivered(env, a, bytes, c0, c, o0, o)
    requires c0.received + c0.stream == start.received + start.stream && c0.shutdowns == start.shutdowns
    requires c0.written == start.written && c0.writes == start.writes
    ensures Streams(a, c0.received, start, c, o0, o) && Delivered(env, a, bytes, start, c, o0, o)
  {
    hide Given, NoZeroWrites, Partition, Tunnel.GotBytes, Tunnel.SentBytes, Tunnel.Shuts, Tunnel.Lawful, Tunnel.FullyForwarded;
  }

  /** A whole client connection. */
  method HandleClient(env: Env, client: Socket, origin: Socket, net: Network, cache: ResponseCache.Cache,
                      polls: seq<Tunnel.PollChoice>, look: Moment, store: Moment, allocs: seq<bool>,
                      ops: seq<CacheRuns.Op>, w: nat, ghost s0: System, ghost others: seq<Step>)
    returns (bytes: nat, ghost a: Account)
    requires client != origin && net.Valid() && cache.Valid() && Agrees(cache, s0) && w !in s0.workers
    requires forall url :: AsksFor(RequestIn(client.stream), url) && IsParsed(url) && Plain(url) ==>
                             Meanwhile(AfterLook(s0, w, url, look), w, others, ops)
    modifies client, origin, net, cache, cache.entries
    // connect safety, and every socket closed again
    ensures net.Valid() && net.open == old(net.open)
    ensures net.attempts == old(net.attempts) +
              if a.read == Tunnel.LineOk then AttemptsFor(env, RequestIn(old(client.stream)), a) else []
    ensures net.attempts != old(net.attempts) ==> MayAct(env, RequestIn(old(client.stream)))
    ensures a.read == Tunnel.LineOk && AsksMalicious(env, RequestIn(old(client.stream)), a.hs) ==>
              a.answer == OwnPage(Blocked(Decision.Reputation)) && net.attempts == old(net.attempts)
    ensures OnlySafe(env, old(net.attempts), net.attempts)
    // one answer, and the proxy's own only when no origin byte arrived
    ensures Delivered(env, a, bytes, old(WireOf(client)), WireOf(client), old(WireOf(origin)), WireOf(origin))
    ensures LineAnswered(a, client.stream, old(client.recvs), client.recvs)
    ensures a.read == Tunnel.LineOk ==>
              Answered(env, RequestIn(old(client.stream)), polls, old(cache.entries) != null, s0, look, a,
                       old(WireOf(client)), WireOf(client), old(WireOf(origin)), WireOf(origin))
    // what was read from and written to both sides
    ensures Streams(a, old(client.received) + a.line, old(WireOf(client)), WireOf(client), old(WireOf(origin)), WireOf(origin))
    ensures if a.read == Tunnel.LineOk then RequestSent(RequestIn(old(client.stream)), a, old(WireOf(origin)), WireOf(origin))
            else origin.written == old(origin.written)
    // a worker of the machine, delivering and storing only what the origin sent to its end
    ensures cache.Valid() && Agrees(cache, a.s)
    ensures Worked(RequestIn(old(client.stream)), a, w, s0, old(cache.entries) != null, look, store, allocs,
                   old(WireOf(client)), WireOf(client), old(WireOf(origin)), WireOf(origin))
  {
    hide CacheRuns.StateOf, CacheRuns.Run, Meanwhile, Runs, NoZeroWrites, MayAct, IsParsed, Given, Agrees, AfterLook, AsksFor;
    hide ParseUrl, ConnectParser.IsConnect, TrimRight, Find, RequestIn, Honest, Tunnel.LineRead, Tunnel.Justified;
    hide Tunnel.GotBytes, Tunnel.Shuts, Tunnel.Plain, Plain, Answered, Completed, RequestSent, Undelivered, LineAnswered;
    hide AttemptsFor, Streams, Delivered, Worked, OnlySafe, AsksMalicious;
    bytes := 0;
    var status, line := Tunnel.ReadRequestLine(client, Tunnel.LINE_BUF);
    a := Account(NoAnswer, status, line, Tunnel.LineOk, "", [], false, s0, []);
    ghost var start := old(WireOf(client));
    ghost var rest, script := client.stream, client.recvs;
    var page := FirstPage(status);
    if page.Some? {
      a := a.(answer := OwnPage(page.value));
      SendPage(client, env, page.value);
      NothingServed(env, a, start, WireOf(client), WireOf(origin));
      Idle(RequestIn(start.stream), a, w, s0, old(cache.entries) != null, look, store, allocs, start, WireOf(client), WireOf(origin));
      LineSettled(a, rest, old(client.recvs), script, client.stream, client.recvs);
      return;
    }
    if status != Tunnel.LineOk {
      Nothing(env, client.written, client.writes);
      NothingServed(env, a, start, WireOf(client), WireOf(origin));
      Idle(RequestIn(start.stream), a, w, s0, old(cache.entries) != null, look, store, allocs, start, WireOf(client), WireOf(origin));
      LineSettled(a, rest, old(client.recvs), script, client.stream, client.recvs);
      return;
    }
    LineIsRequest(line, client.stream, Tunnel.LINE_BUF);
    var request := StripLineEnd(line);
    ghost var before := WireOf(client);
    bytes, a := HandleRequest(env, client, origin, net, cache, request, line, polls, look, store, allocs, ops,
                              w, s0, others);
    ServedEarlier(env, a, bytes, start, before, WireOf(client), old(WireOf(origin)), WireOf(origin));
    WorkedEarlier(request, a, w, s0, old(cache.entries) != null, look, store, allocs,
                  start, before, WireOf(client), old(WireOf(origin)), WireOf(origin));
    AnsweredEarlier(env, request, polls, old(cache.entries) != null, s0, look, a,
                    old(WireOf(client)), before, WireOf(client), old(WireOf(origin)), WireOf(origin));
    LineSettled(a, rest, old(client.recvs), script, client.stream, client.recvs);
  }

  /** Whatever a client of a proxy with any history is served from memory has the provenance of ProxyRuns. */
  lemma ServedFromMemory(steps: seq<Step>, s0: System, trace: seq<Step>, s: System, h: Hit)
    requires Runs(START, steps, s0) && Runs(s0, trace, s) && h in s.hits
    ensures Proven(h, s)
  {
    hide Runs, Proven;
    RunsConcat(START, steps, s0, trace, s);
    HitProvenance(steps + trace, s, h);
  }

  /** A host is connected to only as the policy files are written. */
  lemma ReachedAsWritten(env: Env, host: string, allow: Option<string>, block: Option<string>)
    requires env.policy == PolicyFile.PolicyOf(allow, block) && MayReach(env, host)
    requires PolicyEnforced.SameToRules(Policy.Normal(host), Policy.FullNormal(host))
    ensures !PolicyEnforced.SomeLineCovers(PolicyFile.LinesOf(block), Policy.FullNormal(host))
    ensures var ls := PolicyFile.LinesOf(allow);
            (exists i :: 0 <= i < |ls| && PolicyFile.Kind(ls[i]) != PolicyFile.Blank) ==>
              PolicyEnforced.SomeLineCovers(ls, Policy.FullNormal(host))
  {
    hide Policy.Decide, PolicyEnforced.SameToRules, Policy.Normal, PolicyFile.PolicyOf, PolicyFile.LinesOf, PolicyFile.Kind, Policy.FullNormal, PolicyEnforced.SomeLineCovers;
    PolicyEnforced.EnforcedAsWritten(allow, block, host);
  }

  /** The cut at 254 characters shows on an input that arrives: a rule that a file can hold denies a host that a
      URL can name, though no line of the file covers it. */
  lemma TruncatedHostArrives() returns (r: Policy.Rule, url: Url)
    ensures PolicyFile.WellFormed(r) && ParseUrl("http://" + url.host) == Ok(url)
    ensures var file := Some(PolicyFile.Print(r));
            && Policy.Decide(PolicyFile.PolicyOf(None, file), url.host) == Policy.DenyBlocklist
            && !PolicyEnforced.SomeLineCovers(PolicyFile.LinesOf(file), Policy.FullNormal(url.host))
  {
    hide ParseUrl, Policy.Covers, Policy.Labels, PolicyFile.RuleOf, PolicyFile.Lines, TrimRight, Policy.FullNormal, Policy.Normal;
    hide Policy.RuleMatches;
    var host;
    r, host := Policy.TruncationMatchesOtherHost();
    url := Url(host, 80, "/");
    LongHostParses(host, url);
    LettersAreRule(r);
    PolicyFile.RuleRoundTrip(r);
    var line := PolicyFile.Print(r);
    PolicyEnforced.OneRuleFile(r);
    var p := PolicyFile.PolicyOf(None, Some(line));
    assert Policy.RuleMatches(p.block[0], Policy.Normal(host));
  }

  /** So does the exception of subdomain rules: the host of any rule that a file can hold, behind a bare dot, can be named
      by a URL and is let through by that file, though its labels end in the rule's. */
  lemma BareDotArrives(r: Policy.Rule)
    requires PolicyFile.WellFormed(r) && r.subdomains
    ensures var host := "." + r.host;
            && ParseUrl("http://" + host) == Ok(Url(host, 80, "/"))
            && Policy.Decide(PolicyFile.PolicyOf(None, Some(PolicyFile.Print(r))), host) == Policy.Allow
            && Policy.IsSuffix(Policy.Labels(r.host), Policy.Labels(Policy.FullNormal(host)))
  {
    hide ParseUrl, Policy.Labels, PolicyFile.RuleOf, PolicyFile.Lines, Policy.Normal, Policy.FullNormal;
    var host := "." + r.host;
    BareDotParses(r.host);
    PolicyFile.NoEmptyLabel(r.host);
    BareDotIsNormal(r.host);
    PolicyEnforced.DottedLabels(r.host);
    assert ([""] + Policy.Labels(r.host))[1..] == Policy.Labels(r.host);
    PolicyEnforced.OneRuleFile(r);
    assert !Policy.RuleMatches(r, host);
  }

  /** For example the rule `.a` and the URL `http://.a`. */
  lemma BareDotShows() returns (r: Policy.Rule, url: Url)
    ensures PolicyFile.WellFormed(r) && r.subdomains && ParseUrl("http://.a") == Ok(url)
    ensures Policy.Decide(PolicyFile.PolicyOf(None, Some(PolicyFile.Print(r))), url.host) == Policy.Allow
    ensures Policy.IsSuffix(Policy.Labels(r.host), Policy.Labels(Policy.FullNormal(url.host)))
  {
    hide ParseUrl, Policy.Labels, Policy.Decide, PolicyFile.PolicyOf, Policy.FullNormal;
    r, url := Policy.Rule("a", true), Url(".a", 80, "/");
    PolicyFile.NoEmptyLabel("a");
    assert LowerAll("a") == "a" && "." + "a" == ".a" && "http://" + ".a" == "http://.a";
    BareDotArrives(r);
  }

  lemma BareDotParses(h: string)
    requires |h| <= Policy.HOST_MAX && (forall i :: 0 <= i < |h| ==> IsNameChar(h[i])) && LowerAll(h) == h
    ensures ParseUrl("http://" + ("." + h)) == Ok(Url("." + h, 80, "/"))
  {
    hide ParseUrl;
    var host := "." + h;
    var raw := "http://" + host;
    assert LowerAll(host) == host && LowerAll(SCHEME) == SCHEME;
    assert raw == SCHEME + host + "" + "";
    SpelledIsParsed(raw, Url(host, 80, "/"), Parts(SCHEME, host, "", ""));
  }

  lemma BareDotIsNormal(h: string)
    requires |h| <= Policy.HOST_MAX && (forall i :: 0 <= i < |h| ==> IsNameChar(h[i])) && LowerAll(h) == h
    requires PolicyFile.DotsInside(h)
    ensures Policy.Normal("." + h) == "." + h && Policy.FullNormal("." + h) == "." + h
  {
    hide TrimRight, Find;
    var host := "." + h;
    FindIs(host, ':', |host|);
    assert Policy.HostPart(host) == host && LowerAll(host) == host;
    TrimRightIs(host, Policy.DOT, |host|);
    assert host[..|host|] == host;
  }

  lemma LongHostParses(host: string, url: Url)
    requires host == Repeat('a', 253) + ".x" && url == Url(host, 80, "/")
    ensures ParseUrl("http://" + host) == Ok(url)
  {
    hide ParseUrl;
    var raw := "http://" + host;
    assert LowerAll(host) == host && LowerAll(SCHEME) == SCHEME;
    assert raw == SCHEME + host + "" + "";
    SpelledIsParsed(raw, url, Parts(SCHEME, host, "", ""));
  }

  lemma LettersAreRule(r: Policy.Rule)
    requires r == Policy.Rule(Repeat('a', 253), false)
    ensures PolicyFile.WellFormed(r)
  {
    hide Policy.Labels;
    PolicyFile.NoEmptyLabel(r.host);
    assert LowerAll(r.host) == r.host;
  }
}
