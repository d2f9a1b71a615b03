/** src/proxy.c: answers and pages, the destination check, and CONNECT requests. */
module Proxy {
  import opened Text
  import opened Sockets
  import opened RequestParser
  import opened ConnectParser
  import opened Fetch
  import opened Decision
  import ReputationCache
  import Policy
  import Tunnel

  const CAPTURE_LIMIT := 262144
  const LINE_END: set<char> := {'\n', '\r'}
  const ESTABLISHED := "HTTP/1.1 200 Connection Established\r\n\r\n"

  /** The pages the proxy itself writes. */
  datatype Page =
    | LineTooLarge | LineTimeout | LineBadBytes | ParseFailed(error: ParseError)
    | HeadersTimeout | HeadersTooLarge | Blocked(reason: Reason)
    | GatewayFailed(status: Status) | GatewayTimeout | NoResponse

  /** Configuration and surroundings: the policy, the answers of resolver and reputation service, the address
      tables and the texts of the pages. */
  datatype Env = Env(policy: Policy.Policy, reputationOn: bool, allowPrivate: bool, connectPort: nat, idleSeconds: nat,
                     local: string -> bool, numeric: string -> bool, verdict: string -> ReputationCache.Verdict,
                     resolve: string -> Option<seq<Attempt>>, unsafe: Address -> bool,
                     text: Page -> string)

  /** What the client was answered with: nothing, one page of the proxy's own, a cached response, an origin's
      bytes, or an established tunnel with an origin's bytes. */
  datatype Answer = NoAnswer | OwnPage(page: Page) | FromCache(data: string) | Relayed(got: string) | Tunnelled(got: string)

  ghost function WholeAnswer(env: Env, a: Answer): string {
    match a
    case NoAnswer => ""
    case OwnPage(page) => env.text(page)
    case FromCache(data) => data
    case Relayed(got) => got
    case Tunnelled(got) => "HTTP/1.1 200 Connection Established\r\n\r\n" + got
  }

  // ---------- may we talk to this destination? ----------

  /** The reputation service is asked about this host. */
  predicate IsAsked(env: Env, host: string) { env.reputationOn && !env.local(host) && !env.numeric(host) }

  ghost predicate Permitted(env: Env, host: string) {
    && Policy.Decide(env.policy, host) == Policy.Allow
    && (IsAsked(env, host) ==> env.verdict(host) != ReputationCache.Malicious)
  }

  /** The policy allows this host, but the reputation service, which is asked about real host names only, calls it
      malicious. */
  ghost predicate KnownMalicious(env: Env, host: string) {
    && Policy.Decide(env.policy, host) == Policy.Allow
    && env.reputationOn && !env.local(host) && !env.numeric(host) && env.verdict(host) == ReputationCache.Malicious
  }

  method CheckDestination(env: Env, host: string) returns (d: Decision, sig: Signals)
    ensures d.block <==> !Permitted(env, host)
    ensures d.block <==> Policy.Decide(env.policy, host) != Policy.Allow || KnownMalicious(env, host)
    ensures KnownMalicious(env, host) ==> d.block && d.reason == Reputation
    ensures d.block ==> d.reason == if Policy.Decide(env.policy, host) != Policy.Allow then Policy else Reputation
    ensures Combines(sig, d) && !sig.port && !sig.network && (!d.block ==> !sig.policy)
    ensures sig.checked <==> && Policy.Decide(env.policy, host) == Policy.Allow
                             && env.reputationOn && !env.local(host) && !env.numeric(host)
    ensures sig.checked ==> sig.verdict == env.verdict(host)
  {
    hide Policy.Decide;
    sig := NO_SIGNALS;
    var p := Policy.CheckHost(env.policy, host);
    if p != Policy.Allow {
      sig := sig.(policy := true);
      d := Evaluate(sig);
      assert Contribution(sig, d.reason) == RULE_SCORE;
      return;
    }
    if IsAsked(env, host) {
      sig := sig.(checked := true, verdict := env.verdict(host));
    }
    d := Evaluate(sig);
    assert d.block ==> Contribution(sig, d.reason) >= THRESHOLD;
  }

  function DestinationOf(env: Env, host: string): Destination { Destination(env.local(host), env.resolve(host)) }

  /** connect() may be called for this host. */
  ghost predicate MayReach(env: Env, host: string) {
    Permitted(env, host) && MayConnect(DestinationOf(env, host), env.unsafe, env.allowPrivate)
  }

  /** Exactly when: the policy allows the host, it is not known to be malicious, it resolves, and unless private addresses
      are allowed it is no local name and all its addresses are safe. */
  lemma MayReachExactly(env: Env, host: string)
    ensures MayReach(env, host) <==>
            && Policy.Decide(env.policy, host) == Policy.Allow && !KnownMalicious(env, host)
            && env.resolve(host).Some? && env.resolve(host).value != []
            && (|| env.allowPrivate
                || (!env.local(host) && forall a :: a in env.resolve(host).value ==> !env.unsafe(a.address)))
  {
    hide Policy.Decide;
  }

  /** The connect() calls made for a host, in order. */
  ghost function Attempts(env: Env, host: string): (r: seq<Address>)
    ensures r != [] ==> MayReach(env, host)
    ensures !Permitted(env, host) ==> r == []
  {
    if MayReach(env, host) then Tried(DestinationOf(env, host).answer.value) else []
  }

  /** Unless private addresses are allowed, connect() was called for safe ones only. */
  ghost predicate OnlySafe(env: Env, before: seq<Address>, after: seq<Address>): (r: bool)
    ensures before == after ==> r
  {
    !env.allowPrivate ==> forall i :: |before| <= i < |after| ==> !env.unsafe(after[i])
  }

  /** Between `before` and `after` the client was written a prefix of this answer and nothing else. */
  ghost predicate OneAnswer(env: Env, a: Answer, before: string, after: string) {
    before <= after && after[|before|..] <= WholeAnswer(env, a)
  }

  lemma Wrote(env: Env, a: Answer, before: string, out: string)
    requires out <= WholeAnswer(env, a)
    ensures OneAnswer(env, a, before, before + out)
  {
    assert (before + out)[|before|..] == out;
  }

  /** The client was written the whole answer, unless a write to it failed. */
  ghost predicate AllWritten(env: Env, a: Answer, before: string, after: string, w0: seq<WriteChoice>, w: seq<WriteChoice>) {
    after == before + WholeAnswer(env, a) || WriteExcused(w0, w)
  }

  /** The client was given this answer and nothing else: an error page by one write, whatever the kernel makes of it;
      anything else in full, unless a write failed. */
  ghost predicate Given(env: Env, a: Answer, before: string, after: string, w0: seq<WriteChoice>, w: seq<WriteChoice>) {
    && OneAnswer(env, a, before, after)
    && if a.OwnPage? && !a.page.Blocked? && env.text(a.page) != "" then OneWrite(env.text(a.page), before, after, w0, w)
       else AllWritten(env, a, before, after, w0, w)
  }

  /** Sends one of the proxy's own pages: a block page in full, any other by a single write. */
  method SendPage(client: Socket, env: Env, page: Page)
    modifies client`written, client`writes
    ensures NoZeroWrites(old(client.writes)) ==>
              Given(env, OwnPage(page), old(client.written), client.written, old(client.writes), client.writes)
  {
    var text := env.text(page);
    if page.Blocked? {
      var rc, k := SendAll(client, text);
      Wrote(env, OwnPage(page), old(client.written), text[..k]);
      assert k == |text| ==> text[..k] == text;
    } else if text != "" {
      var rc, e := client.Write(text);
      Wrote(env, OwnPage(page), old(client.written), if rc == -1 then "" else text[..rc]);
    } else {
      Wrote(env, OwnPage(page), old(client.written), "");
    }
  }

  // ---------- CONNECT ----------

  /** What a CONNECT request may have done: client bytes split into headers and tunnel bytes, of which the
      origin was written a prefix. */
  ghost predicate Partition(headers: string, body: string, passed: string, log: seq<Tunnel.Event>,
                            before: seq<WriteChoice>, after: seq<WriteChoice>) {
    && Tunnel.HeadersRead(Tunnel.LineOk, headers, "")
    && body == Tunnel.GotBytes(log, Tunnel.ClientToOrigin) && passed == Tunnel.SentBytes(log, Tunnel.ClientToOrigin)
    && passed <= body
    && (passed != body ==> Tunnel.BrokenOn(log, Tunnel.ClientToOrigin) && WriteExcused(before, after))
  }

  /** What both sockets gave and took is what the log says: after `taken`, the client gave the bytes read from it and the
      origin was written those passed on; the origin gave the bytes read from it; nothing of either stream is lost; and
      a side was shut once for each end of the other. */
  ghost predicate Moved(taken: string, log: seq<Tunnel.Event>, c0: Wire, c: Wire, o0: Wire, o: Wire) {
    && c.received == c0.received + taken + Tunnel.GotBytes(log, Tunnel.ClientToOrigin)
    && o.written == o0.written + Tunnel.SentBytes(log, Tunnel.ClientToOrigin)
    && o.received == o0.received + Tunnel.GotBytes(log, Tunnel.OriginToClient)
    && c.received + c.stream == c0.received + c0.stream && o.received + o.stream == o0.received + o0.stream
    && o.shutdowns == o0.shutdowns + Tunnel.Shuts(log, Tunnel.ClientToOrigin)
    && c.shutdowns == c0.shutdowns + Tunnel.Shuts(log, Tunnel.OriginToClient)
  }

  /** The client was written the confirmation and then the log's bytes for it, or only a part of the confirmation,
      because that write failed. */
  ghost predicate Told(log: seq<Tunnel.Event>, c0: Wire, c: Wire) {
    || c.written == c0.written + ESTABLISHED + Tunnel.SentBytes(log, Tunnel.OriginToClient)
    || (log == [] && c0.written <= c.written < c0.written + ESTABLISHED && WriteExcused(c0.writes, c.writes))
  }

  /** Why a tunnel ended: the client could not be told that it was established, a write failed on either side, both
      directions were shut, or the tunnel went quiet. Until then every readable direction was read once a round, and each
      poll waited for the idle time, or at most 5 seconds after a half-close. */
  ghost predicate TunnelEnded(env: Env, log: seq<Tunnel.Event>, polls: seq<Tunnel.PollChoice>, c0: Wire, c: Wire, o0: Wire, o: Wire) {
    && Tunnel.Polls(log) <= polls && Tunnel.WaitsFor(log, env.idleSeconds)
    && Tunnel.Accounted(log, Tunnel.ClientToOrigin, c.stream, c.recvs, c0.recvs)
    && Tunnel.Accounted(log, Tunnel.OriginToClient, o.stream, o.recvs, o0.recvs)
    && (|| (log == [] && WriteExcused(c0.writes, c.writes))
        || (Tunnel.BrokenOn(log, Tunnel.ClientToOrigin) && WriteExcused(o0.writes, o.writes))
        || (Tunnel.BrokenOn(log, Tunnel.OriginToClient) && WriteExcused(c0.writes, c.writes))
        || (Tunnel.Attended(log) && Tunnel.WentQuiet(polls, |Tunnel.Polls(log)|))
        || (Tunnel.Attended(log) && forall side :: Tunnel.Shuts(log, side) == 1))
  }

  /** Establishes the tunnel and relays; `fd` is closed on every way out. */
  method OpenTunnel(env: Env, client: Socket, origin: Socket, net: Network, fd: nat, polls: seq<Tunnel.PollChoice>)
    returns (total: nat, ghost answer: Answer, ghost log: seq<Tunnel.Event>)
    requires client != origin && net.Valid()
    modifies client, origin, net`open
    ensures net.Valid() && net.open == old(net.open) - {fd}
    ensures answer == Tunnelled(Tunnel.GotBytes(log, Tunnel.OriginToClient))
    ensures Moved("", log, old(WireOf(client)), WireOf(client), old(WireOf(origin)), WireOf(origin))
    ensures NoZeroWrites(old(client.writes)) && NoZeroWrites(old(origin.writes)) ==>
              && Given(env, answer, old(client.written), client.written, old(client.writes), client.writes)
              && Told(log, old(WireOf(client)), WireOf(client))
              && Tunnel.Lawful(log) && (Tunnel.InPhase(log) || Tunnel.Broken(log)) && total == Tunnel.FullyForwarded(log)
              && (Tunnel.BrokenOn(log, Tunnel.ClientToOrigin) ==> WriteExcused(old(origin.writes), origin.writes))
    ensures TunnelEnded(env, log, polls, old(WireOf(client)), WireOf(client), old(WireOf(origin)), WireOf(origin))
  {
    hide Tunnel.GotBytes, Tunnel.SentBytes, Tunnel.Shuts, Tunnel.Retries, Tunnel.Lawful, Tunnel.FullyForwarded, Tunnel.Polls;
    hide NoZeroWrites, Tunnel.Tracks, Tunnel.Intact, Tunnel.Accounted, Tunnel.Attended, Tunnel.WentQuiet;
    log, total := [], 0;
    NoEvents();
    var rc, k := SendAll(client, ESTABLISHED);
    ghost var written := client.written;
    if rc < 0 {
      net.CloseSocket(fd);
      answer := Tunnelled("");
      Wrote(env, answer, old(client.written), ESTABLISHED[..k]);
      NothingLogged(WireOf(client), old(WireOf(client)), WireOf(origin));
      return;
    }
    ghost var end;
    total, end, log := Tunnel.RelayTunnel(client, origin, polls, env.idleSeconds);
    net.CloseSocket(fd);
    ghost var got, sent := Tunnel.GotBytes(log, Tunnel.OriginToClient), Tunnel.SentBytes(log, Tunnel.OriginToClient);
    answer := Tunnelled(got);
    TiedMeans(client, origin, log, old(client.received), written, old(origin.received), old(origin.written),
              old(client.received + client.stream), old(origin.received + origin.stream));
    if NoZeroWrites(old(client.writes)) && NoZeroWrites(old(origin.writes)) {
      Tunnel.SentIsPrefix(log, Tunnel.OriginToClient);
      assert written == old(client.written) + ESTABLISHED;
      assert client.written == old(client.written) + (ESTABLISHED + sent);
      Wrote(env, answer, old(client.written), ESTABLISHED + sent);
    }
  }

  lemma TiedMeans(client: Socket, origin: Socket, log: seq<Tunnel.Event>, cRecv: string, cWritten: string,
                  oRecv: string, oWritten: string, all: string, oAll: string)
    requires Tunnel.Tracks(log, Tunnel.ClientToOrigin, client.received, origin.written, cRecv, oWritten)
    requires Tunnel.Tracks(log, Tunnel.OriginToClient, origin.received, client.written, oRecv, cWritten)
    requires Tunnel.Intact(client.received, client.stream, all) && Tunnel.Intact(origin.received, origin.stream, oAll)
    ensures client.received == cRecv + Tunnel.GotBytes(log, Tunnel.ClientToOrigin)
    ensures origin.written == oWritten + Tunnel.SentBytes(log, Tunnel.ClientToOrigin)
    ensures origin.received == oRecv + Tunnel.GotBytes(log, Tunnel.OriginToClient)
    ensures client.written == cWritten + Tunnel.SentBytes(log, Tunnel.OriginToClient)
    ensures client.received + client.stream == all && origin.received + origin.stream == oAll
  {
  }

  lemma NoEvents()
    ensures forall side :: Tunnel.GotBytes([], side) == "" && Tunnel.SentBytes([], side) == "" && Tunnel.Shuts([], side) == 0
    ensures Tunnel.Lawful([]) && Tunnel.FullyForwarded([]) == 0
  {
  }

  lemma NothingLogged(c: Wire, c0: Wire, o: Wire)
    requires c.recvs == c0.recvs
    ensures Tunnel.Polls([]) == [] && Tunnel.Accounted([], Tunnel.ClientToOrigin, c.stream, c.recvs, c0.recvs)
    ensures Tunnel.Accounted([], Tunnel.OriginToClient, o.stream, o.recvs, o.recvs)
  {
  }

  /** The page for a destination that is refused or cannot be reached; None if a connection is made. */
  ghost function DestinationPage(env: Env, host: string): Option<Page> {
    if Policy.Decide(env.policy, host) != Policy.Allow then Some(Blocked(Policy))
    else if !Permitted(env, host) then Some(Blocked(Reputation))
    else match ConnectOutcome(DestinationOf(env, host), env.unsafe, env.allowPrivate)
      case FetchOk => None
      case ErrUnsafe => Some(Blocked(Network))
      case status => Some(GatewayFailed(status))
  }

  ghost function TargetPage(env: Env, target: Target): Option<Page> {
    if target.port != env.connectPort then Some(Blocked(Port)) else DestinationPage(env, target.host)
  }

  /** Adding the network signal blocks with that reason. */
  method NetworkBlock(sig: Signals) returns (r: Reason)
    requires !sig.port && !sig.policy
    ensures r == Network
  {
    var all := sig.(network := true);
    var d := Evaluate(all);
    assert Contribution(all, Network) == RULE_SCORE;
    assert Contribution(all, d.reason) == d.score >= RULE_SCORE;
    r := d.reason;
  }

  /** A CONNECT request whose headers are complete: port, destination, connection, tunnel. */
  method Reach(env: Env, client: Socket, origin: Socket, net: Network, target: Target, polls: seq<Tunnel.PollChoice>)
    returns (total: nat, ghost answer: Answer, ghost log: seq<Tunnel.Event>)
    requires client != origin && net.Valid()
    modifies client, origin, net
    ensures net.Valid() && net.open == old(net.open)
    ensures net.attempts == old(net.attempts) + if target.port == env.connectPort then Attempts(env, target.host) else []
    ensures answer.Tunnelled? ==> target.port == env.connectPort && MayReach(env, target.host)
    ensures target.port == env.connectPort && KnownMalicious(env, target.host) ==>
              answer == OwnPage(Blocked(Reputation)) && net.attempts == old(net.attempts)
    ensures OnlySafe(env, old(net.attempts), net.attempts)
    ensures Moved("", log, old(WireOf(client)), WireOf(client), old(WireOf(origin)), WireOf(origin))
    ensures NoZeroWrites(old(client.writes)) && NoZeroWrites(old(origin.writes)) ==>
              && Given(env, answer, old(client.written), client.written, old(client.writes), client.writes)
              && Tunnel.Lawful(log) && (Tunnel.InPhase(log) || Tunnel.Broken(log)) && total == Tunnel.FullyForwarded(log)
              && (Tunnel.BrokenOn(log, Tunnel.ClientToOrigin) ==> WriteExcused(old(origin.writes), origin.writes))
    ensures if answer.Tunnelled? then answer.got == Tunnel.GotBytes(log, Tunnel.OriginToClient)
            else log == [] && total == 0 && answer.OwnPage? && origin.received == old(origin.received)
    ensures answer.Tunnelled? && NoZeroWrites(old(client.writes)) && NoZeroWrites(old(origin.writes)) ==>
              Told(log, old(WireOf(client)), WireOf(client))
    ensures match TargetPage(env, target) case Some(page) => answer == OwnPage(page) case None => answer.Tunnelled?
    ensures answer.Tunnelled? ==>
              TunnelEnded(env, log, polls, old(WireOf(client)), WireOf(client), old(WireOf(origin)), WireOf(origin))
  {
    hide Tunnel.GotBytes, Tunnel.SentBytes, Tunnel.Shuts, Tunnel.Lawful, Tunnel.FullyForwarded, Combines, TunnelEnded;
    hide NoZeroWrites, Given, WriteExcused, Policy.Decide, MayConnect, PeerChecked, ConnectOutcome, Tried, Told;
    total, log := 0, [];
    NoEvents();
    if target.port != env.connectPort {
      var d := Evaluate(NO_SIGNALS.(port := true));
      PortBlocks(d);
      answer := OwnPage(Blocked(d.reason));
      SendPage(client, env, Blocked(d.reason));
      return;
    }
    var d, sig := CheckDestination(env, target.host);
    if d.block {
      answer := OwnPage(Blocked(d.reason));
      SendPage(client, env, Blocked(d.reason));
      return;
    }
    var status, fd := OriginConnect(net, DestinationOf(env, target.host), env.unsafe, env.allowPrivate);
    if status == ErrUnsafe {
      var r := NetworkBlock(sig);
      answer := OwnPage(Blocked(r));
      SendPage(client, env, Blocked(r));
      return;
    }
    if status != FetchOk {
      answer := OwnPage(GatewayFailed(status));
      SendPage(client, env, GatewayFailed(status));
      return;
    }
    total, answer, log := OpenTunnel(env, client, origin, net, fd, polls);
  }

  function HeadersAnswer(status: Tunnel.ReadStatus): Answer {
    match status
    case TimedOut => OwnPage(HeadersTimeout)
    case TooLarge => OwnPage(HeadersTooLarge)
    case _ => NoAnswer
  }

  /** Which answer a CONNECT request gets, from its line, from how its headers ended, and from its target. How they
      ended shows in their bytes: completely, too long, or neither. */
  ghost predicate ConnectAnswered(env: Env, line: string, polls: seq<Tunnel.PollChoice>, answer: Answer, hs: Tunnel.ReadStatus,
                                  headers: string, log: seq<Tunnel.Event>, c0: Wire, c: Wire, o0: Wire, o: Wire) {
    match ParseConnect(line)
    case Err(error) => answer == OwnPage(ParseFailed(error)) && headers == ""
    case Ok(target) =>
      && (hs == Tunnel.LineOk <==> Tunnel.HeadersRead(Tunnel.LineOk, headers, ""))
      && (hs == Tunnel.TooLarge <==> |headers| > 8192)
      && if hs == Tunnel.LineOk then
           match TargetPage(env, target)
           case Some(page) => answer == OwnPage(page)
           case None => answer.Tunnelled? && TunnelEnded(env, log, polls, c0, c, o0, o)
         else
           && Tunnel.HeadersRead(hs, headers, c.stream) && Tunnel.Justified(hs, c0.recvs, c.recvs)
           && (match hs
               case TimedOut => answer == OwnPage(HeadersTimeout)
               case TooLarge => answer == OwnPage(HeadersTooLarge)
               case _ => answer == NoAnswer)
  }

  /** A script that holds more at the start accounts for as much. */
  lemma EndedEarlier(env: Env, log: seq<Tunnel.Event>, polls: seq<Tunnel.PollChoice>, start: Wire, c0: Wire, c: Wire, o0: Wire, o: Wire)
    requires TunnelEnded(env, log, polls, c0, c, o0, o) && start.writes == c0.writes && forall x :: x in c0.recvs ==> x in start.recvs
    ensures TunnelEnded(env, log, polls, start, c, o0, o)
  {
    hide Tunnel.Shuts, Tunnel.Retries, Tunnel.Polls, Tunnel.Attended, Tunnel.WentQuiet, WriteExcused, Tunnel.BrokenOn;
  }

  /** What was moved after `taken` was taken. */
  lemma MovedAfter(taken: string, log: seq<Tunnel.Event>, start: Wire, c0: Wire, c: Wire, o0: Wire, o: Wire)
    requires Moved("", log, c0, c, o0, o) && c0.received == start.received + taken && c0.shutdowns == start.shutdowns
    requires c0.received + c0.stream == start.received + start.stream
    ensures Moved(taken, log, start, c, o0, o)
    ensures c0.written == start.written && c0.writes == start.writes && Told(log, c0, c) ==> Told(log, start, c)
  {
    hide Tunnel.GotBytes, Tunnel.SentBytes, Tunnel.Shuts;
  }

  /** The connect() calls made for a CONNECT request whose headers ended like this. */
  ghost function ConnectAttempts(env: Env, line: string, hs: Tunnel.ReadStatus): seq<Address> {
    match ParseConnect(line)
    case Err(_) => []
    case Ok(target) => if hs == Tunnel.LineOk && target.port == env.connectPort then Attempts(env, target.host) else []
  }

  /** The headers are complete, and the target has the permitted port and a malicious host. */
  ghost predicate MaliciousTarget(env: Env, target: Target, hs: Tunnel.ReadStatus) {
    hs == Tunnel.LineOk && target.port == env.connectPort && KnownMalicious(env, target.host)
  }

  /** What a tunnel made of the bytes, if no write returned 0. */
  ghost predicate TunnelSound(headers: string, log: seq<Tunnel.Event>, total: nat, c0: Wire, c: Wire, o0: Wire, o: Wire) {
    && Partition(headers, Tunnel.GotBytes(log, Tunnel.ClientToOrigin), Tunnel.SentBytes(log, Tunnel.ClientToOrigin), log,
                 o0.writes, o.writes)
    && Tunnel.Lawful(log) && total == Tunnel.FullyForwarded(log) && Told(log, c0, c)
  }

  /** One CONNECT request, its line already read. */
  method HandleConnect(env: Env, client: Socket, origin: Socket, net: Network, line: string, polls: seq<Tunnel.PollChoice>)
    returns (total: nat, ghost answer: Answer, ghost hs: Tunnel.ReadStatus, ghost headers: string, ghost log: seq<Tunnel.Event>)
    requires client != origin && net.Valid()
    modifies client, origin, net
    // connect safety: only the permitted port, host and addresses; no socket stays open
    ensures net.Valid() && net.open == old(net.open) && net.attempts == old(net.attempts) + ConnectAttempts(env, line, hs)
    ensures net.attempts != old(net.attempts) || answer.Tunnelled? ==>
              ParseConnect(line).Ok? && ParseConnect(line).value.port == env.connectPort && MayReach(env, ParseConnect(line).value.host)
    ensures ParseConnect(line).Ok? && MaliciousTarget(env, ParseConnect(line).value, hs) ==>
              answer == OwnPage(Blocked(Reputation)) && net.attempts == old(net.attempts)
    ensures OnlySafe(env, old(net.attempts), net.attempts)
    // the client's stream: headers, then tunnel bytes
    ensures Moved(headers, log, old(WireOf(client)), WireOf(client), old(WireOf(origin)), WireOf(origin))
    ensures NoZeroWrites(old(client.writes)) && NoZeroWrites(old(origin.writes)) && answer.Tunnelled? ==>
              TunnelSound(headers, log, total, old(WireOf(client)), WireOf(client), old(WireOf(origin)), WireOf(origin))
    // one answer, and given
    ensures NoZeroWrites(old(client.writes)) && NoZeroWrites(old(origin.writes)) ==>
              Given(env, answer, old(client.written), client.written, old(client.writes), client.writes)
    ensures if answer.Tunnelled? then answer.got == Tunnel.GotBytes(log, Tunnel.OriginToClient)
            else log == [] && total == 0 && origin.received == old(origin.received) && (answer.OwnPage? || answer.NoAnswer?)
    ensures ConnectAnswered(env, line, polls, answer, hs, headers, log,
                            old(WireOf(client)), WireOf(client), old(WireOf(origin)), WireOf(origin))
  {
    hide Tunnel.GotBytes, Tunnel.SentBytes, Tunnel.Shuts, Tunnel.Lawful, Tunnel.FullyForwarded, Tunnel.BlankLineAt;
    hide Tunnel.NoBlankLine, Tunnel.HeadersRead, Tunnel.Justified, Tunnel.InPhase, Tunnel.Broken, Tunnel.BrokenOn;
    hide NoZeroWrites, ParseConnect, Given, MayReach, TargetPage, WriteExcused, TunnelEnded, Partition, TunnelSound;
    hide Told, Attempts, Moved, ConnectAnswered, OnlySafe, KnownMalicious;
    total, log, headers, answer, hs := 0, [], "", NoAnswer, Tunnel.LineOk;
    ghost var start, o0 := WireOf(client), WireOf(origin);
    Nothing(env, client.written, client.writes);
    var parsed := ParseConnectRequest(line);
    if parsed.Err? {
      answer := OwnPage(ParseFailed(parsed.error));
      SendPage(client, env, ParseFailed(parsed.error));
      Unreached(env, line, polls, answer, hs, headers, start, WireOf(client), o0);
      return;
    }
    var status;
    status, headers := Tunnel.ConsumeHeaders(client);
    hs := status;
    if status != Tunnel.LineOk {
      var reply := HeadersAnswer(status);
      answer := reply;
      if reply.OwnPage? {
        SendPage(client, env, reply.page);
      }
      Unreached(env, line, polls, answer, hs, headers, start, WireOf(client), o0);
      return;
    }
    HeadersExclusive(status, headers, client.stream);
    ghost var before := WireOf(client);
    total, answer, log := Reach(env, client, origin, net, parsed.value, polls);
    MovedAfter(headers, log, start, before, WireOf(client), o0, WireOf(origin));
    ReachedIs(env, line, parsed.value, polls, answer, headers, log, start, before, WireOf(client), o0, WireOf(origin));
    if NoZeroWrites(old(client.writes)) && NoZeroWrites(old(origin.writes)) && answer.Tunnelled? {
      SoundIs(headers, log, total, start, WireOf(client), o0, WireOf(origin));
    }
  }

  /** A request that fails before its headers are complete. */
  lemma Unreached(env: Env, line: string, polls: seq<Tunnel.PollChoice>, answer: Answer, hs: Tunnel.ReadStatus, headers: string,
                  c0: Wire, c: Wire, o: Wire)
    requires c.received == c0.received + headers && c.received + c.stream == c0.received + c0.stream && c.shutdowns == c0.shutdowns
    requires match ParseConnect(line)
             case Err(error) => answer == OwnPage(ParseFailed(error)) && headers == ""
             case Ok(_) =>
               && hs != Tunnel.LineOk && answer == HeadersAnswer(hs)
               && Tunnel.HeadersRead(hs, headers, c.stream) && Tunnel.Justified(hs, c0.recvs, c.recvs)
    ensures Moved(headers, [], c0, c, o, o) && ConnectAnswered(env, line, polls, answer, hs, headers, [], c0, c, o, o)
  {
    hide ParseConnect, Tunnel.HeadersRead, Tunnel.Justified, TargetPage, TunnelEnded;
    NoEvents();
    if ParseConnect(line).Ok? { HeadersExclusive(hs, headers, c.stream); }
  }

  lemma ReachedIs(env: Env, line: string, target: Target, polls: seq<Tunnel.PollChoice>, answer: Answer, headers: string,
                  log: seq<Tunnel.Event>, start: Wire, c0: Wire, c: Wire, o0: Wire, o: Wire)
    requires ParseConnect(line) == Ok(target) && Tunnel.HeadersRead(Tunnel.LineOk, headers, "") && |headers| <= Tunnel.HEADER_MAX
    requires start.writes == c0.writes && forall x :: x in c0.recvs ==> x in start.recvs
    requires match TargetPage(env, target) case Some(page) => answer == OwnPage(page) case None => answer.Tunnelled?
    requires answer.Tunnelled? ==> TunnelEnded(env, log, polls, c0, c, o0, o)
    ensures ConnectAnswered(env, line, polls, answer, Tunnel.LineOk, headers, log, start, c, o0, o)
  {
    hide ParseConnect, Tunnel.HeadersRead, TargetPage, TunnelEnded;
    if answer.Tunnelled? { EndedEarlier(env, log, polls, start, c0, c, o0, o); }
  }

  lemma SoundIs(headers: string, log: seq<Tunnel.Event>, total: nat, c0: Wire, c: Wire, o0: Wire, o: Wire)
    requires Tunnel.HeadersRead(Tunnel.LineOk, headers, "") && Told(log, c0, c) && total == Tunnel.FullyForwarded(log)
    requires Tunnel.Lawful(log) && (Tunnel.InPhase(log) || Tunnel.Broken(log))
    requires Tunnel.BrokenOn(log, Tunnel.ClientToOrigin) ==> WriteExcused(o0.writes, o.writes)
    ensures TunnelSound(headers, log, total, c0, c, o0, o)
  {
    Tunnel.SentIsPrefix(log, Tunnel.ClientToOrigin);
  }

  /** Headers that were not read to their end are not complete. */
  lemma HeadersExclusive(status: Tunnel.ReadStatus, used: string, rest: string)
    requires Tunnel.HeadersRead(status, used, rest)
    ensures Tunnel.HeadersRead(Tunnel.LineOk, used, "") <==> status == Tunnel.LineOk
    ensures |used| > Tunnel.HEADER_MAX <==> status == Tunnel.TooLarge
  {
    hide Tunnel.BlankLineAt;
    if status != Tunnel.LineOk && status != Tunnel.TooLarge && 0 < |used| {
      assert !Tunnel.BlankLineAt(used, |used| - 1);
    }
  }

  lemma Nothing(env: Env, written: string, writes: seq<WriteChoice>)
    ensures Given(env, NoAnswer, written, written, writes, writes)
  {
  }

  lemma PortBlocks(d: Decision)
    requires Combines(NO_SIGNALS.(port := true), d)
    ensures d.block && d.reason == Port
  {
    assert Contribution(NO_SIGNALS.(port := true), Port) == RULE_SCORE;
  }
}
