/** src/proxy.c: one plain HTTP request, proved to be a worker of the machine in ProxyRuns. */
module ProxyHttp {
  import opened Text
  import opened Sockets
  import opened RequestParser
  import opened CacheKey
  import opened Fetch
  import opened Decision
  import opened Proxy
  import opened ProxyRuns
  import opened UpstreamRequest
  import CacheRuns
  import Eligibility
  import Policy
  import ResponseCache

  /** When a cache call is made, and whether its allocation succeeds. */
  datatype Moment = Moment(now: int, copied: bool)

  ghost predicate MayCache(data: string) { exists n: nat :: Eligibility.Cacheable(data, n) }

  /** The last step stores at that moment if the data may be cached, and only then. */
  ghost predicate StoresLast(trace: seq<Step>, w: nat, at: Moment, data: string) {
    trace != [] && var e := trace[|trace| - 1];
    if MayCache(data) then e.Keep? && e.w == w && e.now == at.now && e.copied == at.copied else e == Leave(w)
  }

  /** A copy of this size fits the limit of 256 KiB and the memory that realloc grants. */
  ghost predicate Roomy(got: string, allocs: seq<bool>) {
    |got| <= 262144 && |got| <= |allocs| && false !in allocs
  }

  /** The cache object holds what the machine's history makes of it. */
  ghost predicate Agrees(cache: ResponseCache.Cache, s: System)
    reads cache
  {
    CacheRuns.StateOf(cache) == CacheRuns.Run(CacheRuns.Off, s.ops)
  }

  /** The cache operations of other workers. */
  method Interfere(cache: ResponseCache.Cache, ops: seq<CacheRuns.Op>)
    requires cache.Valid()
    modifies cache, cache.entries
    ensures cache.Valid() && (cache.entries == old(cache.entries) || cache.entries == null || fresh(cache.entries))
    ensures CacheRuns.StateOf(cache) == CacheRuns.Run(old(CacheRuns.StateOf(cache)), ops)
  {
    hide CacheRuns.Step, CacheRuns.StateOf;
    for i := 0 to |ops|
      invariant cache.Valid() && (cache.entries == old(cache.entries) || cache.entries == null || fresh(cache.entries))
      invariant CacheRuns.StateOf(cache) == CacheRuns.Run(old(CacheRuns.StateOf(cache)), ops[..i])
    {
      var _ := CacheRuns.Perform(cache, ops[i]);
      assert ops[..i + 1][..i] == ops[..i];
    }
    assert ops[..|ops|] == ops;
  }

  lemma AgreesAfter(m: CacheRuns.State, ops: seq<CacheRuns.Op>, op: CacheRuns.Op)
    requires m == CacheRuns.Run(CacheRuns.Off, ops)
    ensures CacheRuns.Step(m, op) == CacheRuns.Run(CacheRuns.Off, ops + [op])
  {
    assert (ops + [op])[..|ops|] == ops;
  }

  lemma KeepIs(s: System, w: nat, ttl: nat, at: Moment)
    requires w in s.workers && s.workers[w].Copied? && Eligibility.Judges(s.workers[w].bytes, Eligibility.Yes(ttl))
    ensures var step := Keep(w, ttl, at.now, at.copied);
            && Can(s, step) && w !in Do(s, step).workers
            && Do(s, step).ops == s.ops + [CacheRuns.Store(KeyOf(s.workers[w].url), s.workers[w].bytes, ttl, at.now, at.copied)]
  {
    hide KeyOf, Cached, Eligibility.Judges;
  }

  lemma LeaveIs(s: System, w: nat)
    requires w in s.workers
    ensures Can(s, Leave(w)) && w !in Do(s, Leave(w)).workers && Do(s, Leave(w)).ops == s.ops
  {
    hide KeyOf, Cached, Eligibility.Judges;
  }

  /** Judges the copy and stores it if it may be cached. */
  method StoreCopy(cache: ResponseCache.Cache, key: string, data: string, at: Moment, w: nat, ghost s0: System)
    returns (ghost s: System, ghost step: Step)
    requires cache.Valid() && Agrees(cache, s0)
    requires w in s0.workers && s0.workers[w].Copied? && s0.workers[w].bytes == data && key == KeyOf(s0.workers[w].url)
    modifies cache, cache.entries
    ensures cache.Valid() && (cache.entries == old(cache.entries) || cache.entries == null || fresh(cache.entries))
    ensures (step.Keep? || step.Leave?) && step.w == w && Can(s0, step) && s == Do(s0, step) && Agrees(cache, s) && w !in s.workers
    ensures StoresLast([step], w, at, data)
  {
    hide CacheRuns.Step, CacheRuns.StateOf, CacheRuns.Run, Eligibility.Judges, Eligibility.Cacheable, KeyOf, Can, Do;
    LeaveIs(s0, w);
    var v := Eligibility.EvaluateResponse(data);
    Eligibility.VerdictIsExact(data, v);
    if v.Yes? {
      AgreesAfter(CacheRuns.StateOf(cache), s0.ops, CacheRuns.Store(key, data, v.ttl, at.now, at.copied));
      KeepIs(s0, w, v.ttl, at);
      var _ := CacheRuns.Perform(cache, CacheRuns.Store(key, data, v.ttl, at.now, at.copied));
      step := Keep(w, v.ttl, at.now, at.copied);
    } else {
      step := Leave(w);
    }
    s := Do(s0, step);
  }

  /** The page for a failed fetch, if one may still be sent. */
  function PageFor(status: Status, relayed: nat): Option<Page> {
    match status
    case ErrUnsafe => Some(Blocked(Network))
    case ErrDns => Some(GatewayFailed(ErrDns))
    case ErrConnect => Some(GatewayFailed(ErrConnect))
    case ErrTimeout => if relayed == 0 then Some(GatewayTimeout) else None
    case ErrRecv => if relayed == 0 then Some(NoResponse) else None
    case _ => None
  }

  /** Sends the page that the fetch calls for, if any. */
  method Report(env: Env, client: Socket, status: Status, relayed: nat, sig: Signals)
    requires !sig.port && !sig.policy
    modifies client`written, client`writes
    ensures match PageFor(status, relayed)
            case Some(page) =>
              NoZeroWrites(old(client.writes)) ==>
                Given(env, OwnPage(page), old(client.written), client.written, old(client.writes), client.writes)
            case None => client.written == old(client.written) && client.writes == old(client.writes)
  {
    hide Given, Combines, NoZeroWrites;
    if status == ErrUnsafe {
      var r := NetworkBlock(sig);
      SendPage(client, env, Blocked(r));
    } else if status == ErrDns || status == ErrConnect {
      SendPage(client, env, GatewayFailed(status));
    } else if status == ErrTimeout && relayed == 0 {
      SendPage(client, env, GatewayTimeout);
    } else if status == ErrRecv && relayed == 0 {
      SendPage(client, env, NoResponse);
    }
  }

  /** What worker `w` names as the origin's response is `whole`, and if it claims to have delivered it, its client
      was written all of it. */
  ghost predicate Honest(trace: seq<Step>, w: nat, whole: string, before: string, after: string) {
    forall i :: 0 <= i < |trace| ==>
                  && (trace[i].Open? && trace[i].w == w ==> trace[i].whole == whole)
                  && (trace[i].Deliver? && trace[i].w == w ==> after == before + whole)
  }

  /** Worker `w` delivered nothing. */
  ghost predicate Undelivered(trace: seq<Step>, w: nat) {
    forall i :: 0 <= i < |trace| && (trace[i].Open? || trace[i].Deliver?) ==> trace[i].w != w
  }

  /** The fetch with its copy: of the whole response, on a complete success, if wanted and if there is room. */
  method FetchCopy(env: Env, client: Socket, origin: Socket, net: Network, url: Url, wanted: bool, allocs: seq<bool>)
    returns (status: Status, bytes: nat, copy: Option<string>, ghost got: string, ghost sent: string)
    requires client != origin && net.Valid()
    modifies client, origin, net
    ensures net.Valid() && net.open == old(net.open)
    ensures var d := DestinationOf(env, url.host);
            net.attempts == old(net.attempts) + if MayConnect(d, env.unsafe, env.allowPrivate) then Tried(d.answer.value) else []
    ensures OnlySafe(env, old(net.attempts), net.attempts)
    ensures origin.received == old(origin.received) + got && client.written == old(client.written) + sent
    ensures client.received == old(client.received) && client.stream == old(client.stream)
    ensures client.shutdowns == old(client.shutdowns) && origin.shutdowns == old(origin.shutdowns)
    ensures copy.Some? ==> status == FetchOk && wanted && copy.value == got
    ensures status == FetchOk && wanted && Roomy(got, allocs) ==> copy.Some?
    ensures status == FetchOk ==> origin.stream == "" && old(origin.stream) == got != ""
    ensures old(origin.written) <= origin.written <= old(origin.written) + RequestText(url)
    ensures (got != "" || status in {FetchOk, ErrTimeout, ErrRecv}) && NoZeroWrites(old(origin.writes)) ==>
              origin.written == old(origin.written) + RequestText(url)
    ensures status in {ErrDns, ErrConnect, ErrUnsafe} ==> origin.written == old(origin.written)
    ensures NoZeroWrites(old(client.writes)) ==> sent <= got && (sent == got || WriteExcused(old(client.writes), client.writes))
    ensures NoZeroWrites(old(client.writes)) && status == FetchOk ==> sent == got
    ensures PageFor(status, bytes).Some? ==> got == "" && sent == "" && status != FetchOk
    ensures got == "" ==> bytes == 0 && sent == "" && client.writes == old(client.writes)
    // a failure has its cause
    ensures var outcome := ConnectOutcome(DestinationOf(env, url.host), env.unsafe, env.allowPrivate);
            if outcome != FetchOk then status == outcome
            else FailureJustified(status, got, origin.stream, old(origin.recvs), origin.recvs, old(client.writes), client.writes,
                                  old(origin.writes), origin.writes)
    ensures old(origin.stream) == got + origin.stream
  {
    hide NoZeroWrites, MayConnect, AllSafe, DestinationOf, ConnectOutcome, Tried, RequestText;
    var stats := new Stats(if wanted then CAPTURE_LIMIT else 0);
    status, got, sent := FetchAndRelay(net, DestinationOf(env, url.host), env.unsafe, env.allowPrivate,
                                       origin, client, RequestText(url), stats, allocs);
    bytes, copy := stats.bytesRelayed, None;
    if wanted && status == FetchOk && stats.capture != null {
      copy := Some(stats.capture[..stats.captureLen]);
    }
  }

  /** The fetch and the page it may call for. (The store that follows in `Finish` touches no socket.) */
  method FetchAnswer(env: Env, client: Socket, origin: Socket, net: Network, url: Url, wanted: bool, sig: Signals,
                     allocs: seq<bool>)
    returns (bytes: nat, complete: bool, copy: Option<string>, ghost answer: Answer)
    requires client != origin && net.Valid() && Permitted(env, url.host) && !sig.port && !sig.policy
    modifies client, origin, net
    ensures net.Valid() && net.open == old(net.open) && net.attempts == old(net.attempts) + Attempts(env, url.host)
    ensures OnlySafe(env, old(net.attempts), net.attempts)
    ensures answer.Relayed? || answer.OwnPage?
    ensures Fetched(RequestText(url), answer, old(WireOf(client)), WireOf(client), old(WireOf(origin)), WireOf(origin))
    ensures match DestinationPage(env, url.host)
            case Some(page) => answer == OwnPage(page)
            case None => FetchEnded(answer, complete, old(WireOf(client)), WireOf(client), old(WireOf(origin)), WireOf(origin))
    ensures complete ==> answer.Relayed? && origin.stream == "" && old(origin.stream) == answer.got != ""
    ensures NoZeroWrites(old(client.writes)) ==>
              && Given(env, answer, old(client.written), client.written, old(client.writes), client.writes)
              && (complete ==> client.written == old(client.written) + answer.got)
    ensures copy.Some? ==> complete && wanted && copy.value == answer.got
    ensures complete && wanted && Roomy(answer.got, allocs) ==> copy.Some?
  {
    hide NoZeroWrites, MayConnect, AllSafe, Given, Excused, WriteExcused, DestinationOf, ConnectOutcome, Permitted, RequestText;
    hide FailureJustified, FetchEnded, DestinationPage, Tried, Fetched, OnlySafe, PageFor, AnswerFor, Roomy;
    ghost var got, sent;
    var status;
    status, bytes, copy, got, sent := FetchCopy(env, client, origin, net, url, wanted, allocs);
    ghost var fetched := client.writes;
    complete := status == FetchOk;
    assert PageFor(status, bytes).Some? ==> got == "" && client.written == old(client.written) && client.writes == old(client.writes);
    Report(env, client, status, bytes, sig);
    answer := AnswerFor(status, bytes, got);
    AnswerIs(status, bytes, got);
    FetchedIs(RequestText(url), status, bytes, got, old(WireOf(client)), WireOf(client), old(WireOf(origin)), WireOf(origin));
    EndIs(env, url.host, status, bytes, got, fetched, old(WireOf(client)), WireOf(client), old(WireOf(origin)), WireOf(origin));
    if PageFor(status, bytes).None? && NoZeroWrites(old(client.writes)) {
      WroteRelay(env, old(client.written), got, sent, old(client.writes), client.writes);
    }
  }

  /** The origin was asked for this answer. */
  ghost predicate Asked(answer: Answer) {
    answer == OwnPage(GatewayTimeout) || answer == OwnPage(NoResponse) || answer.Relayed?
  }

  /** What a plain request did to both sockets. Nothing is taken from the client, and from the origin what is relayed. The
      origin is written a prefix of the request: all of it for any answer that depends on its response, and nothing
      unless it was asked. */
  ghost predicate Fetched(request: string, answer: Answer, c0: Wire, c: Wire, o0: Wire, o: Wire) {
    && c.received == c0.received && c.stream == c0.stream && c.shutdowns == c0.shutdowns && o.shutdowns == o0.shutdowns
    && o.received == o0.received + (if answer.Relayed? then answer.got else "")
    && o.received + o.stream == o0.received + o0.stream
    && o0.written <= o.written <= o0.written + request
    && (!Asked(answer) ==> o.written == o0.written)
    && (Asked(answer) && answer != Relayed("") && NoZeroWrites(o0.writes) ==> o.written == o0.written + request)
  }

  lemma NotFetched(request: string, answer: Answer, c0: Wire, c: Wire, o: Wire)
    requires c.received == c0.received && c.stream == c0.stream && c.shutdowns == c0.shutdowns && !Asked(answer)
    ensures Fetched(request, answer, c0, c, o, o)
  {
  }

  /** Fetches from the origin, relays, and keeps a copy if the cache may be used (`key`). */
  method ServeFromOrigin(env: Env, client: Socket, origin: Socket, net: Network, cache: ResponseCache.Cache,
                         url: Url, key: Option<string>, sig: Signals, at: Moment, allocs: seq<bool>,
                         ops: seq<CacheRuns.Op>, w: nat, ghost s0: System, ghost others: seq<Step>)
    returns (bytes: nat, ghost answer: Answer, ghost complete: bool, ghost s: System, ghost trace: seq<Step>)
    requires client != origin && net.Valid() && cache.Valid() && Agrees(cache, s0)
    requires Permitted(env, url.host) && !sig.port && !sig.policy
    requires w in s0.workers && s0.workers[w] == if key.Some? then Missed(url) else Admitted(url)
    requires key.Some? ==> key.value == KeyOf(url) && Meanwhile(s0, w, others, ops)
    modifies client, origin, net, cache, cache.entries
    ensures net.Valid() && net.open == old(net.open) && net.attempts == old(net.attempts) + Attempts(env, url.host)
    ensures OnlySafe(env, old(net.attempts), net.attempts)
    ensures cache.Valid() && Agrees(cache, s) && Runs(s0, trace, s) && w !in s.workers
    ensures answer.Relayed? || answer.OwnPage?
    ensures Fetched(RequestText(url), answer, old(WireOf(client)), WireOf(client), old(WireOf(origin)), WireOf(origin))
    ensures match DestinationPage(env, url.host)
            case Some(page) => answer == OwnPage(page)
            case None => FetchEnded(answer, complete, old(WireOf(client)), WireOf(client), old(WireOf(origin)), WireOf(origin))
    ensures NoZeroWrites(old(client.writes)) ==>
              && Given(env, answer, old(client.written), client.written, old(client.writes), client.writes)
              && (answer.Relayed? ==> Honest(trace, w, old(origin.stream), old(client.written), client.written))
    ensures if complete then answer.Relayed? && Relay(url, answer.got) in s.relays else Undelivered(trace, w)
    ensures complete ==> origin.stream == "" && old(origin.stream) == answer.got != ""
    ensures complete && key.Some? && Roomy(answer.got, allocs) ==> StoresLast(trace, w, at, answer.got)
    ensures key.None? ==> CacheRuns.StateOf(cache) == old(CacheRuns.StateOf(cache))
  {
    hide CacheRuns.StateOf, CacheRuns.Run, KeyOf, Can, Do, Meanwhile, Runs, NoZeroWrites, MayReach, Permitted;
    hide Agrees, Given, Honest, Undelivered, StoresLast, FetchEnded, DestinationPage, RequestText, Attempts, Fetched, OnlySafe;
    var ok, copy;
    bytes, ok, copy, answer := FetchAnswer(env, client, origin, net, url, key.Some?, sig, allocs);
    complete := ok;
    s, trace := Finish(cache, key, copy, ok, url, at, ops, w, if answer.Relayed? then answer.got else "", s0, others);
    UndeliveredIsHonest(trace, w, old(origin.stream), old(client.written), client.written);
  }

  /** How a fetch from a reachable origin ended: completely, or with a page or a short response for a cause. The timeout
      page means that the origin stayed silent, the other that it closed without a byte or that reading failed; a short
      response, that reading from it or writing to either side failed. */
  ghost predicate FetchEnded(answer: Answer, complete: bool, c0: Wire, c: Wire, o0: Wire, o: Wire) {
    match answer
    case OwnPage(page) =>
      && !complete
      && (match page
          case GatewayTimeout => Excused(Again, o0.recvs, o.recvs)
          case NoResponse => o0.stream == "" || Excused(Intr, o0.recvs, o.recvs) || Excused(Other, o0.recvs, o.recvs)
          case _ => false)
    case Relayed(got) =>
      || complete || WriteExcused(c0.writes, c.writes) || WriteExcused(o0.writes, o.writes)
      || (got != "" && exists e :: Excused(e, o0.recvs, o.recvs))
    case _ => false
  }

  lemma UndeliveredIsHonest(trace: seq<Step>, w: nat, whole: string, before: string, after: string)
    ensures Undelivered(trace, w) ==> Honest(trace, w, whole, before, after)
  {
  }

  ghost function AnswerFor(status: Status, bytes: nat, got: string): Answer {
    match PageFor(status, bytes) case Some(page) => OwnPage(page) case None => Relayed(got)
  }

  lemma AnswerIs(status: Status, bytes: nat, got: string)
    ensures AnswerFor(status, bytes, got) ==
            if PageFor(status, bytes).Some? then OwnPage(PageFor(status, bytes).value) else Relayed(got)
    ensures status == FetchOk ==> PageFor(status, bytes).None?
  {
  }

  lemma FetchedIs(request: string, status: Status, bytes: nat, got: string, c0: Wire, c: Wire, o0: Wire, o: Wire)
    requires c.received == c0.received && c.stream == c0.stream && c.shutdowns == c0.shutdowns && o.shutdowns == o0.shutdowns
    requires o.received == o0.received + got && o0.stream == got + o.stream && (PageFor(status, bytes).Some? ==> got == "")
    requires o0.written <= o.written <= o0.written + request
    requires status in {ErrDns, ErrConnect, ErrUnsafe} ==> o.written == o0.written
    requires (got != "" || status in {FetchOk, ErrTimeout, ErrRecv}) && NoZeroWrites(o0.writes) ==> o.written == o0.written + request
    ensures Fetched(request, AnswerFor(status, bytes, got), c0, c, o0, o)
  {
    hide NoZeroWrites;
    assert o.received + o.stream == o0.received + (got + o.stream);
  }

  /** The answer to a permitted request follows from what became of its fetch. */
  lemma EndIs(env: Env, host: string, status: Status, bytes: nat, got: string, fetched: seq<WriteChoice>,
              c0: Wire, c: Wire, o0: Wire, o: Wire)
    requires Permitted(env, host) && (got == "" ==> bytes == 0) && o0.stream == got + o.stream
    requires PageFor(status, bytes).None? ==> c.writes == fetched
    requires var outcome := ConnectOutcome(DestinationOf(env, host), env.unsafe, env.allowPrivate);
             if outcome != FetchOk then status == outcome
             else FailureJustified(status, got, o.stream, o0.recvs, o.recvs, c0.writes, fetched, o0.writes, o.writes)
    ensures match DestinationPage(env, host)
            case Some(page) => AnswerFor(status, bytes, got) == OwnPage(page)
            case None => FetchEnded(AnswerFor(status, bytes, got), status == FetchOk, c0, c, o0, o)
  {
    hide Excused, WriteExcused, ConnectOutcome, DestinationOf, Policy.Decide;
  }

  lemma WroteRelay(env: Env, before: string, got: string, sent: string, w0: seq<WriteChoice>, w: seq<WriteChoice>)
    requires sent <= got && (sent == got || WriteExcused(w0, w))
    ensures Given(env, Relayed(got), before, before + sent, w0, w)
  {
    Wrote(env, Relayed(got), before, sent);
  }

  /** The worker's last steps: lets the others run, notes a complete delivery, and stores the copy. */
  method Finish(cache: ResponseCache.Cache, key: Option<string>, copy: Option<string>, complete: bool, url: Url,
                at: Moment, ops: seq<CacheRuns.Op>, w: nat, ghost got: string,
                ghost s0: System, ghost others: seq<Step>)
    returns (ghost s: System, ghost trace: seq<Step>)
    requires cache.Valid() && Agrees(cache, s0)
    requires w in s0.workers && s0.workers[w] == if key.Some? then Missed(url) else Admitted(url)
    requires key.Some? ==> key.value == KeyOf(url) && Meanwhile(s0, w, others, ops)
    requires copy.Some? ==> complete && key.Some? && copy.value == got
    requires complete ==> got != ""
    modifies cache, cache.entries
    ensures cache.Valid() && (cache.entries == old(cache.entries) || cache.entries == null || fresh(cache.entries))
    ensures Agrees(cache, s) && Runs(s0, trace, s) && w !in s.workers
    ensures if complete then forall before :: Honest(trace, w, got, before, before + got) else Undelivered(trace, w)
    ensures complete ==> Relay(url, got) in s.relays
    ensures copy.Some? ==> StoresLast(trace, w, at, got)
    ensures key.None? ==> CacheRuns.StateOf(cache) == old(CacheRuns.StateOf(cache))
  {
    hide CacheRuns.StateOf, CacheRuns.Run, KeyOf, Meanwhile, Runs, Cached, IsParsed, Eligibility.Judges, MayCache;
    s, trace := s0, [];
    RunsNothing(s0);
    if key.Some? {
      OthersAreOthers(s0, w, others, ops);
      CacheRuns.RunConcat(CacheRuns.Off, s0.ops, ops);
      s := OthersLeave(s0, w, others, ops);
      trace := others;
      Interfere(cache, ops);
    }
    ghost var last := Leave(w);
    if complete {
      ghost var open := Open(w, got);
      RunsAppend(s0, trace, s, open);
      s, trace := Do(s, open), trace + [open];
      ghost var chunk := Chunk(w, got);
      RunsAppend(s0, trace, s, chunk);
      s, trace := Do(s, chunk), trace + [chunk];
      last := Deliver(w, copy.Some?);
    }
    RunsAppend(s0, trace, s, last);
    s, trace := Do(s, last), trace + [last];
    if copy.Some? {
      ghost var t;
      t, last := StoreCopy(cache, key.value, copy.value, at, w, s);
      RunsAppend(s0, trace, s, last);
      s, trace := t, trace + [last];
    }
  }

  lemma RunsNothing(s: System)
    ensures Runs(s, [], s)
  {
  }

  lemma {:induction false} OthersAreOthers(s: System, w: nat, others: seq<Step>, ops: seq<CacheRuns.Op>)
    requires Meanwhile(s, w, others, ops)
    ensures forall i :: 0 <= i < |others| ==> !IsOf(others[i], w)
    decreases |others|
  {
    hide Can, Do, OpOf;
    if others != [] {
      if OpOf(s, others[0]).None? {
        OthersAreOthers(Do(s, others[0]), w, others[1..], ops);
      } else {
        OthersAreOthers(Do(s, others[0]), w, others[1..], ops[1..]);
      }
      forall i | 0 < i < |others| ensures !IsOf(others[i], w) {
        assert others[i] == others[1..][i - 1];
      }
    }
  }

  // ---------- one plain HTTP request ----------

  /** The machine after the worker was admitted and looked its URL up. */
  ghost function AfterLook(s: System, w: nat, url: Url, at: Moment): System
    requires w !in s.workers && IsParsed(url) && Plain(url)
  {
    Do(Do(s, Admit(w, url)), Look(w, at.now, at.copied))
  }

  lemma Looked(s: System, w: nat, url: Url, at: Moment)
    requires w !in s.workers && IsParsed(url) && Plain(url)
    ensures var t := AfterLook(s, w, url, at);
            && Runs(s, [Admit(w, url), Look(w, at.now, at.copied)], t)
            && t.ops == s.ops + [CacheRuns.Lookup(KeyOf(url), at.now, at.copied)]
            && match Cached(s, url, at.now, at.copied)
               case Some(data) => w !in t.workers && t.hits == s.hits + [Hit(url, data, at.now, |s.relays|, |s.ops|)]
               case None => w in t.workers && t.workers[w] == Missed(url)
  {
    hide KeyOf, IsParsed, Cached;
    var a := Do(s, Admit(w, url));
    var steps := [Admit(w, url), Look(w, at.now, at.copied)];
    assert steps[1..] == [Look(w, at.now, at.copied)] && steps[1..][1..] == [];
    assert Cached(a, url, at.now, at.copied) == Cached(s, url, at.now, at.copied) by { SameOps(a, s, url, at); }
    RunsTwo(s, steps);
  }

  lemma SameOps(a: System, s: System, url: Url, at: Moment)
    requires a.ops == s.ops
    ensures Cached(a, url, at.now, at.copied) == Cached(s, url, at.now, at.copied)
  {
  }

  lemma RunsTwo(s: System, steps: seq<Step>)
    requires |steps| == 2 && Can(s, steps[0]) && Can(Do(s, steps[0]), steps[1])
    ensures Runs(s, steps, Do(Do(s, steps[0]), steps[1]))
  {
    hide Can, Do;
    RunsNothing(Do(Do(s, steps[0]), steps[1]));
    assert steps[1..][0] == steps[1] && steps[1..][1..] == [];
    assert Runs(Do(s, steps[0]), steps[1..], Do(Do(s, steps[0]), steps[1]));
  }

  lemma Admission(s0: System, w: nat, url: Url) returns (s: System, trace: seq<Step>)
    requires w !in s0.workers && IsParsed(url)
    ensures Runs(s0, trace, s) && s.ops == s0.ops && w in s.workers && s.workers[w] == Admitted(url)
    ensures forall i :: 0 <= i < |trace| ==> trace[i].Admit? || trace[i].Look?
  {
    hide Runs, IsParsed;
    s, trace := Do(s0, Admit(w, url)), [] + [Admit(w, url)];
    RunsNothing(s0);
    RunsAppend(s0, [], s0, Admit(w, url));
  }

  /** Looks up a URL that may be cached; the key is returned if the cache is in use and missed. */
  method LookUp(cache: ResponseCache.Cache, url: Url, at: Moment, w: nat, ghost s0: System)
    returns (hit: Option<string>, key: Option<string>, ghost s: System, ghost trace: seq<Step>)
    requires cache.Valid() && Agrees(cache, s0) && w !in s0.workers && IsParsed(url)
    modifies cache, cache.entries
    ensures cache.Valid() && (cache.entries == old(cache.entries) || cache.entries == null || fresh(cache.entries))
    ensures Agrees(cache, s) && Runs(s0, trace, s)
    ensures forall i :: 0 <= i < |trace| ==> trace[i].Admit? || trace[i].Look?
    ensures hit.Some? ==> w !in s.workers && s.hits == s0.hits + [Hit(url, hit.value, at.now, |s0.relays|, |s0.ops|)]
    ensures hit.None? ==> w in s.workers && s.workers[w] == if key.Some? then Missed(url) else Admitted(url)
    ensures key.Some? ==> key.value == KeyOf(url)
    ensures key.Some? || hit.Some? ==> Plain(url) && s == AfterLook(s0, w, url, at)
    ensures key.None? && hit.None? <==> !Plain(url) || old(cache.entries) == null
    ensures hit == if Plain(url) && old(cache.entries) != null then Cached(s0, url, at.now, at.copied) else None
    ensures '?' in url.path ==> hit.None? && key.None? && CacheRuns.StateOf(cache) == old(CacheRuns.StateOf(cache))
  {
    hide CacheRuns.Run, KeyOf, Cached, IsParsed, CacheRuns.Step, CacheRuns.Answer, Key, Can, Do, Runs, AfterLook;
    s, trace := Admission(s0, w, url);
    hit, key := None, None;
    if cache.entries != null && '?' !in url.path {
      var k := MakeKey(url.host, url.port, url.path);
      KeyFitsAndIsInjective(url, url);
      SameKey(url);
      if k.Some? {
        AgreesAfter(CacheRuns.StateOf(cache), s0.ops, CacheRuns.Lookup(k.value, at.now, at.copied));
        CachedIs(cache, s0, url, at);
        Looked(s0, w, url, at);
        hit := CacheRuns.Perform(cache, CacheRuns.Lookup(k.value, at.now, at.copied));
        s, trace := AfterLook(s0, w, url, at), [Admit(w, url), Look(w, at.now, at.copied)];
        key := if hit.None? then k else None;
      }
    }
  }

  lemma SameKey(url: Url)
    ensures KeyOf(url) == Key(url.host, url.port, url.path)
  {
  }

  lemma CachedIs(cache: ResponseCache.Cache, s: System, url: Url, at: Moment)
    requires Agrees(cache, s)
    ensures CacheRuns.Answer(CacheRuns.StateOf(cache), KeyOf(url), at.now, at.copied) == Cached(s, url, at.now, at.copied)
  {
  }

  /** Which answer: a hit if there is one, else the destination's page, else what the fetch gave. */
  ghost predicate HttpAnswered(env: Env, url: Url, cacheOn: bool, s0: System, look: Moment, answer: Answer, complete: bool,
                               c0: Wire, c: Wire, o0: Wire, o: Wire) {
    var hit := if Permitted(env, url.host) && Plain(url) && cacheOn then Cached(s0, url, look.now, look.copied) else None;
    if hit.Some? then answer == FromCache(hit.value)
    else match DestinationPage(env, url.host)
      case Some(page) => answer == OwnPage(page)
      case None => FetchEnded(answer, complete, c0, c, o0, o)
  }

  /** One plain HTTP request. Between its two cache calls other workers take the steps `others`, whose cache
      operations are `ops`. */
  method HandleHttp(env: Env, client: Socket, origin: Socket, net: Network, cache: ResponseCache.Cache, url: Url,
                    look: Moment, store: Moment, allocs: seq<bool>, ops: seq<CacheRuns.Op>,
                    w: nat, ghost s0: System, ghost others: seq<Step>)
    returns (bytes: nat, ghost answer: Answer, ghost complete: bool, ghost s: System, ghost trace: seq<Step>)
    requires client != origin && net.Valid() && cache.Valid() && Agrees(cache, s0) && w !in s0.workers && IsParsed(url)
    requires Plain(url) ==> Meanwhile(AfterLook(s0, w, url, look), w, others, ops)
    modifies client, origin, net, cache, cache.entries
    // connect safety
    ensures net.Valid() && net.open == old(net.open)
    ensures net.attempts == old(net.attempts) + if answer.FromCache? then [] else Attempts(env, url.host)
    ensures KnownMalicious(env, url.host) ==> answer == OwnPage(Blocked(Reputation)) && net.attempts == old(net.attempts)
    ensures OnlySafe(env, old(net.attempts), net.attempts)
    // a worker of the machine
    ensures cache.Valid() && Agrees(cache, s) && Runs(s0, trace, s) && w !in s.workers
    ensures answer.FromCache? ==> Plain(url) && s.hits == s0.hits + [Hit(url, answer.data, look.now, |s0.relays|, |s0.ops|)]
    ensures answer.Relayed? && NoZeroWrites(old(client.writes)) ==>
              Honest(trace, w, old(origin.stream), old(client.written), client.written)
    ensures if complete then answer.Relayed? && Relay(url, answer.got) in s.relays else Undelivered(trace, w)
    ensures complete ==> origin.stream == "" && old(origin.stream) == answer.got != ""
    ensures complete && Plain(url) && old(cache.entries) != null && Roomy(answer.got, allocs) ==>
              StoresLast(trace, w, store, answer.got)
    // one answer: with a page or a hit, no origin byte was even received
    ensures NoZeroWrites(old(client.writes)) ==>
              Given(env, answer, old(client.written), client.written, old(client.writes), client.writes)
    ensures answer.Relayed? || answer.OwnPage? || answer.FromCache?
    ensures Fetched(RequestText(url), answer, old(WireOf(client)), WireOf(client), old(WireOf(origin)), WireOf(origin))
    ensures answer.FromCache? ==> Permitted(env, url.host)
    ensures !Permitted(env, url.host) ==> trace == []
    // a URL with a query leaves the cache alone
    ensures '?' in url.path ==> !answer.FromCache? && CacheRuns.StateOf(cache) == old(CacheRuns.StateOf(cache))
    ensures HttpAnswered(env, url, old(cache.entries) != null, s0, look, answer, complete,
                         old(WireOf(client)), WireOf(client), old(WireOf(origin)), WireOf(origin))
  {
    hide CacheRuns.StateOf, CacheRuns.Run, KeyOf, Can, Do, Meanwhile, Runs, NoZeroWrites, MayReach, IsParsed;
    hide Agrees, Given, FetchEnded, DestinationOf, AfterLook, Combines, Roomy, StoresLast, Undelivered, Honest;
    hide Cached, ConnectOutcome, Policy.Decide, RequestText, Attempts, Fetched, OnlySafe, IsAsked, KnownMalicious, Plain;
    complete := false;
    var d, sig := CheckDestination(env, url.host);
    if d.block {
      s, trace, answer, bytes := s0, [], OwnPage(Blocked(d.reason)), 0;
      RunsNothing(s0);
      NoneDelivered(trace, w);
      SendPage(client, env, Blocked(d.reason));
      NotFetched(RequestText(url), answer, old(WireOf(client)), WireOf(client), WireOf(origin));
      return;
    }
    var hit, key;
    hit, key, s, trace := LookUp(cache, url, look, w, s0);
    NoneDelivered(trace, w);
    if hit.Some? {
      answer := FromCache(hit.value);
      ghost var k;
      var rc;
      rc, k := SendAll(client, hit.value);
      WroteHit(env, old(client.written), hit.value, k, old(client.writes), client.writes);
      bytes := |hit.value|;
      NotFetched(RequestText(url), answer, old(WireOf(client)), WireOf(client), WireOf(origin));
      return;
    }
    ghost var before, first := s, trace;
    bytes, answer, complete, s, trace := ServeFromOrigin(env, client, origin, net, cache, url, key, sig, store, allocs,
                                                         ops, w, before, others);
    RunsConcat(s0, first, before, trace, s);
    Prepend(first, trace, w, store, if complete then answer.got else "", old(origin.stream), old(client.written), client.written);
    trace := first + trace;
  }

  lemma WroteHit(env: Env, before: string, data: string, k: nat, w0: seq<WriteChoice>, w: seq<WriteChoice>)
    requires k <= |data|
    ensures k == |data| || WriteExcused(w0, w) ==> Given(env, FromCache(data), before, before + data[..k], w0, w)
  {
    Wrote(env, FromCache(data), before, data[..k]);
    assert k == |data| ==> data[..k] == data;
  }

  lemma NoneDelivered(trace: seq<Step>, w: nat)
    requires forall i :: 0 <= i < |trace| ==> trace[i].Admit? || trace[i].Look?
    ensures Undelivered(trace, w)
  {
  }

  lemma Prepend(first: seq<Step>, trace: seq<Step>, w: nat, at: Moment, got: string, whole: string, before: string, after: string)
    requires forall i :: 0 <= i < |first| ==> first[i].Admit? || first[i].Look?
    ensures Undelivered(trace, w) ==> Undelivered(first + trace, w)
    ensures Honest(trace, w, whole, before, after) ==> Honest(first + trace, w, whole, before, after)
    ensures StoresLast(trace, w, at, got) ==> StoresLast(first + trace, w, at, got)
  {
    hide MayCache;
  }
}
