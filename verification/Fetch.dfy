/** src/origin_client.c: connecting to a checked address, and relaying a response while keeping a
    bounded copy for the cache. */
module Fetch {
  import opened Text
  import opened Sockets

  const RELAY_CHUNK := 8192
  const FIRST_CAPTURE := 16384

  datatype Status = FetchOk | ErrDns | ErrConnect | ErrSend | ErrRecv | ErrUnsafe | ErrTimeout

  // ---------- connecting ----------

  type Address = nat

  /** What the kernel does with one resolved address: whether socket() and connect() succeed, and which
      peer getpeername() reports (None if it fails). */
  datatype Attempt = Attempt(address: Address, socketOk: bool, connectOk: bool, peer: Option<Address>)

  /** One destination: whether its name is local, and its resolver answer (None if the lookup failed). */
  datatype Destination = Destination(localName: bool, answer: Option<seq<Attempt>>)

  class Network {
    var attempts: seq<Address>  // every connect() made, in order
    var open: set<nat>          // socket descriptors now open
    var next: nat               // descriptors are handed out in increasing order

    ghost predicate Valid() reads this { forall fd :: fd in open ==> fd < next }

    method OpenSocket() returns (fd: nat)
      requires Valid()
      modifies this`open, this`next
      ensures Valid() && fd !in old(open) && open == old(open) + {fd}
    {
      fd := next;
      open, next := open + {fd}, next + 1;
    }

    method CloseSocket(fd: nat)
      requires Valid()
      modifies this`open
      ensures Valid() && open == old(open) - {fd}
    {
      open := open - {fd};
    }
  }

  ghost predicate AllSafe(list: seq<Attempt>, unsafe: Address -> bool) {
    forall i :: 0 <= i < |list| ==> !unsafe(list[i].address)
  }

  method AllAddressesSafe(list: seq<Attempt>, unsafe: Address -> bool, allowPrivate: bool) returns (safe: bool)
    ensures safe <==> allowPrivate || AllSafe(list, unsafe)
  {
    if allowPrivate {
      return true;
    }
    for i := 0 to |list|
      invariant forall j :: 0 <= j < i ==> !unsafe(list[j].address)
    {
      if unsafe(list[i].address) {
        return false;
      }
    }
    safe := true;
  }

  /** connect() may be called for this destination. */
  ghost predicate MayConnect(d: Destination, unsafe: Address -> bool, allowPrivate: bool) {
    && d.answer.Some? && d.answer.value != []
    && (allowPrivate || (!d.localName && AllSafe(d.answer.value, unsafe)))
  }

  /** Some address was connected to, and the peer really reached is safe. */
  ghost predicate PeerChecked(list: seq<Attempt>, unsafe: Address -> bool, allowPrivate: bool) {
    exists i :: 0 <= i < |list| && list[i].socketOk && list[i].connectOk
                && (allowPrivate || (list[i].peer.Some? && !unsafe(list[i].peer.value)))
  }

  /** The first address that accepts a connection. */
  ghost function FirstReached(list: seq<Attempt>): Option<Attempt> {
    if list == [] then None
    else if list[0].socketOk && list[0].connectOk then Some(list[0])
    else FirstReached(list[1..])
  }

  /** The addresses that connect() is called for: each with a socket, up to the first that accepts. */
  ghost function Tried(list: seq<Attempt>): seq<Address> {
    if list == [] then []
    else if !list[0].socketOk then Tried(list[1..])
    else if list[0].connectOk then [list[0].address]
    else [list[0].address] + Tried(list[1..])
  }

  ghost function ConnectOutcome(d: Destination, unsafe: Address -> bool, allowPrivate: bool): (r: Status)
    ensures r in {FetchOk, ErrDns, ErrConnect, ErrUnsafe}
  {
    if !allowPrivate && d.localName then ErrUnsafe
    else if d.answer.None? || d.answer.value == [] then ErrDns
    else if !allowPrivate && !AllSafe(d.answer.value, unsafe) then ErrUnsafe
    else match FirstReached(d.answer.value)
      case None => ErrConnect
      case Some(a) => if !allowPrivate && (a.peer.None? || unsafe(a.peer.value)) then ErrUnsafe else FetchOk
  }

  lemma {:induction false} ReachedChecks(list: seq<Attempt>, unsafe: Address -> bool, allowPrivate: bool)
    requires FirstReached(list).Some?
    requires var a := FirstReached(list).value; allowPrivate || (a.peer.Some? && !unsafe(a.peer.value))
    ensures PeerChecked(list, unsafe, allowPrivate)
  {
    if list[0].socketOk && list[0].connectOk {
      assert PeerChecked(list, unsafe, allowPrivate);
    } else {
      ReachedChecks(list[1..], unsafe, allowPrivate);
      var i :| 0 <= i < |list[1..]| && list[1..][i].socketOk && list[1..][i].connectOk
               && (allowPrivate || (list[1..][i].peer.Some? && !unsafe(list[1..][i].peer.value)));
      assert list[i + 1] == list[1..][i];
    }
  }

  /** Opens a connection to the first address that works, checking every address first. */
  method OriginConnect(net: Network, d: Destination, unsafe: Address -> bool, allowPrivate: bool)
    returns (status: Status, fd: int)
    requires net.Valid()
    modifies net
    ensures net.Valid() && status == ConnectOutcome(d, unsafe, allowPrivate)
    ensures net.attempts == old(net.attempts) +
              if MayConnect(d, unsafe, allowPrivate) then Tried(d.answer.value) else []
    ensures !allowPrivate ==> forall i :: |old(net.attempts)| <= i < |net.attempts| ==> !unsafe(net.attempts[i])
    ensures status == FetchOk ==> fd >= 0 && fd !in old(net.open) && net.open == old(net.open) + {fd}
    ensures status == FetchOk ==> MayConnect(d, unsafe, allowPrivate) && PeerChecked(d.answer.value, unsafe, allowPrivate)
    ensures status != FetchOk ==> fd == -1 && net.open == old(net.open)
  {
    hide FirstReached, Tried, PeerChecked, AllSafe;
    fd := -1;
    if !allowPrivate && d.localName {
      return ErrUnsafe, -1;
    }
    if d.answer.None? || d.answer.value == [] {
      return ErrDns, -1;
    }
    var list := d.answer.value;
    var safe := AllAddressesSafe(list, unsafe, allowPrivate);
    if !safe {
      return ErrUnsafe, -1;
    }
    status := ErrConnect;
    var i := 0;
    assert list[0..] == list;
    while i < |list|
      invariant 0 <= i <= |list| && status == ErrConnect && fd == -1
      invariant net.Valid() && net.open == old(net.open) && old(net.attempts) <= net.attempts
      invariant FirstReached(list) == FirstReached(list[i..])
      invariant old(net.attempts) + Tried(list) == net.attempts + Tried(list[i..])
      invariant !allowPrivate ==> forall k :: |old(net.attempts)| <= k < |net.attempts| ==> !unsafe(net.attempts[k])
    {
      var a := list[i];
      NextAttempt(list, i);
      if !allowPrivate { EachSafe(list, unsafe, i); }
      i := i + 1;
      if !allowPrivate && unsafe(a.address) {
        assert false; // every address was checked above
      }
      if !a.socketOk {
        continue;
      }
      var s := net.OpenSocket();
      ghost var before := net.attempts;
      net.attempts := net.attempts + [a.address];
      if a.connectOk {
        if !allowPrivate && (a.peer.None? || unsafe(a.peer.value)) {
          net.CloseSocket(s);
          return ErrUnsafe, -1;
        }
        ReachedChecks(list, unsafe, allowPrivate);
        return FetchOk, s;
      }
      assert before + ([a.address] + Tried(list[i..])) == net.attempts + Tried(list[i..]);
      net.CloseSocket(s);
    }
    NoMoreAttempts(list[i..]);
  }

  lemma EachSafe(list: seq<Attempt>, unsafe: Address -> bool, i: nat)
    requires i < |list| && AllSafe(list, unsafe)
    ensures !unsafe(list[i].address)
  {
  }

  lemma NextAttempt(list: seq<Attempt>, i: nat)
    requires i < |list|
    ensures var a := list[i];
            && FirstReached(list[i..]) == (if a.socketOk && a.connectOk then Some(a) else FirstReached(list[i + 1..]))
            && Tried(list[i..]) == if !a.socketOk then Tried(list[i + 1..])
                                   else if a.connectOk then [a.address]
                                   else [a.address] + Tried(list[i + 1..])
  {
    assert list[i..][1..] == list[i + 1..];
  }

  lemma NoMoreAttempts(list: seq<Attempt>)
    requires list == []
    ensures FirstReached(list) == None && Tried(list) == []
  {
  }

  // ---------- the bounded copy ----------

  class Stats {
    var bytesRelayed: nat
    var captureLimit: nat
    var capture: array?<char>
    var captureLen: nat
    var overflow: bool

    constructor (limit: nat)
      ensures captureLimit == limit && capture == null
    {
      bytesRelayed, captureLimit, capture, captureLen, overflow := 0, limit, null, 0, false;
    }

    /** The copy holds exactly `got`, or was dropped, or was never wanted. */
    ghost predicate Copies(got: string, cap: nat)
      reads this, capture
    {
      && (capture != null ==> captureLimit > 0 && !overflow && captureLen <= capture.Length == cap <= captureLimit
                              && capture[..captureLen] == got)
      && (capture == null ==> captureLen == 0 && (overflow || captureLimit == 0 || (got == "" && cap == 0)))
    }

    /** Capacity for `need` bytes: double from `cap`, but never beyond the limit. */
    static method Wanted(cap: nat, need: nat, limit: nat) returns (want: nat)
      requires cap < need <= limit
      ensures need <= want <= limit
    {
      want := if cap == 0 then FIRST_CAPTURE else cap * 2;
      while want < need
        invariant want > 0
        decreases need - want
      {
        want := want * 2;
      }
      if want > limit {
        want := limit;
      }
    }

    /** Drops the copy. */
    method Discard()
      modifies this`capture, this`captureLen, this`overflow
      ensures capture == null && captureLen == 0 && overflow
    {
      capture, captureLen, overflow := null, 0, true;
    }

    /** Adds one relayed chunk to the copy; `granted` is the outcome of realloc. */
    method Keep(chunk: string, cap: nat, granted: bool, ghost got: string) returns (cap': nat)
      requires chunk != "" && Copies(got, cap)
      modifies this`capture, this`captureLen, this`overflow, capture
      ensures Copies(got + chunk, cap')
      ensures capture == old(capture) || capture == null || fresh(capture)
      ensures overflow ==> old(overflow) || |got + chunk| > captureLimit || !granted
      ensures old(overflow) ==> overflow
    {
      cap' := cap;
      if captureLimit > 0 && !overflow {
        if captureLen + |chunk| > captureLimit {
          Discard();
        } else {
          var need := captureLen + |chunk|;
          if need > cap {
            if !granted {
              Discard();
              return;
            }
            cap' := Wanted(cap, need, captureLimit);
            Enlarge(cap', got);
          }
          Copy(chunk);
          assert capture[..captureLen] == got + chunk;
        }
      }
    }

    /** realloc: a larger buffer with the same contents. */
    method Enlarge(cap: nat, ghost got: string)
      requires captureLen <= cap && (capture != null ==> captureLen <= capture.Length && capture[..captureLen] == got)
      requires capture == null ==> captureLen == 0 && got == ""
      modifies this`capture
      ensures capture != null && fresh(capture) && capture.Length == cap && capture[..captureLen] == got
    {
      var grown := new char[cap](_ => '\0');
      if capture != null {
        forall i | 0 <= i < captureLen {
          grown[i] := capture[i];
        }
      }
      capture := grown;
    }

    /** memcpy of the chunk behind the bytes already held. */
    method Copy(chunk: string)
      requires capture != null && captureLen + |chunk| <= capture.Length
      modifies this`captureLen, capture
      ensures captureLen == old(captureLen) + |chunk|
      ensures capture[..captureLen] == old(capture[..captureLen]) + chunk
    {
      forall i | 0 <= i < |chunk| {
        capture[captureLen + i] := chunk[i];
      }
      captureLen := captureLen + |chunk|;
    }
  }

  // ---------- relaying ----------

  /** How the receive loop ended. */
  datatype LoopEnd = AllReceived | SilentOrigin | ReadFailed | ClientGone

  /** Each end but the regular one was caused by a failed call. */
  ghost predicate EndJustified(end: LoopEnd, r0: seq<RecvChoice>, r: seq<RecvChoice>, w0: seq<WriteChoice>, w: seq<WriteChoice>) {
    match end
    case AllReceived => true
    case SilentOrigin => Excused(Again, r0, r)
    case ReadFailed => Excused(Intr, r0, r) || Excused(Other, r0, r)
    case ClientGone => WriteExcused(w0, w)
  }

  /** Streams the origin's bytes to the client chunk by chunk, keeping the bounded copy.
      `allocs` are the outcomes of realloc, in order; a missing one is a failure. */
  method RelayResponse(origin: Socket, client: Socket, stats: Stats, allocs: seq<bool>)
    returns (end: LoopEnd, cap: nat, ghost got: string, ghost sent: string)
    requires origin != client && stats.bytesRelayed == 0
    requires stats.capture == null && stats.captureLen == 0 && !stats.overflow
    modifies origin`stream, origin`received, origin`recvs, client`written, client`writes
    modifies stats`bytesRelayed, stats`capture, stats`captureLen, stats`overflow
    ensures origin.received == old(origin.received) + got && old(origin.stream) == got + origin.stream
    ensures client.written == old(client.written) + sent
    ensures end == AllReceived ==> origin.stream == ""
    ensures end != ClientGone ==> stats.bytesRelayed == |got|
    ensures got == "" ==> sent == "" && stats.bytesRelayed == 0 && client.writes == old(client.writes)
    ensures NoZeroWrites(old(client.writes)) && end == ClientGone ==> sent < got
    ensures NoZeroWrites(old(client.writes)) ==> sent <= got && (end != ClientGone ==> sent == got)
    ensures stats.capture == null || fresh(stats.capture)
    ensures end != ClientGone ==> stats.Copies(got, cap)
    ensures stats.overflow ==> |got| > stats.captureLimit || false in allocs || |allocs| < |got|
    ensures EndJustified(end, old(origin.recvs), origin.recvs, old(client.writes), client.writes)
  {
    got, sent, cap := "", "", 0;
    var round := 0;
    ghost var kernelOk := NoZeroWrites(client.writes);
    while true
      invariant origin.received == old(origin.received) + got && old(origin.stream) == got + origin.stream
      invariant client.written == old(client.written) + sent
      invariant kernelOk ==> NoZeroWrites(client.writes) && sent == got
      invariant stats.bytesRelayed == |got| && (got == "" ==> sent == "" && client.writes == old(client.writes))
      invariant stats.capture == null || fresh(stats.capture)
      invariant stats.Copies(got, cap)
      invariant round <= |got|
      invariant forall c :: c in origin.recvs ==> c in old(origin.recvs)
      invariant forall c :: c in client.writes ==> c in old(client.writes)
      invariant stats.overflow ==> |got| > stats.captureLimit || false in allocs || |allocs| < |got|
      decreases |origin.recvs|
    {
      var n, chunk, e := origin.Recv(RELAY_CHUNK);
      if n == 0 {
        return AllReceived, cap, got, sent;
      }
      if n < 0 {
        return if e == Again then SilentOrigin else ReadFailed, cap, got, sent;
      }
      assert got + chunk + origin.stream == got + (chunk + origin.stream);
      ghost var before := got;
      got := got + chunk;
      var rc, k := SendAll(client, chunk);
      sent := sent + chunk[..k];
      assert kernelOk ==> sent <= got;
      if rc < 0 {
        return ClientGone, cap, got, sent;
      }
      stats.bytesRelayed := stats.bytesRelayed + n;
      cap := stats.Keep(chunk, cap, round < |allocs| && allocs[round], before);
      round := round + 1;
    }
  }

  /** After a connection the fetch succeeds unless a call failed or the origin closed without a byte. */
  ghost predicate FailureJustified(status: Status, got: string, rest: string, r0: seq<RecvChoice>, r: seq<RecvChoice>,
                                   w0: seq<WriteChoice>, w: seq<WriteChoice>, o0: seq<WriteChoice>, o: seq<WriteChoice>) {
    match status
    case FetchOk => true
    case ErrTimeout => Excused(Again, r0, r)
    case ErrRecv => (got == "" && rest == "") || Excused(Intr, r0, r) || Excused(Other, r0, r)
    case ErrSend => WriteExcused(w0, w) || WriteExcused(o0, o)
    case _ => false
  }

  /** Sends the request on a connected socket and relays the response. */
  method Exchange(origin: Socket, client: Socket, request: string, stats: Stats, allocs: seq<bool>)
    returns (status: Status, ghost got: string, ghost sent: string)
    requires origin != client && stats.bytesRelayed == 0
    requires stats.capture == null && stats.captureLen == 0 && !stats.overflow
    modifies origin, client, stats
    ensures origin.received == old(origin.received) + got && old(origin.stream) == got + origin.stream
    ensures client.written == old(client.written) + sent && client.received == old(client.received)
    ensures client.stream == old(client.stream) && stats.captureLimit == old(stats.captureLimit)
    ensures old(origin.written) <= origin.written <= old(origin.written) + request
    ensures (got != "" || status in {FetchOk, ErrTimeout, ErrRecv}) && NoZeroWrites(old(origin.writes)) ==>
              origin.written == old(origin.written) + request
    ensures client.shutdowns == old(client.shutdowns) && origin.shutdowns == old(origin.shutdowns)
    ensures status in {FetchOk, ErrTimeout, ErrRecv, ErrSend}
    ensures status == FetchOk ==> got != "" && origin.stream == "" && stats.bytesRelayed == |got|
    ensures status == FetchOk ==> exists cap :: stats.Copies(got, cap)
    ensures stats.capture == null || fresh(stats.capture)
    ensures stats.overflow ==> |got| > stats.captureLimit || false in allocs || |allocs| < |got|
    ensures status in {ErrTimeout, ErrRecv} && stats.bytesRelayed == 0 ==> got == "" && sent == ""
    ensures got == "" ==> sent == "" && stats.bytesRelayed == 0 && client.writes == old(client.writes)
    ensures NoZeroWrites(old(client.writes)) ==> sent <= got && (sent == got || WriteExcused(old(client.writes), client.writes))
    ensures status == FetchOk && NoZeroWrites(old(client.writes)) ==> sent == got
    ensures FailureJustified(status, got, origin.stream, old(origin.recvs), origin.recvs, old(client.writes), client.writes,
                             old(origin.writes), origin.writes)
  {
    hide Excused, WriteExcused, NoZeroWrites;
    got, sent := "", "";
    var rc, k := SendAll(origin, request);
    if rc < 0 {
      return ErrSend, got, sent;
    }
    assert rc == |request| ==> request[..k] == request;
    var end, cap;
    end, cap, got, sent := RelayResponse(origin, client, stats, allocs);
    status := match end
      case AllReceived => if stats.bytesRelayed == 0 then ErrRecv else FetchOk
      case SilentOrigin => ErrTimeout
      case ReadFailed => ErrRecv
      case ClientGone => ErrSend;
  }

  /** Connects, sends the request and relays the response; every socket it opens is closed again. */
  method FetchAndRelay(net: Network, d: Destination, unsafe: Address -> bool, allowPrivate: bool,
                       origin: Socket, client: Socket, request: string, stats: Stats, allocs: seq<bool>)
    returns (status: Status, ghost got: string, ghost sent: string)
    requires net.Valid() && origin != client
    modifies net, origin, client, stats
    ensures net.Valid() && net.open == old(net.open)
    ensures net.attempts == old(net.attempts) +
              if MayConnect(d, unsafe, allowPrivate) then Tried(d.answer.value) else []
    ensures !allowPrivate ==> forall i :: |old(net.attempts)| <= i < |net.attempts| ==> !unsafe(net.attempts[i])
    ensures origin.received == old(origin.received) + got && old(origin.stream) == got + origin.stream
    ensures client.written == old(client.written) + sent && client.received == old(client.received)
    ensures client.stream == old(client.stream)
    ensures stats.captureLimit == old(stats.captureLimit)
    ensures old(origin.written) <= origin.written <= old(origin.written) + request
    ensures (got != "" || status in {FetchOk, ErrTimeout, ErrRecv}) && NoZeroWrites(old(origin.writes)) ==>
              origin.written == old(origin.written) + request
    ensures client.shutdowns == old(client.shutdowns) && origin.shutdowns == old(origin.shutdowns)
    // a complete success
    ensures status == FetchOk ==> got != "" && origin.stream == "" && stats.bytesRelayed == |got|
    ensures status == FetchOk && NoZeroWrites(old(client.writes)) ==> sent == got
    ensures status == FetchOk && stats.capture != null ==>
              fresh(stats.capture) && stats.captureLen <= stats.capture.Length <= stats.captureLimit
              && stats.capture[..stats.captureLen] == got
    ensures status == FetchOk && stats.capture == null ==>
              stats.captureLimit == 0 || |got| > stats.captureLimit || false in allocs || |allocs| < |got|
    // any failure
    ensures status != FetchOk ==> stats.capture == null && stats.captureLen == 0
    ensures status in {ErrDns, ErrConnect, ErrUnsafe} ==> got == "" && sent == "" && origin.written == old(origin.written)
    ensures if ConnectOutcome(d, unsafe, allowPrivate) != FetchOk then status == ConnectOutcome(d, unsafe, allowPrivate)
            else FailureJustified(status, got, origin.stream, old(origin.recvs), origin.recvs, old(client.writes), client.writes,
                                  old(origin.writes), origin.writes)
    ensures status in {ErrTimeout, ErrRecv} && stats.bytesRelayed == 0 ==> got == "" && sent == ""
    ensures got == "" ==> sent == "" && stats.bytesRelayed == 0 && client.writes == old(client.writes)
    ensures NoZeroWrites(old(client.writes)) ==> sent <= got && (sent == got || WriteExcused(old(client.writes), client.writes))
  {
    hide Tried, ConnectOutcome, MayConnect, AllSafe, PeerChecked, FailureJustified, NoZeroWrites;
    got, sent := "", "";
    stats.bytesRelayed, stats.capture, stats.captureLen, stats.overflow := 0, null, 0, false;
    var conn, fd := OriginConnect(net, d, unsafe, allowPrivate);
    if conn != FetchOk {
      return conn, got, sent;
    }
    status, got, sent := Exchange(origin, client, request, stats, allocs);
    net.CloseSocket(fd);
    if status != FetchOk {
      stats.capture, stats.captureLen := null, 0;
    }
  }
}
