/** src/proxy.c: the request-line reader, the CONNECT header consumer and the two-way relay. */
module Tunnel {
  import opened Sockets

  const LINE_BUF := 2051           // MAX_URL_LEN + 3
  const HEADER_MAX := 8192
  const CHUNK := 16384
  const HALF_CLOSE_MS := 5000

  datatype ReadStatus = LineOk | TooLarge | TimedOut | Closed | Failed | BadBytes

  // ---------- the request line ----------

  /** No newline and no NUL. */
  ghost predicate Plain(s: string) { '\n' !in s && '\0' !in s }

  /** A timeout or failure is reported only when recv reported it. */
  ghost predicate Justified(status: ReadStatus, before: seq<RecvChoice>, after: seq<RecvChoice>) {
    (status == TimedOut ==> Excused(Again, before, after)) && (status == Failed ==> Excused(Other, before, after))
  }

  /** What a reader may have consumed when it reports `status`. */
  ghost predicate LineRead(status: ReadStatus, used: string, rest: string, bufLen: nat) {
    var n := |used|;
    match status
    case LineOk => 0 < n < bufLen && used[n - 1] == '\n' && Plain(used[..n - 1])
    case BadBytes => 0 < n < bufLen && used[n - 1] == '\0' && Plain(used[..n - 1])
    case TooLarge => n == bufLen - 1 && Plain(used)
    case Closed => rest == "" && n < bufLen - 1 && Plain(used)
    case _ => n < bufLen - 1 && Plain(used)
  }

  /** Reads byte by byte up to and including the first newline, and nothing beyond it. */
  method ReadRequestLine(s: Socket, bufLen: nat) returns (status: ReadStatus, line: string)
    requires bufLen > 0
    modifies s`stream, s`received, s`recvs
    ensures s.received == old(s.received) + line && old(s.stream) == line + s.stream
    ensures LineRead(status, line, s.stream, bufLen) && Justified(status, old(s.recvs), s.recvs)
    ensures forall c :: c in s.recvs ==> c in old(s.recvs)
  {
    line := "";
    while |line| + 1 < bufLen
      invariant |line| < bufLen && Plain(line) && forall c :: c in s.recvs ==> c in old(s.recvs)
      invariant s.received == old(s.received) + line && old(s.stream) == line + s.stream
      decreases |s.recvs|
    {
      var n, data, e := s.Recv(1);
      if n < 0 {
        if e == Again {
          return TimedOut, line;
        }
        if e == Intr {
          continue;
        }
        return Failed, line;
      }
      if n == 0 {
        return Closed, line;
      }
      line := line + data;
      assert line[..|line| - 1] + data == line;
      if data == "\0" {
        return BadBytes, line;
      }
      if data == "\n" {
        return LineOk, line;
      }
    }
    return TooLarge, line;
  }

  // ---------- the headers after a CONNECT line ----------

  /** From the line start `j` to `i` there is nothing but CRs. */
  ghost predicate OnlyCrs(h: string, j: nat, i: nat) {
    j <= i <= |h| && (j == 0 || h[j - 1] == '\n') && forall k :: j <= k < i ==> h[k] == '\r'
  }

  /** A line made only of CRs ends with the newline at `i`. */
  ghost predicate BlankLineAt(h: string, i: nat) {
    i < |h| && h[i] == '\n' && exists j: nat :: OnlyCrs(h, j, i)
  }

  /** Characters other than CR since the last newline. */
  function LineLength(h: string): nat {
    if h == "" then 0
    else
      var c, front := h[|h| - 1], h[..|h| - 1];
      if c == '\n' then 0 else if c == '\r' then LineLength(front) else LineLength(front) + 1
  }

  lemma {:induction false} EmptyLine(h: string, i: nat)
    requires i <= |h|
    ensures LineLength(h[..i]) == 0 <==> exists j: nat :: OnlyCrs(h, j, i)
  {
    if i == 0 {
      assert OnlyCrs(h, 0, 0);
    } else {
      var front := h[..i];
      assert front[..i - 1] == h[..i - 1];
      EmptyLine(h, i - 1);
      if h[i - 1] == '\n' {
        assert OnlyCrs(h, i, i);
      } else if h[i - 1] == '\r' {
        var p := i - 1;
        if j: nat :| OnlyCrs(h, j, i) { assert OnlyCrs(h, j, p); }
        if j: nat :| OnlyCrs(h, j, p) { assert OnlyCrs(h, j, i); }
      } else {
        assert forall j: nat :: OnlyCrs(h, j, i) ==> j == i;
      }
    }
  }

  lemma BlankIffEmptyLine(h: string, i: nat)
    requires i < |h| && h[i] == '\n'
    ensures BlankLineAt(h, i) <==> LineLength(h[..i]) == 0
  {
    EmptyLine(h, i);
  }

  ghost predicate NoBlankLine(h: string) { forall i: nat :: i < |h| ==> !BlankLineAt(h, i) }

  lemma NoBlankYet(h: string, c: char)
    requires NoBlankLine(h) && (c == '\n' ==> LineLength(h) != 0)
    ensures NoBlankLine(h + [c])
  {
    var g := h + [c];
    forall i: nat | i < |g| ensures !BlankLineAt(g, i) {
      if g[i] == '\n' {
        BlankIffEmptyLine(g, i);
        assert i < |h| ==> g[..i] == h[..i];
        assert i == |h| ==> g[..i] == h;
        if i < |h| { BlankIffEmptyLine(h, i); }
      }
    }
  }

  /** What the consumer may have taken when it reports `status`. */
  ghost predicate HeadersRead(status: ReadStatus, used: string, rest: string) {
    var n := |used|;
    match status
    case LineOk => 0 < n <= HEADER_MAX && BlankLineAt(used, n - 1) && NoBlankLine(used[..n - 1])
    case TooLarge => n == HEADER_MAX + 1 && NoBlankLine(used[..HEADER_MAX])
    case Closed => rest == "" && n <= HEADER_MAX && NoBlankLine(used)
    case BadBytes => false
    case _ => n <= HEADER_MAX && NoBlankLine(used)
  }

  /** Consumes header bytes up to and including the first blank line, and nothing beyond it. */
  method ConsumeHeaders(s: Socket) returns (status: ReadStatus, ghost used: string)
    modifies s`stream, s`received, s`recvs
    ensures s.received == old(s.received) + used && old(s.stream) == used + s.stream
    ensures HeadersRead(status, used, s.stream) && Justified(status, old(s.recvs), s.recvs)
    ensures forall c :: c in s.recvs ==> c in old(s.recvs)
  {
    hide BlankLineAt;
    used := "";
    var total, lineLen := 0, 0;
    while true
      invariant forall c :: c in s.recvs ==> c in old(s.recvs)
      invariant total == |used| <= HEADER_MAX && lineLen == LineLength(used) && NoBlankLine(used)
      invariant s.received == old(s.received) + used && old(s.stream) == used + s.stream
      decreases |s.recvs|
    {
      var n, data, e := s.Recv(1);
      if n < 0 {
        if e == Again {
          return TimedOut, used;
        }
        if e == Intr {
          continue;
        }
        return Failed, used;
      }
      if n == 0 {
        return Closed, used;
      }
      ghost var before := used;
      used := used + data;
      assert used[..|used| - 1] == before && data == [data[0]];
      total := total + 1;
      if total > HEADER_MAX {
        return TooLarge, used;
      }
      if data[0] == '\n' {
        BlankIffEmptyLine(used, total - 1);
        if lineLen == 0 {
          return LineOk, used;
        }
        lineLen := 0;
      } else if data[0] != '\r' {
        lineLen := lineLen + 1;
      }
      NoBlankYet(before, data[0]);
    }
  }

  // ---------- relay traces ----------

  datatype Side = ClientToOrigin | OriginToClient

  /** What poll reports: which sockets are readable, that the timeout passed, or an error. */
  datatype PollChoice = Ready(client: bool, origin: bool) | Idle | PollFail(e: Errno)

  /** What a relay does, in order. `Sent` follows the `Got` it forwards; `full` is false when the
      write failed part way. `Retry` is a recv that had nothing to give after all. */
  datatype Event =
    | Polled(timeout: int, choice: PollChoice)
    | Got(side: Side, bytes: string)
    | Sent(side: Side, bytes: string, full: bool)
    | Shut(side: Side)
    | Retry(side: Side)

  ghost function GotBytes(log: seq<Event>, side: Side): string {
    if log == [] then ""
    else
      var e := log[|log| - 1];
      GotBytes(log[..|log| - 1], side) + if e.Got? && e.side == side then e.bytes else ""
  }

  ghost function SentBytes(log: seq<Event>, side: Side): string {
    if log == [] then ""
    else
      var e := log[|log| - 1];
      SentBytes(log[..|log| - 1], side) + if e.Sent? && e.side == side then e.bytes else ""
  }

  /** Bytes of the chunks forwarded completely. */
  ghost function FullyForwarded(log: seq<Event>): nat {
    if log == [] then 0
    else
      var e := log[|log| - 1];
      FullyForwarded(log[..|log| - 1]) + if e.Sent? && e.full then |e.bytes| else 0
  }

  ghost function Shuts(log: seq<Event>, side: Side): nat {
    if log == [] then 0 else Shuts(log[..|log| - 1], side) + if log[|log| - 1] == Shut(side) then 1 else 0
  }

  ghost function Retries(log: seq<Event>, side: Side): nat {
    if log == [] then 0 else Retries(log[..|log| - 1], side) + if log[|log| - 1] == Retry(side) then 1 else 0
  }

  /** What the polls reported, in order. */
  ghost function Polls(log: seq<Event>): seq<PollChoice> {
    if log == [] then []
    else Polls(log[..|log| - 1]) + if log[|log| - 1].Polled? then [log[|log| - 1].choice] else []
  }

  predicate IsReady(c: PollChoice, side: Side) { c.Ready? && if side == ClientToOrigin then c.client else c.origin }

  /** The event reads from this side. */
  predicate Reads(e: Event, side: Side) { (e.Got? || e.Shut? || e.Retry?) && e.side == side }

  /** How often this side was read since the last poll. */
  ghost function Served(log: seq<Event>, side: Side): nat {
    if log == [] || log[|log| - 1].Polled? then 0
    else Served(log[..|log| - 1], side) + if Reads(log[|log| - 1], side) then 1 else 0
  }

  /** The last poll reported this side readable, while it was open. */
  ghost predicate Due(log: seq<Event>, side: Side) {
    log != [] && var n := |log| - 1;
    if log[n].Polled? then IsReady(log[n].choice, side) && Shuts(log[..n], side) == 0 else Due(log[..n], side)
  }

  /** Since the last poll, each side that it reported readable was read once, and no other. */
  ghost predicate Attended(log: seq<Event>) { forall side :: Served(log, side) == if Due(log, side) then 1 else 0 }

  ghost predicate Unserved(log: seq<Event>, side: Side) { Due(log, side) && Served(log, side) == 0 }

  /** The rule that each event obeys, given the events before it. */
  ghost predicate Allowed(before: seq<Event>, e: Event) {
    && (before == [] || !(before[|before| - 1].Sent? && !before[|before| - 1].full))
    && match e
       case Polled(t, _) =>
         InPhase(before) && PollsAtLeast(before, t) && (AnyShut(before) ==> t <= HALF_CLOSE_MS) && Attended(before)
       case Got(side, bytes) => InPhase(before) && Shuts(before, side) == 0 && bytes != "" && Unserved(before, side)
       case Sent(side, bytes, full) =>
         && before != [] && var g := before[|before| - 1];
         g.Got? && g.side == side && if full then bytes == g.bytes else bytes < g.bytes
       case Shut(side) => InPhase(before) && Shuts(before, side) == 0 && Unserved(before, side)
       case Retry(side) => InPhase(before) && Shuts(before, side) == 0 && Unserved(before, side)
  }

  /** No chunk is waiting to be forwarded. */
  ghost predicate InPhase(log: seq<Event>) { log == [] || !log[|log| - 1].Got? }

  ghost predicate AnyShut(log: seq<Event>) { Shuts(log, ClientToOrigin) + Shuts(log, OriginToClient) > 0 }

  /** Every poll so far waited at least `t`. */
  ghost predicate PollsAtLeast(log: seq<Event>, t: int) {
    log == [] || (PollsAtLeast(log[..|log| - 1], t) && (log[|log| - 1].Polled? ==> t <= log[|log| - 1].timeout))
  }

  /** How long the next poll waits: `ms` milliseconds, but at most 5000 once a direction is shut. */
  ghost function WaitAfter(log: seq<Event>, ms: int): int { if AnyShut(log) && ms > HALF_CLOSE_MS then HALF_CLOSE_MS else ms }

  /** Every poll so far waited for just as long as that. */
  ghost predicate Timed(log: seq<Event>, ms: int) {
    log == [] || var n := |log| - 1; Timed(log[..n], ms) && (log[n].Polled? ==> log[n].timeout == WaitAfter(log[..n], ms))
  }

  /** The idle time in milliseconds, until a direction is shut; from then on the smaller of that and 5000. */
  ghost predicate WaitsFor(log: seq<Event>, idleSeconds: nat) {
    forall n :: 0 <= n < |log| && log[n].Polled? ==>
                  log[n].timeout == if 5000 < idleSeconds * 1000 && exists m :: 0 <= m < n && log[m].Shut? then 5000
                                    else idleSeconds * 1000
  }

  lemma {:induction false} TimedWaits(log: seq<Event>, idleSeconds: nat)
    requires Timed(log, idleSeconds * 1000)
    ensures WaitsFor(log, idleSeconds)
  {
    if log != [] {
      var n := |log| - 1;
      TimedWaits(log[..n], idleSeconds);
      SomeShut(log[..n]);
      assert forall m :: 0 <= m < n ==> log[..n][m] == log[m];
    }
  }

  lemma {:induction false} SomeShut(log: seq<Event>)
    ensures AnyShut(log) <==> exists m :: 0 <= m < |log| && log[m].Shut?
  {
    if log != [] {
      var n := |log| - 1;
      SomeShut(log[..n]);
      if log[n].Shut? { assert log[n].side == ClientToOrigin || log[n].side == OriginToClient; }
    }
  }

  ghost predicate Lawful(log: seq<Event>) {
    log == [] || (Lawful(log[..|log| - 1]) && Allowed(log[..|log| - 1], log[|log| - 1]))
  }

  ghost predicate Broken(log: seq<Event>) { log != [] && log[|log| - 1].Sent? && !log[|log| - 1].full }

  ghost predicate BrokenOn(log: seq<Event>, side: Side) { Broken(log) && log[|log| - 1].side == side }

  /** Bytes written are an in-order prefix of the bytes received on that side, and all of them
      whenever no chunk is in hand and no write has failed. */
  lemma {:induction false} SentIsPrefix(log: seq<Event>, side: Side)
    requires Lawful(log)
    ensures SentBytes(log, side) <= GotBytes(log, side)
    ensures InPhase(log) && !Broken(log) ==> SentBytes(log, side) == GotBytes(log, side)
    ensures !InPhase(log) ==> var e := log[|log| - 1];
              GotBytes(log, side) == SentBytes(log, side) + if e.side == side then e.bytes else ""
    ensures Broken(log) ==> log[|log| - 1].side != side ==> SentBytes(log, side) == GotBytes(log, side)
  {
    if log != [] {
      var n := |log| - 1;
      SentIsPrefix(log[..n], side);
      var e := log[n];
      if e.Sent? && e.side == side {
        var g := log[..n][n - 1];
        assert SentBytes(log, side) == SentBytes(log[..n], side) + e.bytes;
        assert GotBytes(log, side) == SentBytes(log[..n], side) + g.bytes;
      }
    }
  }

  lemma {:induction false} ShutsMonotone(log: seq<Event>, n: nat, side: Side)
    requires n <= |log|
    ensures Shuts(log[..n], side) <= Shuts(log, side)
    decreases |log|
  {
    if n == |log| {
      assert log[..n] == log;
    } else {
      ShutsMonotone(log[..|log| - 1], n, side);
      assert log[..|log| - 1][..n] == log[..n];
    }
  }

  lemma {:induction false} LawfulPrefix(log: seq<Event>, n: nat)
    requires Lawful(log) && n <= |log|
    ensures Lawful(log[..n])
    ensures n < |log| ==> Allowed(log[..n], log[n])
    decreases |log|
  {
    if n == |log| {
      assert log[..n] == log;
    } else if n < |log| - 1 {
      LawfulPrefix(log[..|log| - 1], n);
      assert log[..|log| - 1][..n] == log[..n];
    }
  }

  /** A direction is shut down at most once, only after everything received on it was written, and it
      is never read again. */
  lemma ShutOnceAfterAll(log: seq<Event>, n: nat, m: nat, side: Side)
    requires Lawful(log) && n < m < |log| && log[n] == Shut(side)
    ensures SentBytes(log[..n], side) == GotBytes(log[..n], side)
    ensures log[m] != Shut(side) && !(log[m].Got? && log[m].side == side)
  {
    hide Lawful, GotBytes, SentBytes, Shuts, PollsAtLeast;
    LawfulPrefix(log, n);
    SentIsPrefix(log[..n], side);
    LawfulPrefix(log, m);
    ShutCounted(log, n, side);
    assert log[..m][..n + 1] == log[..n + 1];
    ShutsMonotone(log[..m], n + 1, side);
  }

  lemma ShutCounted(log: seq<Event>, n: nat, side: Side)
    requires n < |log| && log[n] == Shut(side)
    ensures Shuts(log[..n + 1], side) > 0
  {
    assert log[..n + 1][..n] == log[..n];
  }

  lemma {:induction false} PollsAtLeastAt(log: seq<Event>, t: int, n: nat)
    requires PollsAtLeast(log, t) && n < |log| && log[n].Polled?
    ensures t <= log[n].timeout
    decreases |log|
  {
    if n < |log| - 1 { PollsAtLeastAt(log[..|log| - 1], t, n); }
  }

  /** The poll timeout never grows, and is at most 5000 ms once a direction is closed. */
  lemma TimeoutShrinks(log: seq<Event>, n: nat, m: nat)
    requires Lawful(log) && n < m < |log| && log[m].Polled?
    ensures log[n].Polled? ==> log[m].timeout <= log[n].timeout
    ensures log[n].Shut? ==> log[m].timeout <= HALF_CLOSE_MS
  {
    LawfulPrefix(log, m);
    var before := log[..m];
    if log[n].Polled? {
      PollsAtLeastAt(before, log[m].timeout, n);
    } else if log[n].Shut? {
      var side := log[n].side;
      var upTo := before[..n + 1];
      assert upTo[..n] == log[..n] && upTo[n] == Shut(side);
      assert Shuts(upTo, side) >= 1;
      ShutsMonotone(before, n + 1, side);
      assert side == ClientToOrigin || side == OriginToClient;
    }
  }

  lemma {:induction false} NotServed(log: seq<Event>, n: nat, side: Side, j: nat)
    requires n < j < |log| && (forall i :: n < i < |log| ==> !log[i].Polled?) && Served(log, side) == 0
    ensures !Reads(log[j], side)
    decreases |log|
  {
    var t := log[..|log| - 1];
    if j < |t| { NotServed(t, n, side, j); }
  }

  lemma {:induction false} ServedOnce(log: seq<Event>, n: nat, side: Side) returns (i: nat)
    requires n < |log| && log[n].Polled? && (forall i :: n < i < |log| ==> !log[i].Polled?) && Served(log, side) == 1
    ensures n < i < |log| && Reads(log[i], side)
    ensures forall j :: n < j < |log| && Reads(log[j], side) ==> j == i
    decreases |log|
  {
    var t := log[..|log| - 1];
    if Reads(log[|log| - 1], side) {
      i := |log| - 1;
      forall j | n < j < |t| ensures !Reads(log[j], side) {
        NotServed(t, n, side, j);
        assert t[j] == log[j];
      }
    } else {
      i := ServedOnce(t, n, side);
      forall j | n < j < |log| && Reads(log[j], side) ensures j == i { assert t[j] == log[j]; }
    }
  }

  lemma {:induction false} DueSince(log: seq<Event>, n: nat, side: Side)
    requires n < |log| && log[n].Polled? && forall i :: n < i < |log| ==> !log[i].Polled?
    ensures Due(log, side) <==> IsReady(log[n].choice, side) && Shuts(log[..n], side) == 0
    decreases |log|
  {
    if n < |log| - 1 {
      DueSince(log[..|log| - 1], n, side);
      assert log[..|log| - 1][..n] == log[..n];
    }
  }

  /** Between two polls, a direction that was open and reported readable is read exactly once. */
  lemma ReadyIsReadOnce(log: seq<Event>, n: nat, m: nat, side: Side) returns (i: nat)
    requires Lawful(log) && n < m < |log| && log[n].Polled? && log[m].Polled? && forall j :: n < j < m ==> !log[j].Polled?
    requires IsReady(log[n].choice, side) && Shuts(log[..n], side) == 0
    ensures n < i < m && Reads(log[i], side) && forall j :: n < j < m && Reads(log[j], side) ==> j == i
  {
    hide Lawful, Shuts, Served, Due, PollsAtLeast;
    LawfulPrefix(log, m);
    var t := log[..m];
    assert t[..n] == log[..n];
    DueSince(t, n, side);
    i := ServedOnce(t, n, side);
    forall j | n < j < m && Reads(log[j], side) ensures j == i { assert t[j] == log[j]; }
  }

  // ---------- the relay ----------

  datatype Step = Forwarded(n: nat) | Finished | Nothing | PeerGone

  lemma Append(log: seq<Event>, e: Event)
    ensures (log + [e])[..|log|] == log && (log + [e])[|log + [e]| - 1] == e
    ensures forall side :: GotBytes(log + [e], side) ==
                           GotBytes(log, side) + if e.Got? && e.side == side then e.bytes else ""
    ensures forall side :: SentBytes(log + [e], side) ==
                           SentBytes(log, side) + if e.Sent? && e.side == side then e.bytes else ""
    ensures forall side :: Shuts(log + [e], side) == Shuts(log, side) + if e == Shut(side) then 1 else 0
    ensures forall side :: Retries(log + [e], side) == Retries(log, side) + if e == Retry(side) then 1 else 0
    ensures forall side :: Served(log + [e], side) ==
                           if e.Polled? then 0 else Served(log, side) + if Reads(e, side) then 1 else 0
    ensures forall side :: Due(log + [e], side) <==>
                           if e.Polled? then IsReady(e.choice, side) && Shuts(log, side) == 0 else Due(log, side)
    ensures Polls(log + [e]) == Polls(log) + if e.Polled? then [e.choice] else []
    ensures FullyForwarded(log + [e]) == FullyForwarded(log) + if e.Sent? && e.full then |e.bytes| else 0
    ensures Lawful(log) && Allowed(log, e) ==> Lawful(log + [e])
    ensures forall t :: PollsAtLeast(log, t) && (e.Polled? ==> t <= e.timeout) ==> PollsAtLeast(log + [e], t)
    ensures forall ms :: Timed(log, ms) && (e.Polled? ==> e.timeout == WaitAfter(log, ms)) ==> Timed(log + [e], ms)
  {
    hide IsReady, Reads, Allowed;
    var more := log + [e];
    assert more[..|more| - 1] == log;
  }

  /** The sockets have moved exactly the bytes that the log records since their state `r0`, `w0`. */
  ghost predicate Tracks(log: seq<Event>, side: Side, r: string, w: string, r0: string, w0: string) {
    r == r0 + GotBytes(log, side) && w == w0 + SentBytes(log, side)
  }

  /** Nothing of the peer's stream is lost: what was handed out, then what is still to come. */
  ghost predicate Intact(received: string, stream: string, all: string) { received + stream == all }

  /** The peer has closed, or reading from it failed. */
  ghost predicate Over(stream: string, recvs: seq<RecvChoice>) { stream == "" || RecvFail(Other) in recvs }

  /** A recv reported that there was nothing to give. */
  ghost predicate Empty(recvs0: seq<RecvChoice>, recvs: seq<RecvChoice>) {
    RecvFail(Again) in recvs0 || RecvFail(Intr) in recvs0 || recvs == []
  }

  /** A direction that was shut is over, and reading it in vain was the kernel's choice; `recvs0` is its script at
      the start. */
  ghost predicate Accounted(log: seq<Event>, side: Side, stream: string, recvs: seq<RecvChoice>, recvs0: seq<RecvChoice>) {
    && (Shuts(log, side) > 0 ==> Over(stream, recvs0))
    && (Retries(log, side) > 0 ==> Empty(recvs0, recvs))
    && forall c :: c in recvs ==> c in recvs0
  }

  /** The log after a round's dealings with one side. */
  ghost predicate Extends(log: seq<Event>, log0: seq<Event>, side: Side) {
    && (forall s :: s != side ==> && GotBytes(log, s) == GotBytes(log0, s) && SentBytes(log, s) == SentBytes(log0, s)
                                  && Shuts(log, s) == Shuts(log0, s) && Retries(log, s) == Retries(log0, s)
                                  && Served(log, s) == Served(log0, s))
    && (forall s :: Due(log, s) <==> Due(log0, s))
    && Served(log, side) == Served(log0, side) + 1
    && Polls(log) == Polls(log0)
    && (forall t :: PollsAtLeast(log0, t) ==> PollsAtLeast(log, t))
    && forall ms :: Timed(log0, ms) ==> Timed(log, ms)
  }

  /** After this log the relay may read from this side. */
  ghost predicate MayRead(log: seq<Event>, side: Side) {
    Lawful(log) && InPhase(log) && !Broken(log) && Shuts(log, side) == 0 && Unserved(log, side)
  }

  /** What a chunk received and forwarded, or cut short, adds to the log. */
  lemma ChunkLogged(log0: seq<Event>, side: Side, data: string, sent: nat, full: bool)
    requires sent <= |data| && data != ""
    ensures var log := log0 + [Got(side, data)] + [Sent(side, data[..sent], full)];
            && Extends(log, log0, side)
            && GotBytes(log, side) == GotBytes(log0, side) + data && SentBytes(log, side) == SentBytes(log0, side) + data[..sent]
            && Shuts(log, side) == Shuts(log0, side) && Retries(log, side) == Retries(log0, side)
            && log[|log| - 1] == Sent(side, data[..sent], full)
            && FullyForwarded(log) == FullyForwarded(log0) + (if full then sent else 0)
            && (MayRead(log0, side) && (if full then sent == |data| else sent < |data|) ==> Lawful(log))
  {
    hide GotBytes, SentBytes, Shuts, Retries, FullyForwarded, Lawful, PollsAtLeast, Timed, Polls, Served, Due;
    Append(log0, Got(side, data));
    Append(log0 + [Got(side, data)], Sent(side, data[..sent], full));
  }

  /** What the end of a direction, or a read in vain, adds to the log. */
  lemma ReadLogged(log0: seq<Event>, side: Side, e: Event)
    requires e == Shut(side) || e == Retry(side)
    ensures var log := log0 + [e];
            && Extends(log, log0, side) && log[|log| - 1] == e
            && GotBytes(log, side) == GotBytes(log0, side) && SentBytes(log, side) == SentBytes(log0, side)
            && Shuts(log, side) == Shuts(log0, side) + (if e.Shut? then 1 else 0)
            && Retries(log, side) == Retries(log0, side) + (if e.Retry? then 1 else 0)
            && FullyForwarded(log) == FullyForwarded(log0)
            && (MayRead(log0, side) ==> Lawful(log))
  {
    hide GotBytes, SentBytes, Shuts, Retries, FullyForwarded, Lawful, PollsAtLeast, Timed, Polls, Served, Due;
    Append(log0, e);
  }

  /** One readable direction: receive a chunk and forward it, or note that the peer has finished. */
  method Forward(src: Socket, dst: Socket, side: Side, ghost log0: seq<Event>, ghost r0: string, ghost w0: string,
                 ghost all: string)
    returns (step: Step, ghost log: seq<Event>)
    requires src != dst && Tracks(log0, side, src.received, dst.written, r0, w0) && Intact(src.received, src.stream, all)
    modifies src`stream, src`received, src`recvs, dst`written, dst`writes, dst`shutdowns
    ensures Tracks(log, side, src.received, dst.written, r0, w0)
    ensures Intact(src.received, src.stream, all)
    ensures Extends(log, log0, side)
    ensures Shuts(log, side) == Shuts(log0, side) + if step == Finished then 1 else 0
    ensures Retries(log, side) == Retries(log0, side) + if step == Nothing then 1 else 0
    ensures dst.shutdowns == old(dst.shutdowns) + if step == Finished then 1 else 0
    ensures step == Finished ==> Over(src.stream, old(src.recvs))
    ensures step == Nothing ==> Empty(old(src.recvs), src.recvs)
    ensures step == PeerGone ==> BrokenOn(log, side) && WriteExcused(old(dst.writes), dst.writes)
    ensures forall c :: c in src.recvs ==> c in old(src.recvs)
    ensures forall c :: c in dst.writes ==> c in old(dst.writes)
    ensures NoZeroWrites(old(dst.writes)) ==> NoZeroWrites(dst.writes)
    ensures MayRead(log0, side) && NoZeroWrites(old(dst.writes)) ==>
              && Lawful(log) && InPhase(log) && (step == PeerGone <==> Broken(log))
              && FullyForwarded(log) == FullyForwarded(log0) + if step.Forwarded? then step.n else 0
  {
    hide GotBytes, SentBytes, Shuts, Retries, FullyForwarded, Lawful, PollsAtLeast, Timed, Polls, Served, Due, Extends, NoZeroWrites;
    var n, data, e := src.Recv(CHUNK);
    assert old(src.received) + (data + src.stream) == (old(src.received) + data) + src.stream;
    if n > 0 {
      var rc, sent := SendAll(dst, data);
      ChunkLogged(log0, side, data, sent, rc >= 0);
      log := log0 + [Got(side, data)] + [Sent(side, data[..sent], rc >= 0)];
      step := if rc < 0 then PeerGone else Forwarded(n);
      assert r0 + GotBytes(log0, side) + data == r0 + (GotBytes(log0, side) + data);
      assert w0 + SentBytes(log0, side) + data[..sent] == w0 + (SentBytes(log0, side) + data[..sent]);
    } else if n == 0 || e == Other {
      dst.Shutdown();
      ReadLogged(log0, side, Shut(side));
      log := log0 + [Shut(side)];
      step := Finished;
    } else {
      ReadLogged(log0, side, Retry(side));
      log := log0 + [Retry(side)];
      step := Nothing;
    }
  }

  /** Which directions are still open. */
  datatype Open = Open(client: bool, origin: bool)

  function IsOpen(o: Open, side: Side): bool { if side == ClientToOrigin then o.client else o.origin }

  function CloseSide(o: Open, side: Side): Open { if side == ClientToOrigin then o.(client := false) else o.(origin := false) }

  /** Why a relay stopped. */
  datatype End = BothFinished | WriteFailed | Quiet

  /** The last poll made was idle or failed for good, or the kernel's script is used up. */
  ghost predicate WentQuiet(polls: seq<PollChoice>, n: nat) {
    n == |polls| || (0 < n < |polls| && (polls[n - 1].Idle? || (polls[n - 1].PollFail? && polls[n - 1].e != Intr)))
  }

  /** The relay loop's variables agree with its log. */
  ghost predicate Steady(log: seq<Event>, open: Open, timeout: int, ms: int, total: nat, lawful: bool) {
    && (forall s :: Shuts(log, s) == if IsOpen(open, s) then 0 else 1)
    && PollsAtLeast(log, timeout) && Timed(log, ms) && timeout == WaitAfter(log, ms)
    && (lawful ==> Lawful(log) && InPhase(log) && !Broken(log) && total == FullyForwarded(log))
  }

  lemma SteadyPoll(log: seq<Event>, open: Open, timeout: int, ms: int, total: nat, lawful: bool, choice: PollChoice)
    requires Steady(log, open, timeout, ms, total, lawful) && Attended(log)
    ensures var more := log + [Polled(timeout, choice)];
            && Steady(more, open, timeout, ms, total, lawful) && Polls(more) == Polls(log) + [choice]
            && (forall s :: Served(more, s) == 0 && (Due(more, s) <==> IsReady(choice, s) && IsOpen(open, s)))
            && (!choice.Ready? ==> Attended(more))
  {
    hide GotBytes, SentBytes, Shuts, Retries, FullyForwarded, Lawful, PollsAtLeast, Timed, Polls, Served, Due;
    Append(log, Polled(timeout, choice));
  }

  lemma SteadyIsTimed(log: seq<Event>, open: Open, timeout: int, ms: int, total: nat, lawful: bool)
    requires Steady(log, open, timeout, ms, total, lawful)
    ensures Timed(log, ms) && (lawful ==> Lawful(log) && InPhase(log) && !Broken(log) && total == FullyForwarded(log))
  {
  }

  lemma SteadyStart(ms: int, lawful: bool)
    ensures Steady([], Open(true, true), ms, ms, 0, lawful) && Attended([])
    ensures Polls([]) == []
  {
  }

  lemma SteadyFinished(log: seq<Event>, open: Open, timeout: int, ms: int, total: nat, lawful: bool)
    requires Steady(log, open, timeout, ms, total, lawful)
    ensures !open.client && !open.origin ==> forall s :: Shuts(log, s) == 1
  {
    hide Lawful, PollsAtLeast, FullyForwarded;
  }

  /** Serves one ready direction and updates the loop's variables. */
  method ServeSide(src: Socket, dst: Socket, side: Side, open: Open, timeout: int, ghost ms: int, total: nat,
                   ghost log0: seq<Event>, ghost r0: string, ghost w0: string, ghost all: string, ghost lawful: bool)
    returns (open': Open, timeout': int, total': nat, gone: bool, ghost log: seq<Event>)
    requires src != dst && Tracks(log0, side, src.received, dst.written, r0, w0) && Intact(src.received, src.stream, all)
    requires Steady(log0, open, timeout, ms, total, lawful) && IsOpen(open, side) && Unserved(log0, side)
    requires lawful ==> NoZeroWrites(dst.writes)
    modifies src`stream, src`received, src`recvs, dst`written, dst`writes, dst`shutdowns
    ensures Tracks(log, side, src.received, dst.written, r0, w0)
    ensures Intact(src.received, src.stream, all)
    ensures Extends(log, log0, side)
    ensures dst.shutdowns - Shuts(log, side) == old(dst.shutdowns) - Shuts(log0, side)
    ensures Shuts(log, side) > 0 ==> Over(src.stream, old(src.recvs))
    ensures Retries(log, side) > Retries(log0, side) ==> Empty(old(src.recvs), src.recvs)
    ensures forall c :: c in src.recvs ==> c in old(src.recvs)
    ensures forall c :: c in dst.writes ==> c in old(dst.writes)
    ensures gone ==> BrokenOn(log, side) && WriteExcused(old(dst.writes), dst.writes)
    ensures lawful ==> NoZeroWrites(dst.writes)
    ensures !gone ==> Steady(log, open', timeout', ms, total', lawful)
    ensures forall s :: s != side ==> (IsOpen(open', s) <==> IsOpen(open, s))
    ensures gone ==> lawful ==> Lawful(log) && Broken(log) && total' == FullyForwarded(log)
  {
    hide GotBytes, SentBytes, Shuts, Retries, FullyForwarded, Lawful, PollsAtLeast, Timed, Polls, Served, Due;
    open', timeout', total', gone := open, timeout, total, false;
    var step;
    step, log := Forward(src, dst, side, log0, r0, w0, all);
    if step == PeerGone {
      gone := true;
      return;
    }
    if step.Forwarded? {
      total' := total + step.n;
    }
    if step == Finished {
      open' := CloseSide(open, side);
      if timeout > HALF_CLOSE_MS {
        PollsWeaken(log, timeout, HALF_CLOSE_MS);
        timeout' := HALF_CLOSE_MS;
      }
    }
  }

  /** The two sockets as they were when the relay began. */
  datatype Base = Base(cRecv: string, cWritten: string, cAll: string, cShut: nat,
                       cScript: seq<RecvChoice>, cWrites: seq<WriteChoice>,
                       oRecv: string, oWritten: string, oAll: string, oShut: nat,
                       oScript: seq<RecvChoice>, oWrites: seq<WriteChoice>)

  ghost function BaseOf(client: Socket, origin: Socket): Base
    reads client, origin
  {
    Base(client.received, client.written, client.received + client.stream, client.shutdowns, client.recvs, client.writes,
         origin.received, origin.written, origin.received + origin.stream, origin.shutdowns, origin.recvs, origin.writes)
  }

  /** Since `base`, the sockets have done exactly what the log records. */
  ghost predicate Tied(client: Socket, origin: Socket, log: seq<Event>, base: Base)
    reads client, origin
  {
    && Tracks(log, ClientToOrigin, client.received, origin.written, base.cRecv, base.oWritten)
    && Tracks(log, OriginToClient, origin.received, client.written, base.oRecv, base.cWritten)
    && Intact(client.received, client.stream, base.cAll) && Intact(origin.received, origin.stream, base.oAll)
    && origin.shutdowns == base.oShut + Shuts(log, ClientToOrigin)
    && client.shutdowns == base.cShut + Shuts(log, OriginToClient)
    && Accounted(log, ClientToOrigin, client.stream, client.recvs, base.cScript)
    && Accounted(log, OriginToClient, origin.stream, origin.recvs, base.oScript)
    && (forall c :: c in client.writes ==> c in base.cWrites) && forall c :: c in origin.writes ==> c in base.oWrites
  }

  /** The last event is a write that fell short because writing to that side failed. */
  ghost predicate FailedWrite(client: Socket, origin: Socket, log: seq<Event>, base: Base)
    reads client, origin
  {
    || (BrokenOn(log, ClientToOrigin) && WriteExcused(base.oWrites, origin.writes))
    || (BrokenOn(log, OriginToClient) && WriteExcused(base.cWrites, client.writes))
  }

  /** Serves the directions that poll reported ready, first client to origin, then back. */
  method ServeRound(client: Socket, origin: Socket, ready: PollChoice, open: Open, timeout: int, ghost ms: int, total: nat,
                    ghost log0: seq<Event>, ghost base: Base, ghost lawful: bool)
    returns (open': Open, timeout': int, total': nat, gone: bool, ghost log: seq<Event>)
    requires client != origin && ready.Ready? && Tied(client, origin, log0, base)
    requires Steady(log0, open, timeout, ms, total, lawful)
    requires forall s :: Served(log0, s) == 0 && (Due(log0, s) <==> IsReady(ready, s) && IsOpen(open, s))
    requires lawful ==> NoZeroWrites(client.writes) && NoZeroWrites(origin.writes)
    modifies client, origin
    ensures Tied(client, origin, log, base) && Polls(log) == Polls(log0)
    ensures !gone ==> Attended(log)
    ensures lawful ==> NoZeroWrites(client.writes) && NoZeroWrites(origin.writes)
    ensures !gone ==> Steady(log, open', timeout', ms, total', lawful)
    ensures gone ==> FailedWrite(client, origin, log, base)
    ensures Timed(log, ms)
    ensures gone ==> lawful ==> Lawful(log) && Broken(log) && total' == FullyForwarded(log)
  {
    hide GotBytes, SentBytes, Shuts, Retries, FullyForwarded, Lawful, PollsAtLeast, Timed, Polls, Served, Due;
    hide Steady, BrokenOn, NoZeroWrites, Broken, Intact;
    open', timeout', total', gone, log := open, timeout, total, false, log0;
    SteadyIsTimed(log0, open, timeout, ms, total, lawful);
    ghost var before, stream, script := log0, client.stream, client.recvs;
    if ready.client && open.client {
      open', timeout', total', gone, log := ServeSide(client, origin, ClientToOrigin, open', timeout', ms, total', log,
                                                      base.cRecv, base.oWritten, base.cAll, lawful);
      StillAccounted(before, log, ClientToOrigin, stream, script, client.stream, client.recvs, base.cScript);
    }
    if !gone && ready.origin && open'.origin {
      before, stream, script := log, origin.stream, origin.recvs;
      open', timeout', total', gone, log := ServeSide(origin, client, OriginToClient, open', timeout', ms, total', log,
                                                      base.oRecv, base.cWritten, base.oAll, lawful);
      StillAccounted(before, log, OriginToClient, stream, script, origin.stream, origin.recvs, base.oScript);
    }
  }

  lemma StillAccounted(log0: seq<Event>, log: seq<Event>, side: Side, stream0: string, before: seq<RecvChoice>,
                       stream: string, after: seq<RecvChoice>, recvs0: seq<RecvChoice>)
    requires Accounted(log0, side, stream0, before, recvs0) && forall c :: c in after ==> c in before
    requires Shuts(log, side) > 0 ==> Over(stream, before)
    requires Retries(log, side) > Retries(log0, side) ==> Empty(before, after)
    ensures Accounted(log, side, stream, after, recvs0)
  {
    hide Shuts, Retries;
    assert after != [] ==> after[0] in after;
  }

  /** Copies bytes both ways until both directions are finished, a write fails or the tunnel is idle. */
  method RelayTunnel(client: Socket, origin: Socket, polls: seq<PollChoice>, idleSeconds: nat)
    returns (total: nat, ghost end: End, ghost log: seq<Event>)
    requires client != origin
    modifies client, origin
    ensures Tied(client, origin, log, old(BaseOf(client, origin)))
    ensures end == BothFinished ==> forall s :: Shuts(log, s) == 1
    ensures Polls(log) <= polls && (end == Quiet ==> WentQuiet(polls, |Polls(log)|))
    ensures end != WriteFailed ==> Attended(log)
    ensures end == WriteFailed ==> FailedWrite(client, origin, log, old(BaseOf(client, origin)))
    ensures WaitsFor(log, idleSeconds)
    ensures NoZeroWrites(old(client.writes)) && NoZeroWrites(old(origin.writes)) ==>
              && Lawful(log) && total == FullyForwarded(log)
              && if end == WriteFailed then Broken(log) else InPhase(log) && !Broken(log)
  {
    hide FullyForwarded, Lawful, InPhase, PollsAtLeast, Polls, Steady, NoZeroWrites, Broken, Tied, Shuts, FailedWrite;
    hide Served, Due, Attended, Timed, WaitsFor;
    ghost var base := BaseOf(client, origin);
    ghost var lawful := NoZeroWrites(client.writes) && NoZeroWrites(origin.writes);
    total, log, end := 0, [], Quiet;
    var open, timeout, round, gone := Open(true, true), idleSeconds * 1000, 0, false;
    ghost var ms := timeout;
    SteadyStart(ms, lawful);
    TiedStart(client, origin);
    while (open.client || open.origin) && round < |polls|
      invariant round <= |polls| && Polls(log) == polls[..round] && Steady(log, open, timeout, ms, total, lawful)
      invariant Attended(log)
      invariant Tied(client, origin, log, base)
      invariant lawful ==> NoZeroWrites(client.writes) && NoZeroWrites(origin.writes)
    {
      var choice := polls[round];
      SteadyPoll(log, open, timeout, ms, total, lawful, choice);
      TiedPoll(client, origin, log, base, timeout, choice);
      log := log + [Polled(timeout, choice)];
      assert polls[..round] + [choice] == polls[..round + 1];
      round := round + 1;
      if choice.Idle? || (choice.PollFail? && choice.e != Intr) {
        SteadyIsTimed(log, open, timeout, ms, total, lawful);
        TimedWaits(log, idleSeconds);
        return;
      }
      if choice.PollFail? {
        continue;
      }
      open, timeout, total, gone, log := ServeRound(client, origin, choice, open, timeout, ms, total, log, base, lawful);
      if gone {
        TimedWaits(log, idleSeconds);
        end := WriteFailed;
        return;
      }
    }
    SteadyFinished(log, open, timeout, ms, total, lawful);
    if !open.client && !open.origin {
      end := BothFinished;
    }
    SteadyIsTimed(log, open, timeout, ms, total, lawful);
    TimedWaits(log, idleSeconds);
  }

  lemma TiedStart(client: Socket, origin: Socket)
    ensures Tied(client, origin, [], BaseOf(client, origin))
  {
  }

  lemma TiedPoll(client: Socket, origin: Socket, log: seq<Event>, base: Base, timeout: int, choice: PollChoice)
    requires Tied(client, origin, log, base)
    ensures Tied(client, origin, log + [Polled(timeout, choice)], base)
  {
    hide GotBytes, SentBytes, Shuts, Retries, FullyForwarded, Lawful, PollsAtLeast, Timed, Polls, Served, Due;
    Append(log, Polled(timeout, choice));
  }

  lemma {:induction false} PollsWeaken(log: seq<Event>, t: int, less: int)
    requires PollsAtLeast(log, t) && less <= t
    ensures PollsAtLeast(log, less)
  {
    if log != [] { PollsWeaken(log[..|log| - 1], t, less); }
  }
}
