/** Sockets as byte streams. The kernel's choices (how many bytes a call moves, which error it
    reports) are read from finite scripts, so every statement holds for all of them; an exhausted
    script means the socket timeout expires. */
module Sockets {

  datatype Errno = Again | Intr | Other

  datatype RecvChoice = Take(n: nat) | RecvFail(e: Errno)

  datatype WriteChoice = Accept(n: nat) | WriteFail(e: Errno)

  function Min(a: nat, b: nat): nat { if a < b then a else b }

  /** POSIX: a write of a non-empty buffer to a socket never returns 0. */
  ghost predicate NoZeroWrites(ws: seq<WriteChoice>) {
    forall i :: 0 <= i < |ws| ==> ws[i] != Accept(0)
  }

  /** A failed recv reports an error of the script, or a timeout once the script is exhausted. */
  ghost predicate Excused(e: Errno, before: seq<RecvChoice>, after: seq<RecvChoice>) {
    RecvFail(e) in before || (e == Again && after == [])
  }

  /** A write that fails for good reports an error of the script, or a timeout once the script is exhausted. */
  ghost predicate WriteExcused(before: seq<WriteChoice>, after: seq<WriteChoice>) {
    WriteFail(Again) in before || WriteFail(Other) in before || after == []
  }

  /** A single write: what the next choice of the script makes of it. */
  ghost predicate OneWrite(buf: string, before: string, after: string, w0: seq<WriteChoice>, w: seq<WriteChoice>) {
    if w0 == [] then w == [] && after == before
    else w == w0[1..] && after == before + match w0[0] case Accept(k) => buf[..Min(k, |buf|)] case WriteFail(_) => ""
  }

  class Socket {
    var stream: string             // what the peer will still send before it closes
    var received: string           // what recv has handed out
    var recvs: seq<RecvChoice>
    var written: string            // what write has accepted
    var writes: seq<WriteChoice>
    var shutdowns: nat             // calls of shutdown(SHUT_WR)

    /** recv(fd, buf, cap): n is -1 with `e`, 0 at the end of the stream, or |data|. */
    method Recv(cap: nat) returns (n: int, data: string, e: Errno)
      requires cap > 0
      modifies this`stream, this`received, this`recvs
      ensures received == old(received) + data && old(stream) == data + stream
      ensures n == -1 || n == |data| <= cap
      ensures n <= 0 ==> data == ""
      ensures n == 0 ==> stream == ""
      ensures |recvs| < |old(recvs)| || (recvs == old(recvs) == [] && n == -1 && e == Again)
      ensures n == -1 ==> Excused(e, old(recvs), recvs)
      ensures forall c :: c in recvs ==> c in old(recvs)
    {
      n, data, e := -1, "", Again;
      if recvs != [] {
        var choice := recvs[0];
        recvs := recvs[1..];
        match choice
        case RecvFail(err) => e := err;
        case Take(k) =>
          n := Min(Min(if k == 0 then 1 else k, cap), |stream|);
          data := stream[..n];
          stream := stream[n..];
          received := received + data;
      }
    }

    /** write(fd, buf, len): n is -1 with `e`, or the number of bytes accepted. */
    method Write(buf: string) returns (n: int, e: Errno)
      requires buf != ""
      modifies this`written, this`writes
      ensures n == -1 || 0 <= n <= |buf|
      ensures written == old(written) + if n == -1 then "" else buf[..n]
      ensures n == 0 ==> !NoZeroWrites(old(writes))
      ensures NoZeroWrites(old(writes)) ==> NoZeroWrites(writes)
      ensures |writes| < |old(writes)| || (writes == old(writes) == [] && n == -1 && e == Other)
      ensures n == -1 && e != Intr ==> WriteExcused(old(writes), writes)
      ensures OneWrite(buf, old(written), written, old(writes), writes)
      ensures forall c :: c in writes ==> c in old(writes)
    {
      n, e := -1, Other;
      if writes != [] {
        var choice := writes[0];
        writes := writes[1..];
        match choice
        case WriteFail(err) => e := err;
        case Accept(k) =>
          n := Min(k, |buf|);
          written := written + buf[..n];
      }
    }

    method Shutdown()
      modifies this`shutdowns
      ensures shutdowns == old(shutdowns) + 1
    {
      shutdowns := shutdowns + 1;
    }
  }

  /** A socket at one moment: all its fields. */
  datatype Wire = Wire(stream: string, received: string, recvs: seq<RecvChoice>,
                       written: string, writes: seq<WriteChoice>, shutdowns: nat)

  ghost function WireOf(s: Socket): Wire
    reads s
  {
    Wire(s.stream, s.received, s.recvs, s.written, s.writes, s.shutdowns)
  }

  /** src/util.c: writes all of `buf`, retrying after EINTR; -1 on an error. A short result without
      an error happens only if a write returned 0. */
  method SendAll(s: Socket, buf: string) returns (rc: int, ghost sent: nat)
    modifies s`written, s`writes
    ensures sent <= |buf| && s.written == old(s.written) + buf[..sent]
    ensures rc == -1 || rc == sent
    ensures rc == -1 ==> sent < |buf| && WriteExcused(old(s.writes), s.writes)
    ensures forall c :: c in s.writes ==> c in old(s.writes)
    ensures NoZeroWrites(old(s.writes)) ==> NoZeroWrites(s.writes) && (rc == -1 || rc == |buf|)
  {
    var total := 0;
    while total < |buf|
      invariant 0 <= total <= |buf| && s.written == old(s.written) + buf[..total]
      invariant NoZeroWrites(old(s.writes)) ==> NoZeroWrites(s.writes)
      invariant forall c :: c in s.writes ==> c in old(s.writes)
      decreases |s.writes|, |buf| - total
    {
      var n, e := s.Write(buf[total..]);
      if n < 0 {
        if e == Intr {
          continue;
        }
        return -1, total;
      }
      if n == 0 {
        break;
      }
      assert buf[..total] + buf[total..][..n] == buf[..total + n];
      total := total + n;
    }
    return total, total;
  }
}
