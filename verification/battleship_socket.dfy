/** The byte transfer of the game: whole buffers over a stream socket whose calls may transfer only a
    part, or fail. */
module BattleshipSocket {
  import opened Common

  const SEND_RETRY_LIMIT: nat := 3

  /** The kernel's side of a connection: what it took, what it has to deliver, and the results that send
      and recv gave.  Every call may fail, and may transfer any part of what was asked. */
  class Connection {
    var sent: seq<byte>
    var incoming: seq<byte>
    ghost var sendLog: seq<int>
    ghost var recvLog: seq<int>

    method Send(data: seq<byte>) returns (r: int)
      requires data != []
      modifies this
      ensures r == -1 || 1 <= r <= |data|
      ensures sent == if r == -1 then old(sent) else old(sent) + data[..r]
      ensures sendLog == old(sendLog) + [r]
      ensures incoming == old(incoming) && recvLog == old(recvLog)
    {
      if * {
        r := -1;
      } else {
        r :| 1 <= r <= |data|;
        sent := sent + data[..r];
      }
      sendLog := sendLog + [r];
    }

    /** 0 is a closed connection, -1 an error or an interruption. */
    method Recv(size: nat) returns (r: int, data: seq<byte>)
      requires size > 0
      modifies this
      ensures -1 <= r <= size && r <= |old(incoming)|
      ensures r > 0 ==> data == old(incoming)[..r] && incoming == old(incoming)[r..]
      ensures r <= 0 ==> data == [] && incoming == old(incoming)
      ensures recvLog == old(recvLog) + [r]
      ensures sent == old(sent) && sendLog == old(sendLog)
    {
      var closed: bool := *;
      if * {
        r, data := -1, [];
      } else if closed || incoming == [] {
        r, data := 0, [];
      } else {
        r :| 1 <= r <= size && r <= |incoming|;
        data := incoming[..r];
        incoming := incoming[r..];
      }
      recvLog := recvLog + [r];
    }
  }

  /** Before call e, four calls in a row failed: the first and SEND_RETRY_LIMIT more. */
  ghost predicate TooManyFailed(log: seq<int>, e: int) {
    4 <= e <= |log| && forall i :: e - 4 <= i < e ==> log[i] == -1
  }

  /** 0 exactly when the whole buffer went out, in order; otherwise a proper part of it did.  It gives
      up exactly when four calls in a row have failed, so at most that many calls are
      made for every byte.  `calls` are the results of its calls. */
  method SocketSend(sock: Connection, buf: Option<seq<byte>>) returns (r: int, ghost calls: seq<int>)
    modifies sock
    ensures sock.sendLog == old(sock.sendLog) + calls
    ensures buf.None? ==> r == -1 && sock.sent == old(sock.sent) && calls == []
    ensures buf.Some? ==>
              exists done: nat :: done <= |buf.value|
                && sock.sent == old(sock.sent) + buf.value[..done]
                && (r == 0 <==> done == |buf.value|)
    ensures r == 0 || r == -1
    ensures buf.Some? ==> (r == -1 <==> TooManyFailed(calls, |calls|))
    ensures forall e :: e < |calls| ==> !TooManyFailed(calls, e)
    ensures buf.Some? ==> |calls| <= 4 * |buf.value|
    ensures sock.incoming == old(sock.incoming) && sock.recvLog == old(sock.recvLog)
  {
    calls := [];
    if buf.None? {
      return -1, calls;
    }
    var size := |buf.value|;
    var totalBytesSent := 0;
    var retryCount := 0;
    assert buf.value[..0] == [];
    while totalBytesSent < size
      invariant totalBytesSent <= size && retryCount <= SEND_RETRY_LIMIT
      invariant sock.sent == old(sock.sent) + buf.value[..totalBytesSent]
      invariant sock.sendLog == old(sock.sendLog) + calls
      invariant Trailing(calls, retryCount)
      invariant forall e :: e <= |calls| ==> !TooManyFailed(calls, e)
      invariant |calls| <= (SEND_RETRY_LIMIT + 1) * totalBytesSent + retryCount
      invariant totalBytesSent == size ==> retryCount == 0
      invariant sock.incoming == old(sock.incoming) && sock.recvLog == old(sock.recvLog)
      decreases size - totalBytesSent, SEND_RETRY_LIMIT - retryCount
    {
      ghost var before := totalBytesSent;
      var bytesSent := sock.Send(buf.value[totalBytesSent..]);
      MoreCalls(calls, retryCount, bytesSent);
      calls := calls + [bytesSent];
      if bytesSent == -1 {
        retryCount := retryCount + 1;
        if retryCount > SEND_RETRY_LIMIT {
          return -1, calls;
        }
        continue;
      }
      totalBytesSent := totalBytesSent + bytesSent;
      retryCount := 0;
      assert buf.value[..totalBytesSent] == buf.value[..before] + buf.value[before..][..bytesSent];
    }
    return 0, calls;
  }

  /** Exactly the last n calls failed. */
  ghost predicate Trailing(log: seq<int>, n: nat) {
    && n <= |log| && (forall i :: |log| - n <= i < |log| ==> log[i] == -1)
    && (n < |log| ==> log[|log| - n - 1] != -1)
  }

  lemma MoreCalls(log: seq<int>, n: nat, r: int)
    requires Trailing(log, n) && n <= SEND_RETRY_LIMIT
    ensures Trailing(log + [r], if r == -1 then n + 1 else 0)
    ensures forall e :: e <= |log| ==> (TooManyFailed(log + [r], e) <==> TooManyFailed(log, e))
    ensures TooManyFailed(log + [r], |log| + 1) <==> r == -1 && n == SEND_RETRY_LIMIT
  {
    var log' := log + [r];
    forall e | e <= |log|
      ensures TooManyFailed(log', e) <==> TooManyFailed(log, e)
    {
      assert forall i :: 0 <= i < e ==> log'[i] == log[i];
    }
    if r != -1 || n < SEND_RETRY_LIMIT {
      var x := if r == -1 then |log| - n - 1 else |log|;
      assert x >= 0 ==> log'[x] != -1;
    }
  }

  /** 0 only when the buffer holds exactly the next `size` bytes of the stream, however they were cut;
      otherwise fewer were taken, because the last call was interrupted, failed or found the connection
      closed, and no earlier one did.  `calls` are the results of its calls. */
  method SocketRecv(sock: Connection, buf: array?<byte>, size: nat) returns (r: int, ghost calls: seq<int>)
    requires buf != null ==> size <= buf.Length
    modifies sock, if buf == null then {} else {buf}
    ensures r == 0 || r == -1
    ensures buf == null ==> r == -1 && sock.incoming == old(sock.incoming)
    ensures buf != null ==>
              exists taken: nat :: taken <= size && taken <= |old(sock.incoming)|
                && buf[..taken] == old(sock.incoming)[..taken]
                && buf[taken..] == old(buf[..])[taken..]
                && sock.incoming == old(sock.incoming)[taken..]
                && (r == 0 <==> taken == size)
    ensures sock.recvLog == old(sock.recvLog) + calls
    ensures buf == null ==> calls == []
    ensures forall i :: 0 <= i < |calls| - 1 ==> calls[i] > 0
    ensures buf != null ==> (r == -1 <==> calls != [] && calls[|calls| - 1] <= 0)
    ensures sock.sent == old(sock.sent) && sock.sendLog == old(sock.sendLog)
  {
    calls := [];
    if buf == null {
      return -1, calls;
    }
    ghost var stream := sock.incoming;
    var totalBytesRead := 0;
    while totalBytesRead < size
      invariant totalBytesRead <= size && totalBytesRead <= |stream|
      invariant Filled(buf[..], stream, old(buf[..]), totalBytesRead)
      invariant sock.incoming == stream[totalBytesRead..]
      invariant sock.recvLog == old(sock.recvLog) + calls && forall i :: 0 <= i < |calls| ==> calls[i] > 0
      invariant sock.sent == old(sock.sent) && sock.sendLog == old(sock.sendLog)
    {
      var bytesRead, data := sock.Recv(size - totalBytesRead);
      calls := calls + [bytesRead];
      if bytesRead == -1 {
        return -1, calls;
      }
      if bytesRead == 0 {
        return -1, calls;
      }
      FillMore(buf[..], stream, old(buf[..]), totalBytesRead, data);
      Received(buf, totalBytesRead, data);
      totalBytesRead := totalBytesRead + bytesRead;
    }
    return 0, calls;
  }

  /** The first n bytes of the buffer come from the stream, the others were there before. */
  ghost predicate Filled(buf: seq<byte>, stream: seq<byte>, before: seq<byte>, n: nat) {
    && n <= |buf| == |before| && n <= |stream|
    && buf[..n] == stream[..n] && buf[n..] == before[n..]
  }

  lemma FillMore(buf: seq<byte>, stream: seq<byte>, before: seq<byte>, n: nat, data: seq<byte>)
    requires Filled(buf, stream, before, n) && n + |data| <= |buf|
    requires |data| <= |stream[n..]| && data == stream[n..][..|data|]
    ensures Filled(buf[..n] + data + buf[n + |data|..], stream, before, n + |data|)
  {
    var m := n + |data|;
    assert stream[..m] == stream[..n] + data;
    assert buf[m..] == buf[n..][|data|..] == before[n..][|data|..] == before[m..];
  }

  /** The part of recv that fills the buffer from offset p on. */
  method Received(buf: array<byte>, p: nat, data: seq<byte>)
    requires p + |data| <= buf.Length
    modifies buf
    ensures buf[..] == old(buf[..p]) + data + old(buf[p + |data|..])
  {
    forall i | 0 <= i < |data| {
      buf[p + i] := data[i];
    }
  }
}
