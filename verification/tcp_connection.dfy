/** One TCP connection (src/transport/tcp/tcp_connection.cpp) over a socket whose every call has an
    arbitrary outcome. Times are not modelled: a deadline is an arbitrary number of rounds without
    progress. */
module TcpConnection {
  import opened Status
  import opened Faults
  import opened Blocks
  import opened Words
  import opened WireStreams

  /** What the other side sends: a reply to each request in turn, fixed bytes, or anything. */
  datatype Peer = InOrder(reply: Replier) | Scripted(bytes: seq<byte>) | Arbitrary

  /** All that a peer sends, once it has received `sent`. It may arrive late, in pieces, or not at all. */
  function Inbound(peer: Peer, sent: seq<byte>): seq<byte> {
    match peer
    case InOrder(reply) => Replies(sent, reply)
    case Scripted(bytes) => bytes
    case Arbitrary => []
  }

  /** `bytes` is what arrives next after `consumed` bytes. */
  ghost predicate Arrives(peer: Peer, sent: seq<byte>, consumed: nat, bytes: seq<byte>) {
    bytes == [] || peer.Arbitrary? ||
    (consumed + |bytes| <= |Inbound(peer, sent)| && bytes == Inbound(peer, sent)[consumed..consumed + |bytes|])
  }

  lemma ArrivesMore(peer: Peer, sent: seq<byte>, consumed: nat, a: seq<byte>, b: seq<byte>)
    requires Arrives(peer, sent, consumed, a) && Arrives(peer, sent, consumed + |a|, b)
    ensures Arrives(peer, sent, consumed, a + b)
  {
    if a == [] {
      assert a + b == b;
    } else if b == [] {
      assert a + b == a;
    } else if !peer.Arbitrary? {
      SliceJoin(Inbound(peer, sent), consumed, consumed + |a|, consumed + |a| + |b|);
    }
  }

  datatype IoOutcome = Done | Eof | Again | Interrupted | Broken

  class Socket {
    const env: Environment
    const peer: Peer
    var sent: seq<byte>
    var consumed: nat

    constructor (env: Environment, peer: Peer)
      ensures this.env == env && this.peer == peer && sent == [] && consumed == 0
    {
      this.env, this.peer, sent, consumed := env, peer, [], 0;
    }

    /** recv: some of the bytes that have arrived, or none. */
    method Recv(max: nat) returns (r: IoOutcome, bytes: seq<byte>)
      requires 0 < max
      modifies `consumed, env
      ensures old(env.injected) <= env.injected
      ensures r == Done ==> 0 < |bytes| <= max && Arrives(peer, sent, old(consumed), bytes)
      ensures r != Done ==> bytes == []
      ensures consumed == old(consumed) + |bytes|
      ensures env.injected == old(env.injected) ==> r in {Done, Again}
      ensures env.injected == old(env.injected) && old(consumed) < |Inbound(peer, sent)| ==> r == Done
    {
      bytes := [];
      var failed := env.Fails();
      if failed {
        r := *;
        if r == Done {
          r := Broken;
        }
        return;
      }
      if peer.Arbitrary? {
        bytes := *;
        bytes := if bytes == [] then [0] else if |bytes| > max then bytes[..max] else bytes;
      } else {
        var available := |Inbound(peer, sent)| - consumed;
        if available <= 0 {
          return Again, bytes;
        }
        var n :| 1 <= n <= max && n <= available;
        bytes := Inbound(peer, sent)[consumed..consumed + n];
      }
      consumed := consumed + |bytes|;
      return Done, bytes;
    }

    /** send: some of the bytes leave, or none. */
    method Send(bytes: seq<byte>) returns (r: IoOutcome, n: nat)
      requires bytes != []
      modifies `sent, env
      ensures old(env.injected) <= env.injected
      ensures r == Done ==> 0 < n <= |bytes|
      ensures r != Done ==> n == 0
      ensures n <= |bytes| && sent == old(sent) + bytes[..n]
      ensures env.injected == old(env.injected) ==> r == Done
    {
      n := 0;
      var failed := env.Fails();
      if failed {
        r := *;
        if r == Done {
          r := Broken;
        }
        assert old(sent) + bytes[..0] == old(sent);
        return;
      }
      n :| 1 <= n <= |bytes|;
      sent := sent + bytes[..n];
      return Done, n;
    }
  }

  class TcpConnection {
    const env: Environment
    const socket: Socket
    var hasFd: bool
    var broken: bool

    constructor (env: Environment, socket: Socket)
      ensures this.env == env && this.socket == socket && IsOpen()
    {
      this.env, this.socket := env, socket;
      hasFd, broken := true, false;
    }

    predicate IsOpen()
      reads this
    {
      hasFd && !broken
    }

    ghost predicate Valid()
      reads this
    {
      socket.env == env
    }

    method MarkBroken()
      modifies `broken
      ensures broken
    {
      broken := true;
    }

    method Shutdown()
      modifies `broken
      ensures broken
    {
      broken := true;
    }

    method Close()
      modifies `broken, `hasFd
      ensures broken && !hasFd
    {
      broken := true;
      hasFd := false;
    }

    /** Whether the socket is ready before the deadline. */
    method PollReady() returns (status: StatusCode)
      ensures status in {OK, Unavailable, NetworkError}
    {
      status := *;
      if status != OK && status != NetworkError {
        status := Unavailable;
      }
    }

    /** Reads exactly `n` bytes, in whatever pieces they arrive. A failure breaks the connection. */
    method ReadExact(n: nat) returns (status: StatusCode, bytes: seq<byte>)
      requires Valid()
      modifies `broken, socket`consumed, env
      ensures old(env.injected) <= env.injected
      ensures status == OK ==>
        && |bytes| == n && broken == old(broken) && socket.consumed == old(socket.consumed) + n
        && Arrives(socket.peer, socket.sent, old(socket.consumed), bytes)
      ensures status != OK ==> !IsOpen() && status in {Unavailable, NetworkError}
      ensures n > 0 && !old(IsOpen()) ==> status == Unavailable && socket.consumed == old(socket.consumed)
      ensures old(IsOpen()) && env.injected == old(env.injected) ==>
        old(socket.consumed) + n <= |Inbound(socket.peer, socket.sent)| ==> status == OK
    {
      bytes := [];
      if n == 0 {
        return OK, bytes;
      }
      if !hasFd || broken {
        return Unavailable, bytes;
      }
      var patience: nat := *;
      while |bytes| < n
        invariant |bytes| <= n && !broken && old(env.injected) <= env.injected
        invariant socket.consumed == old(socket.consumed) + |bytes|
        invariant Arrives(socket.peer, socket.sent, old(socket.consumed), bytes)
        decreases n - |bytes|, patience
      {
        var got, more := socket.Recv(n - |bytes|);
        if got == Done {
          ArrivesMore(socket.peer, socket.sent, old(socket.consumed), bytes, more);
          bytes := bytes + more;
          continue;
        }
        if got == Eof || got == Broken {
          MarkBroken();
          return NetworkError, bytes;
        }
        if patience == 0 {
          MarkBroken();
          return Unavailable, bytes;
        }
        patience := patience - 1;
        if got == Again {
          var ready := PollReady();
          if ready != OK {
            MarkBroken();
            return ready, bytes;
          }
        }
      }
      return OK, bytes;
    }

    /** Writes all of `bytes`, in whatever pieces the socket takes. A failure breaks the connection. */
    method WriteExact(bytes: seq<byte>) returns (status: StatusCode, ghost written: nat)
      requires Valid()
      modifies `broken, socket`sent, env
      ensures old(env.injected) <= env.injected
      ensures written <= |bytes| && socket.sent == old(socket.sent) + bytes[..written]
      ensures status == OK ==> written == |bytes| && broken == old(broken)
      ensures status != OK ==> !IsOpen() && status in {Unavailable, NetworkError}
      ensures bytes != [] && !old(IsOpen()) ==> status == Unavailable && written == 0
      ensures old(IsOpen()) && env.injected == old(env.injected) ==> status == OK
    {
      written := 0;
      assert old(socket.sent) + bytes[..0] == old(socket.sent);
      if bytes == [] {
        return OK, 0;
      }
      if !hasFd || broken {
        return Unavailable, 0;
      }
      var completed: nat := 0;
      var patience: nat := *;
      while completed < |bytes|
        invariant completed <= |bytes| && !broken && old(env.injected) <= env.injected
        invariant socket.sent == old(socket.sent) + bytes[..completed]
        decreases |bytes| - completed, patience
      {
        var put, n := socket.Send(bytes[completed..]);
        if put == Done {
          assert bytes[..completed + n] == bytes[..completed] + bytes[completed..][..n];
          completed := completed + n;
          continue;
        }
        if put == Eof || put == Broken {
          MarkBroken();
          return NetworkError, completed;
        }
        if patience == 0 {
          MarkBroken();
          return Unavailable, completed;
        }
        patience := patience - 1;
        if put == Again {
          var ready := PollReady();
          if ready != OK {
            MarkBroken();
            return ready, completed;
          }
        }
      }
      return OK, completed;
    }
  }
}
