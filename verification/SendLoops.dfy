/**
 Sending over a non-blocking socket: the loop of `Frame::send`, which waits for the socket
 to become writable, and the loop of `TcpConn::Send` around it. The kernel is a script of
 replies, arbitrary in every run.
 */
module SendLoops {
  import opened Basics

  const MAX_COUNT: nat := 0x7FFF_F000   // the kernel transfers no more at once

  /** A reply of the kernel to one send of at least one byte. */
  datatype Reply =
    | Sent(more: nat)                          // at least one byte, up to 1 + more
    | Closed                                   // returned 0
    | Interrupted                              // EINTR
    | Again(timedOut: bool, writable: bool)    // EAGAIN, and the flags of the event that ends the wait
    | Error

  /** The value the loop returns, or that the script ended while the coroutine still waits. */
  datatype Outcome = Returned(ret: int) | Unfinished

  lemma Int32Small(n: nat)
    ensures n < TWO31 ==> Int32(n) == n
    ensures n >= TWO31 && Int32(n) > 0 ==> Int32(n) < n
    ensures n == TWO31 ==> Int32(n) < 0
    ensures Int32(n) <= n
  {
    if n < TWO31 {
      assert (n + TWO31) % TWO32 == n + TWO31;
    }
  }

  /** The value with which a reply ends the inner loop; other replies let it go on. */
  function Ends(reply: Reply): seq<int> {
    match reply
    case Closed => [0]
    case Error => [-1]
    case Again(timedOut, writable) => if timedOut then [-2] else if writable then [] else [-1]
    case _ => []
  }

  /** The replies before the first that ends the loop. */
  function Proceeds(script: seq<Reply>): (n: nat)
    ensures n <= |script| && (forall i | 0 <= i < n :: Ends(script[i]) == []) && (n < |script| ==> Ends(script[n]) != [])
  {
    if script == [] || Ends(script[0]) != [] then 0 else 1 + Proceeds(script[1..])
  }

  /** A reply that ends the loop makes it fail. */
  lemma Stops(script: seq<Reply>)
    ensures Proceeds(script) < |script| ==> |Ends(script[Proceeds(script)])| == 1 && Ends(script[Proceeds(script)])[0] <= 0
  {
  }

  /** The loop goes on after bytes are taken, after an interruption, and when the socket has become writable; the first
      other reply ends it, with 0 if the peer closed, -2 at a timeout and -1 otherwise. */
  lemma {:induction false} ProceedsExactly(script: seq<Reply>, i: nat)
    requires i <= |script| && forall k | 0 <= k < i :: script[k].Sent? || script[k].Interrupted? || script[k] == Again(false, true)
    ensures Proceeds(script) >= i
    ensures i < |script| && !script[i].Sent? && !script[i].Interrupted? && script[i] != Again(false, true) ==>
              && Proceeds(script) == i
              && Ends(script[i]) == [if script[i].Closed? then 0 else if script[i].Again? && script[i].timedOut then -2 else -1]
    decreases i
  {
    if i > 0 {
      ProceedsExactly(script[1..], i - 1);
    }
  }

  /** The loop went on up to reply `k`, and ended there with `r`. */
  ghost predicate StopsAt(script: seq<Reply>, k: nat, r: Outcome)
    requires k <= |script|
  {
    && (forall i | 0 <= i < k :: script[i].Sent? || script[i].Interrupted? || script[i] == Again(false, true))
    && if k == |script| then r == Unfinished
       else match script[k]
         case Closed => r == Returned(0)
         case Error => r == Returned(-1)
         case Again(timedOut, writable) => if timedOut then r == Returned(-2) else !writable && r == Returned(-1)
         case _ => false
  }

  /** How many of `left` bytes the kernel takes with this reply. */
  function Amount(reply: Reply, left: nat): (n: nat)
    ensures n <= left
  {
    if reply.Sent? then Min(Min(1 + reply.more, left), MAX_COUNT) else 0
  }

  function Min(a: nat, b: nat): nat {
    if a <= b then a else b
  }

  /** How many bytes the replies offer to take before the first that ends the loop. */
  function Offered(script: seq<Reply>): nat {
    if script == [] || Ends(script[0]) != [] then 0
    else (if script[0].Sent? then Min(1 + script[0].more, MAX_COUNT) else 0) + Offered(script[1..])
  }

  /** What each reply adds to the offer, and which end it. */
  lemma OfferedExactly(reply: Reply, rest: seq<Reply>)
    ensures reply.Sent? ==> Offered([reply] + rest) == (if 1 + reply.more <= MAX_COUNT then 1 + reply.more else MAX_COUNT) + Offered(rest)
    ensures reply.Interrupted? || reply == Again(false, true) ==> Offered([reply] + rest) == Offered(rest)
    ensures !reply.Sent? && !reply.Interrupted? && reply != Again(false, true) ==> Offered([reply] + rest) == 0
  {
    assert ([reply] + rest)[1..] == rest;
  }

  /** How many of `len` bytes the loop gets taken. */
  function Taken(script: seq<Reply>, len: nat): (n: nat)
    ensures n <= len
  {
    if len == 0 || script == [] || Ends(script[0]) != [] then 0
    else Amount(script[0], len) + Taken(script[1..], len - Amount(script[0], len))
  }

  /** How many replies the loop uses up for `len` bytes. */
  function Used(script: seq<Reply>, len: nat): (n: nat)
    ensures n <= |script|
  {
    if len == 0 || script == [] then 0
    else if Ends(script[0]) != [] then 1
    else 1 + Used(script[1..], len - Amount(script[0], len))
  }

  lemma TakenStep(script: seq<Reply>, len: nat)
    ensures len == 0 || script == [] ==> Taken(script, len) == 0 && Used(script, len) == 0
    ensures len > 0 && script != [] ==>
              var n := Amount(script[0], len);
              if Ends(script[0]) == [] then
                Taken(script, len) == n + Taken(script[1..], len - n) && Used(script, len) == 1 + Used(script[1..], len - n)
              else Taken(script, len) == n == 0 && Used(script, len) == 1
  {
  }

  /** The kernel takes what its replies offer, up to the length. */
  lemma {:induction false} TakenIsOffered(script: seq<Reply>, len: nat)
    ensures Taken(script, len) == Min(Offered(script), len)
  {
    if len > 0 && script != [] && Ends(script[0]) == [] {
      TakenIsOffered(script[1..], len - Amount(script[0], len));
    }
  }

  class Socket {
    var replies: seq<Reply>   // what the kernel will answer
    var wire: seq<Byte>       // what the kernel has taken

    constructor (script: seq<Reply>)
      ensures replies == script && wire == []
    {
      replies, wire := script, [];
    }

    /** One call of the kernel's send. */
    method KernelSend(data: seq<Byte>) returns (reply: Reply, n: nat)
      requires replies != [] && data != []
      modifies this
      ensures reply == old(replies)[0] && replies == old(replies)[1..]
      ensures n == Amount(reply, |data|) && wire == old(wire) + data[..n]
    {
      reply := replies[0];
      replies := replies[1..];
      n := 0;
      if reply.Sent? {
        n := 1 + reply.more;
        if n > |data| {
          n := |data|;
        }
        if n > MAX_COUNT {
          n := MAX_COUNT;
        }
      }
      wire := wire + data[..n];
    }

    /** The inner loop. The kernel has taken, in order and once, as much of the buffer as its replies offer before
        one that ends the loop. If that is all of it the length is returned; else the reply that ended the loop
        gives the value, or the script ended first. */
    method Send(buf: seq<Byte>) returns (r: Outcome)
      modifies this
      ensures wire == old(wire) + buf[..Taken(old(replies), |buf|)]
      ensures replies == old(replies)[Used(old(replies), |buf|)..]
      ensures Taken(old(replies), |buf|) == Min(Offered(old(replies)), |buf|)
      ensures Offered(old(replies)) >= |buf| ==> r == Returned(Int32(|buf|))
      ensures Offered(old(replies)) < |buf| ==> StopsAt(old(replies), Proceeds(old(replies)), r)
    {
      hide Offered, Proceeds, Rest, Amount, Taken, Used;
      TakenIsOffered(replies, |buf|);
      RestAtFirst(replies);
      var nsend := 0;
      while nsend < |buf|
        invariant nsend <= |buf| && wire == old(wire) + buf[..nsend]
        invariant nsend + Taken(replies, |buf| - nsend) == Taken(old(replies), |buf|)
        invariant Rest(old(replies), replies)
        invariant |replies| <= |old(replies)| && replies == old(replies)[|old(replies)| - |replies|..]
        invariant |old(replies)| - |replies| + Used(replies, |buf| - nsend) == Used(old(replies), |buf|)
        decreases |replies|
      {
        TakenStep(replies, |buf| - nsend);
        if replies == [] {
          RestEnds(old(replies));
          return Unfinished;
        }
        RestGoesOn(old(replies), replies);
        var reply, n := KernelSend(buf[nsend..]);
        assert buf[..nsend] + buf[nsend..][..n] == buf[..nsend + n];
        nsend := nsend + n;
        if reply.Interrupted? {
          continue;
        } else if reply.Again? {
          if reply.timedOut {
            return Returned(-2);
          } else if reply.writable {
            continue;
          }
          return Returned(-1);
        } else if reply.Error? {
          return Returned(-1);
        } else if reply.Closed? {
          return Returned(0);
        }
      }
      TakenStep(replies, 0);
      r := Returned(Int32(nsend));
    }
  }

  /** The end of a script after replies that let the loop go on. */
  ghost predicate Rest(script: seq<Reply>, rest: seq<Reply>) {
    |rest| <= |script| && rest == script[|script| - |rest|..] && Proceeds(script) == |script| - |rest| + Proceeds(rest)
  }

  lemma RestAtFirst(script: seq<Reply>)
    ensures Rest(script, script)
  {
  }

  lemma RestEnds(script: seq<Reply>)
    requires Rest(script, [])
    ensures Proceeds(script) == |script|
  {
  }

  lemma RestGoesOn(script: seq<Reply>, rest: seq<Reply>)
    requires Rest(script, rest) && rest != []
    ensures Ends(rest[0]) == [] ==> Rest(script, rest[1..])
    ensures Ends(rest[0]) != [] ==> Proceeds(script) < |script| && script[Proceeds(script)] == rest[0]
  {
  }

  function Suffix(buf: seq<Byte>, n: int): seq<Byte>
    requires n <= |buf|
  {
    if n <= 0 then [] else buf[|buf| - n..]
  }

  /** What the outer loop hands over of a buffer: its last bytes, as many as its length cut to 32 bits says. */
  function Tail(buf: seq<Byte>): (t: seq<Byte>)
    ensures t == buf <==> |buf| < TWO31
    ensures |buf| == TWO31 ==> t == []
  {
    Int32Small(|buf|);
    Suffix(buf, Int32(|buf|))
  }

  lemma Int32Remainder(x: nat)
    ensures Int32(x) == if x % TWO32 < TWO31 then x % TWO32 else x % TWO32 - TWO32
  {
    var q, n := x / TWO32, x % TWO32;
    assert x + TWO31 == TWO32 * q + (n + TWO31);
    if n < TWO31 {
      assert (x + TWO31) % TWO32 == n + TWO31;
    } else {
      assert (x + TWO31) % TWO32 == n + TWO31 - TWO32;
    }
  }

  /** What is handed over, by the length modulo 2^32: its last so many bytes below 2^31, nothing from there on. */
  lemma TailExactly(buf: seq<Byte>)
    ensures var n := |buf| % TWO32; Tail(buf) == if n < TWO31 then buf[|buf| - n..] else []
  {
    hide Int32;
    Int32Remainder(|buf|);
    assert buf[|buf|..] == [];
  }

  class TcpConn {
    var connected: bool   // fd_ is valid
    const socket: Socket

    constructor (s: Socket, open: bool)
      ensures socket == s && connected == open
    {
      socket, connected := s, open;
    }

    /** The loop over what is left of a buffer. The inner loop sends all of it or fails, so it runs at most once. */
    method SendLeft(buf: seq<Byte>, size: int) returns (r: Outcome)
      requires size <= |buf| && size < TWO31
      modifies socket
      ensures var tail, script := Suffix(buf, size), old(socket.replies);
              && socket.wire == old(socket.wire) + tail[..Taken(script, |tail|)]
              && r == if Offered(script) >= |tail| then Returned(0) else if Proceeds(script) == |script| then Unfinished else Returned(-1)
    {
      hide Offered, Proceeds, Taken, Used, Int32, Ends;
      ghost var script, tail := socket.replies, Suffix(buf, size);
      TakenIsOffered(script, |tail|);
      var left := size;
      while left > 0
        invariant if left == size then socket.replies == script && socket.wire == old(socket.wire)
                  else left == 0 && Offered(script) >= |tail| && socket.wire == old(socket.wire) + tail[..Taken(script, |tail|)]
      {
        var part := buf[|buf| - left..];
        assert part == tail;
        Stops(script);
        Int32Small(|part|);
        var ret := socket.Send(part);
        if ret.Unfinished? {
          return Unfinished;
        }
        if ret.ret <= 0 || ret.ret > left {
          return Returned(-1);
        }
        left := left - ret.ret;
      }
      assert size <= 0 ==> tail[..Taken(script, |tail|)] == [];
      r := Returned(0);
    }

    /** `reconnects` says whether a reconnection would succeed. The call returns 0 exactly if the replies offer to take
        the tail before one ends the inner loop; the tail is the whole buffer exactly below 2^31 bytes. */
    method Send(buf: seq<Byte>, reconnects: bool) returns (r: Outcome)
      modifies this, socket
      ensures !(old(connected) || reconnects) || buf == [] ==> r == Returned(-1) && socket.wire == old(socket.wire)
      ensures (old(connected) || reconnects) && buf != [] ==>
                var tail, script := Tail(buf), old(socket.replies);
                && socket.wire == old(socket.wire) + tail[..Taken(script, |tail|)]
                && r == if Offered(script) >= |tail| then Returned(0) else if Proceeds(script) == |script| then Unfinished else Returned(-1)
      ensures connected == (old(connected) || reconnects)
      ensures r == Returned(0) ==> (socket.wire == old(socket.wire) + buf <==> |buf| < TWO31)
      ensures |buf| == TWO31 && (old(connected) || reconnects) ==> r == Returned(0) && socket.wire == old(socket.wire)
    {
      hide Offered, Proceeds, Taken, Used, Int32, Tail;
      if !connected {
        if !reconnects {
          return Returned(-1);
        }
        connected := true;
      }
      if buf == [] {
        return Returned(-1);
      }
      Int32Small(|buf|);
      ghost var script, tail := socket.replies, Tail(buf);
      TakenIsOffered(script, |tail|);
      assert tail == Suffix(buf, Int32(|buf|)) by {
        TailIs(buf);
      }
      r := SendLeft(buf, Int32(|buf|));
    }
  }

  lemma TailIs(buf: seq<Byte>)
    ensures Tail(buf) == Suffix(buf, Int32(|buf|))
  {
  }
}
