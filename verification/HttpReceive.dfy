/**
 The receive loop of the HTTP server: a buffer that doubles when full, a framing check after
 every read, and one request served after another on a connection that stays open.

 The framing check is the HTTP parser, which is not part of this model: it is a function of
 the bytes received, assumed only to recognise a message by its own bytes (section 3.3.3 of
 RFC 7230). The bytes arrive in chunks, cut in every possible way.

 The loop is first given as a function on values, `Ran`, about which the theorems are; method
 `HttpSrvWork.Run` is the loop as implemented, and computes it.
 */
module HttpReceive {
  import opened Basics

  const INITIAL_SIZE: nat := 512

  /** What follows the chunks: nothing more for now, the peer closes, or recv fails. */
  datatype Ending = Silent | PeerCloses | RecvFails

  datatype Outcome =
    | Done             // a request without keep-alive was served
    | ParseFailed | NotHttp | Closed | Failed
    | Overrun          // recv would be told to write past the end of the buffer
    | Unfinished       // the chunks are used up and the coroutine waits

  // ----- messages

  ghost predicate IsMessage(check: seq<Byte> -> int, m: seq<Byte>) {
    m != [] && check(m) == |m|
  }

  /** A message is recognised whatever follows it, and nothing is recognised before it is complete. */
  ghost predicate PrefixStable(check: seq<Byte> -> int, m: seq<Byte>) {
    forall b | b != [] :: (m <= b ==> check(b) == |m|) && (b < m ==> check(b) == 0)
  }

  ghost predicate Bounded(check: seq<Byte> -> int) {
    forall b :: check(b) <= |b|
  }

  ghost predicate Framing(check: seq<Byte> -> int) {
    Bounded(check) && (forall m | IsMessage(check, m) :: PrefixStable(check, m))
  }

  function Concat(ss: seq<seq<Byte>>): seq<Byte> {
    if ss == [] then [] else ss[0] + Concat(ss[1..])
  }

  lemma {:induction false} ConcatAppend(ss: seq<seq<Byte>>, s: seq<Byte>)
    ensures Concat(ss + [s]) == Concat(ss) + s
  {
    if ss == [] {
      assert Concat([s]) == s + Concat([]);
    } else {
      assert (ss + [s])[1..] == ss[1..] + [s];
      ConcatAppend(ss[1..], s);
    }
  }

  /** `chunks` continue, after `cur` of the first message, a client that sends each message of `ms` only when
      the one before is complete and answered: no chunk reaches into the next message. */
  ghost predicate Cuts(chunks: seq<seq<Byte>>, cur: seq<Byte>, ms: seq<seq<Byte>>)
    decreases |chunks|
  {
    chunks != [] ==>
      && chunks[0] != [] && ms != [] && cur + chunks[0] <= ms[0]
      && (if cur + chunks[0] == ms[0] then Cuts(chunks[1..], [], ms[1..]) else Cuts(chunks[1..], cur + chunks[0], ms))
  }

  /** Reading part of a chunk leaves such a client. */
  lemma CutsSplit(chunks: seq<seq<Byte>>, cur: seq<Byte>, ms: seq<seq<Byte>>, n: nat)
    requires chunks != [] && Cuts(chunks, cur, ms) && 0 < n < |chunks[0]|
    ensures Cuts([chunks[0][n..]] + chunks[1..], cur + chunks[0][..n], ms)
    ensures cur + chunks[0][..n] < ms[0]
  {
    var c := chunks[0];
    assert (cur + c[..n]) + c[n..] == cur + c;
    assert ([c[n..]] + chunks[1..])[1..] == chunks[1..];
  }

  /** The requests served are the first messages, and all bytes are those served, those in the buffer since, and
      those still to come. */
  ghost predicate Accounts(all: seq<Byte>, ms: seq<seq<Byte>>, served: seq<seq<Byte>>, filled: seq<Byte>, chunks: seq<seq<Byte>>) {
    |served| <= |ms| && served == ms[..|served|] && all == Concat(served) + filled + Concat(chunks)
  }

  /** No complete message is left in the buffer. */
  ghost predicate Partial(ms: seq<seq<Byte>>, served: seq<seq<Byte>>, filled: seq<Byte>) {
    filled == [] || (|served| < |ms| && filled < ms[|served|])
  }

  ghost predicate Tracks(all: seq<Byte>, ms: seq<seq<Byte>>, served: seq<seq<Byte>>, filled: seq<Byte>, chunks: seq<seq<Byte>>) {
    Accounts(all, ms, served, filled, chunks) && Partial(ms, served, filled) && Cuts(chunks, filled, ms[|served|..])
  }

  lemma TracksAtFirst(ms: seq<seq<Byte>>, chunks: seq<seq<Byte>>)
    requires Cuts(chunks, [], ms)
    ensures Tracks(Concat(chunks), ms, [], [], chunks)
  {
    assert ms[0..] == ms;
  }

  /** Reading `n` bytes of the next chunk either continues the current message or completes it, and the framing
      check tells which. */
  lemma TracksRead(check: seq<Byte> -> int, all: seq<Byte>, ms: seq<seq<Byte>>, served: seq<seq<Byte>>, filled: seq<Byte>,
                   chunks: seq<seq<Byte>>, n: nat, chunks': seq<seq<Byte>>)
    requires Framing(check) && (forall m | m in ms :: IsMessage(check, m)) && Tracks(all, ms, served, filled, chunks)
    requires chunks != [] && 0 < n <= |chunks[0]|
    requires chunks' == if n == |chunks[0]| then chunks[1..] else [chunks[0][n..]] + chunks[1..]
    requires Concat(chunks) == chunks[0][..n] + Concat(chunks')
    ensures var now := filled + chunks[0][..n];
            && |served| < |ms| && Accounts(all, ms, served, now, chunks')
            && (now == ms[|served|] ==> check(now) == |now| && Tracks(all, ms, served + [now], [], chunks'))
            && (now != ms[|served|] ==> check(now) == 0 && Tracks(all, ms, served, now, chunks'))
  {
    hide Framing, IsMessage;
    var now := filled + chunks[0][..n];
    CutsRead(chunks, filled, ms[|served|..], n, chunks');
    assert ms[|served|] in ms;
    FramingTells(check, ms[|served|], now);
    BytesKept(served, filled, chunks[0][..n], Concat(chunks'));
    if now == ms[|served|] {
      assert ms[..|served| + 1] == served + [now];
      assert ms[|served|..][1..] == ms[|served| + 1..];
    }
  }

  lemma CutsRead(chunks: seq<seq<Byte>>, cur: seq<Byte>, ms: seq<seq<Byte>>, n: nat, chunks': seq<seq<Byte>>)
    requires Cuts(chunks, cur, ms) && chunks != [] && 0 < n <= |chunks[0]|
    requires chunks' == if n == |chunks[0]| then chunks[1..] else [chunks[0][n..]] + chunks[1..]
    ensures var now := cur + chunks[0][..n];
            && ms != [] && now != [] && now <= ms[0]
            && (now == ms[0] ==> Cuts(chunks', [], ms[1..])) && (now != ms[0] ==> Cuts(chunks', now, ms))
  {
    if n < |chunks[0]| {
      CutsSplit(chunks, cur, ms, n);
    } else {
      assert chunks[0][..n] == chunks[0];
    }
  }

  lemma FramingTells(check: seq<Byte> -> int, m: seq<Byte>, b: seq<Byte>)
    requires Framing(check) && IsMessage(check, m) && b != [] && b <= m
    ensures check(b) == if b == m then |b| else 0
  {
    assert PrefixStable(check, m);
  }

  lemma BytesKept(served: seq<seq<Byte>>, filled: seq<Byte>, got: seq<Byte>, coming: seq<Byte>)
    ensures Concat(served) + filled + (got + coming) == Concat(served) + (filled + got) + coming
    ensures Concat(served + [filled + got]) + [] + coming == Concat(served) + (filled + got) + coming
  {
    ConcatAppend(served, filled + got);
  }

  lemma {:induction false} ConcatParts(ss: seq<seq<Byte>>, k: nat)
    requires k <= |ss|
    ensures Concat(ss) == Concat(ss[..k]) + Concat(ss[k..])
  {
    if k == 0 {
      assert ss[0..] == ss;
    } else {
      ConcatParts(ss[1..], k - 1);
      assert ss[..k][1..] == ss[1..][..k - 1] && ss[1..][k - 1..] == ss[k..];
    }
  }

  /** When no byte is to come and no complete message is left, the requests served are all whose bytes have
      arrived: a prefix of the messages is served exactly if it is no longer than what arrived. */
  lemma ServedAreComplete(all: seq<Byte>, ms: seq<seq<Byte>>, served: seq<seq<Byte>>, filled: seq<Byte>, k: nat)
    requires Accounts(all, ms, served, filled, []) && Partial(ms, served, filled) && k <= |ms|
    requires forall m | m in ms :: m != []
    ensures k <= |served| <==> |Concat(ms[..k])| <= |all|
  {
    if k <= |served| {
      ConcatParts(served, k);
      assert served[..k] == ms[..k];
    } else {
      ConcatParts(ms[..k], |served|);
      assert ms[..k][..|served|] == served && ms[..k][|served|..][0] == ms[|served|];
      assert ms[|served|] in ms;
    }
  }

  // ----- the loop on values

  datatype Parser = Parser(
    check: seq<Byte> -> int,       // HttpCheckPkg
    parses: seq<Byte> -> bool,     // ParseHttpRequest succeeds
    keeps: seq<Byte> -> bool       // the request asks for keep-alive
  )

  datatype Conn = Conn(
    req: seq<Byte>,
    recvd: nat,
    keepAlive: bool,
    served: seq<seq<Byte>>,
    chunks: seq<seq<Byte>>         // bytes still to arrive
  )

  predicate NonEmpty(chunks: seq<seq<Byte>>) {
    forall i | 0 <= i < |chunks| :: chunks[i] != []
  }

  predicate Sound(c: Conn) {
    0 < |c.req| && NonEmpty(c.chunks)
  }

  function Zeros(n: nat): (z: seq<Byte>)
    ensures |z| == n
  {
    seq(n, i => 0)
  }

  function Start(chunks: seq<seq<Byte>>): Conn {
    Conn(Zeros(INITIAL_SIZE), 0, false, [], chunks)
  }

  /** Doubles a full buffer. */
  function Grown(c: Conn): (g: Conn)
    ensures Sound(c) ==> Sound(g) && (c.recvd <= |c.req| ==> g.recvd < |g.req|)
  {
    if c.recvd == |c.req| then c.(req := c.req + Zeros(|c.req|)) else c
  }

  function Filled(c: Conn): seq<Byte>
    requires c.recvd <= |c.req|
  {
    c.req[..c.recvd]
  }

  function Amount(c: Conn): (n: nat)
    requires Sound(c) && c.recvd < |c.req| && c.chunks != []
    ensures 0 < n <= |c.chunks[0]| && c.recvd + n <= |c.req|
  {
    if |c.chunks[0]| <= |c.req| - c.recvd then |c.chunks[0]| else |c.req| - c.recvd
  }

  /** After reading as much of the next chunk as there is room for. */
  function Read(c: Conn): (d: Conn)
    requires Sound(c) && c.recvd < |c.req| && c.chunks != []
    ensures Sound(d) && d.recvd == c.recvd + Amount(c) <= |d.req| == |c.req|
  {
    var x, n := c.chunks[0], Amount(c);
    c.(req := c.req[..c.recvd] + x[..n] + c.req[c.recvd + n..], recvd := c.recvd + n,
       chunks := if n == |x| then c.chunks[1..] else [x[n..]] + c.chunks[1..])
  }

  lemma ReadMovesBytes(c: Conn)
    requires Sound(c) && c.recvd < |c.req| && c.chunks != []
    ensures Filled(Read(c)) == Filled(c) + c.chunks[0][..Amount(c)]
    ensures Concat(c.chunks) == c.chunks[0][..Amount(c)] + Concat(Read(c).chunks)
    ensures |Concat(Read(c).chunks)| < |Concat(c.chunks)|
  {
    var x, n := c.chunks[0], Amount(c);
    assert x == x[..n] + x[n..];
    if n < |x| {
      assert ([x[n..]] + c.chunks[1..])[1..] == c.chunks[1..];
    }
  }

  /** After serving the request of the first `n` bytes: what follows is moved to the front. */
  function Serve(p: Parser, c: Conn, n: nat): (d: Conn)
    requires Sound(c) && 0 < n <= c.recvd <= |c.req|
    ensures Sound(d)
  {
    var d := c.(served := c.served + [c.req[..n]], keepAlive := c.keepAlive || p.keeps(c.req[..n]));
    if c.recvd > n then d.(req := c.req[n..]) else d.(recvd := 0)
  }

  function AtEnd(e: Ending): Outcome {
    match e
    case Silent => Unfinished
    case PeerCloses => Closed
    case RecvFails => Failed
  }

  /** What the loop makes of a connection, and how it ends. */
  ghost function Ran(p: Parser, e: Ending, c: Conn): (Conn, Outcome)
    requires Bounded(p.check) && Sound(c)
    decreases |Concat(c.chunks)|
  {
    var g := Grown(c);
    if g.recvd > |g.req| then (g, Overrun)
    else if g.chunks == [] then (g, AtEnd(e))
    else
      ReadMovesBytes(g);
      var d := Read(g);
      var n := p.check(Filled(d));
      if n < 0 then (d, NotHttp)
      else if n == 0 then Ran(p, e, d)
      else if !p.parses(d.req[..n]) then (d, ParseFailed)
      else
        var s := Serve(p, d, n);
        if s.keepAlive then Ran(p, e, s) else (s, Done)
  }

  // ----- a client that does not pipeline

  ghost predicate KeepsAlive(p: Parser, c: Conn) {
    && (c.keepAlive <==> c.served != [])
    && (c.served != [] ==> p.keeps(c.served[0]))
    && (forall m | m in c.served :: p.parses(m))
  }

  /** The requests served are the first messages, in order, and parse. The loop ends after a request exactly if the
      first does not ask for keep-alive; at a message that does not parse; or when all bytes have arrived, with no
      complete message unserved. */
  ghost predicate Correct(p: Parser, e: Ending, all: seq<Byte>, ms: seq<seq<Byte>>, d: Conn, r: Outcome) {
    && d.recvd <= |d.req| && Accounts(all, ms, d.served, Filled(d), d.chunks)
    && (forall m | m in d.served :: p.parses(m))
    && (r.Done? <==> d.served != [] && !p.keeps(d.served[0]))
    && match r
       case Done => |d.served| == 1 && d.recvd == 0
       case ParseFailed => |d.served| < |ms| && Filled(d) == ms[|d.served|] && !p.parses(ms[|d.served|])
       case NotHttp => false
       case Overrun => false
       case Unfinished => e.Silent? && d.chunks == [] && Partial(ms, d.served, Filled(d))
       case Closed => e.PeerCloses? && d.chunks == [] && Partial(ms, d.served, Filled(d))
       case Failed => e.RecvFails? && d.chunks == [] && Partial(ms, d.served, Filled(d))
  }

  /** All messages parse, and the first asks for keep-alive. */
  ghost predicate Wanted(p: Parser, ms: seq<seq<Byte>>) {
    (forall m | m in ms :: p.parses(m)) && (ms != [] ==> p.keeps(ms[0]))
  }

  lemma GrownKeeps(c: Conn)
    requires c.recvd <= |c.req| && 0 < |c.req|
    ensures Grown(c).recvd == c.recvd < |Grown(c).req| && Filled(Grown(c)) == Filled(c)
    ensures |Grown(c).req| == if c.recvd == |c.req| then 2 * |c.req| else |c.req|
    ensures Grown(c).chunks == c.chunks && Grown(c).served == c.served && Grown(c).keepAlive == c.keepAlive
  {
  }

  /** Serving all that was received. */
  lemma ServesWhole(p: Parser, c: Conn)
    requires Sound(c) && 0 < c.recvd <= |c.req|
    ensures c.req[..c.recvd] == Filled(c)
    ensures var d := Serve(p, c, c.recvd);
            && d.recvd == 0 && Filled(d) == [] && d.served == c.served + [Filled(c)] && d.chunks == c.chunks
            && d.keepAlive == (c.keepAlive || p.keeps(Filled(c)))
  {
  }

  lemma {:induction false} TrackedRunIsCorrect(p: Parser, e: Ending, all: seq<Byte>, ms: seq<seq<Byte>>, c: Conn)
    requires Framing(p.check) && forall m | m in ms :: IsMessage(p.check, m)
    requires Sound(c) && c.recvd <= |c.req| && KeepsAlive(p, c) && Tracks(all, ms, c.served, Filled(c), c.chunks)
    ensures Correct(p, e, all, ms, Ran(p, e, c).0, Ran(p, e, c).1)
    decreases |Concat(c.chunks)|
  {
    hide PrefixStable, IsMessage, Cuts, Concat, NonEmpty, Accounts, Partial, Grown, Serve;
    GrownKeeps(c);
    var g := Grown(c);
    if g.chunks != [] {
      ReadMovesBytes(g);
      var d := Read(g);
      var now := Filled(d);
      TracksRead(p.check, all, ms, c.served, Filled(c), c.chunks, Amount(g), d.chunks);
      if now != ms[|c.served|] {
        TrackedRunIsCorrect(p, e, all, ms, d);
      } else if p.parses(now) {
        var s := Serve(p, d, |now|);
        ServesWhole(p, d);
        if s.keepAlive {
          TrackedRunIsCorrect(p, e, all, ms, s);
        }
      }
    }
  }

  /** However the bytes of a non-pipelining client are cut, the loop is correct; and if all of its messages arrive
      and parse, and the first asks for keep-alive, exactly these are served. */
  lemma NonPipelinedIsServed(p: Parser, e: Ending, ms: seq<seq<Byte>>, chunks: seq<seq<Byte>>)
    requires Framing(p.check) && forall m | m in ms :: IsMessage(p.check, m)
    requires NonEmpty(chunks) && Cuts(chunks, [], ms)
    ensures var (d, r) := Ran(p, e, Start(chunks));
            && Correct(p, e, Concat(chunks), ms, d, r)
            && (r == AtEnd(e) ==> forall k: nat | k <= |ms| :: k <= |d.served| <==> |Concat(ms[..k])| <= |Concat(chunks)|)
            && (Concat(chunks) == Concat(ms) && Wanted(p, ms) ==> d.served == ms && r == AtEnd(e))
  {
    hide Cuts, PrefixStable, Ran, Concat;
    var c, all := Start(chunks), Concat(chunks);
    TracksAtFirst(ms, chunks);
    assert Filled(c) == [];
    TrackedRunIsCorrect(p, e, all, ms, c);
    var (d, r) := Ran(p, e, c);
    if r == AtEnd(e) {
      AllArrived(all, ms, d.served, Filled(d), d.chunks);
    }
    assert ms[..|ms|] == ms;
  }

  lemma AllArrived(all: seq<Byte>, ms: seq<seq<Byte>>, served: seq<seq<Byte>>, filled: seq<Byte>, chunks: seq<seq<Byte>>)
    requires Accounts(all, ms, served, filled, chunks) && chunks == [] && Partial(ms, served, filled) && forall m | m in ms :: m != []
    ensures forall k: nat | k <= |ms| :: k <= |served| <==> |Concat(ms[..k])| <= |all|
    ensures all == Concat(ms) ==> served == ms
  {
    forall k: nat | k <= |ms| ensures k <= |served| <==> |Concat(ms[..k])| <= |all| {
      ServedAreComplete(all, ms, served, filled, k);
    }
    assert ms[..|ms|] == ms;
  }

  // ----- a client that pipelines

  /** The bytes served, counted as filled, and still to come. */
  function Total(c: Conn): nat {
    |Concat(c.served)| + c.recvd + |Concat(c.chunks)|
  }

  /** Every read that completes a request ends with it. */
  ghost predicate NeverCrosses(p: Parser, c: Conn)
    requires Bounded(p.check) && Sound(c)
    decreases |Concat(c.chunks)|
  {
    var g := Grown(c);
    g.recvd > |g.req| || g.chunks == [] ||
    (ReadMovesBytes(g);
     var d := Read(g);
     var n := p.check(Filled(d));
     && (n == 0 ==> NeverCrosses(p, d))
     && (n > 0 && p.parses(d.req[..n]) ==>
           n == d.recvd && (Serve(p, d, n).keepAlive ==> NeverCrosses(p, Serve(p, d, n)))))
  }

  /** What is left after serving is the bytes received since exactly if there are none. If there are, they are in front,
      but the fill counts the served request again: as many stale bytes follow, or the fill exceeds the buffer,
      exactly if those do not fit. */
  lemma LeftoverKeptExactlyIfNone(p: Parser, c: Conn, n: nat)
    requires Sound(c) && 0 < n <= c.recvd <= |c.req|
    ensures var d := Serve(p, c, n);
            && ((d.recvd <= |d.req| && Filled(d) == c.req[n..c.recvd]) <==> c.recvd == n)
            && (c.recvd > n && d.recvd <= |d.req| ==> Filled(d) == c.req[n..c.recvd + n] && c.req[n..c.recvd] <= Filled(d))
            && (d.recvd > |d.req| <==> c.recvd > n && c.recvd + n > |c.req|)
            && Total(d) == Total(c) + (if c.recvd > n then n else 0)
  {
    ConcatAppend(c.served, c.req[..n]);
    if c.recvd == n {
      assert c.req[n..c.recvd] == [] == Filled(Serve(p, c, n));
    }
  }

  lemma ReadKeepsTotal(c: Conn)
    requires Sound(c) && c.recvd < |c.req| && c.chunks != []
    ensures Total(Read(c)) == Total(c)
  {
    ReadMovesBytes(c);
  }

  lemma {:induction false} TotalNeverShrinks(p: Parser, e: Ending, c: Conn)
    requires Bounded(p.check) && Sound(c)
    ensures Total(Ran(p, e, c).0) >= Total(c)
    decreases |Concat(c.chunks)|
  {
    hide Total;
    var g := Grown(c);
    SameTotal(c);
    if g.recvd <= |g.req| && g.chunks != [] {
      ReadMovesBytes(g);
      ReadKeepsTotal(g);
      var d := Read(g);
      var n := p.check(Filled(d));
      if n == 0 {
        TotalNeverShrinks(p, e, d);
      } else if n > 0 {
        LeftoverKeptExactlyIfNone(p, d, n);
        if p.parses(d.req[..n]) && Serve(p, d, n).keepAlive {
          TotalNeverShrinks(p, e, Serve(p, d, n));
        }
      }
    }
  }

  lemma SameTotal(c: Conn)
    ensures Total(Grown(c)) == Total(c)
  {
  }

  function Bytes(c: Conn): seq<Byte>
    requires c.recvd <= |c.req|
  {
    Concat(c.served) + Filled(c) + Concat(c.chunks)
  }

  lemma ReadKeepsBytes(c: Conn)
    requires Sound(c) && c.recvd <= |c.req| && Grown(c).chunks != []
    ensures Bytes(Read(Grown(c))) == Bytes(c)
  {
    GrownKeeps(c);
    ReadMovesBytes(Grown(c));
    BytesKept(c.served, Filled(c), c.chunks[0][..Amount(Grown(c))], Concat(Read(Grown(c)).chunks));
  }

  lemma ServeKeepsBytes(p: Parser, c: Conn)
    requires Sound(c) && 0 < c.recvd <= |c.req|
    ensures Serve(p, c, c.recvd).recvd == 0 && Bytes(Serve(p, c, c.recvd)) == Bytes(c)
  {
    var d := Serve(p, c, c.recvd);
    ConcatAppend(c.served, Filled(c));
    assert Filled(d) == [];
  }

  /** For every stream of bytes: the loop counts each byte once exactly if no read that completes a request goes
      beyond it, and then every byte is in its place and the buffer is never overrun. */
  lemma {:induction false} CountedOnceExactly(p: Parser, e: Ending, c: Conn)
    requires Bounded(p.check) && Sound(c) && c.recvd <= |c.req|
    ensures var (d, r) := Ran(p, e, c);
            && (Total(d) == Total(c) <==> NeverCrosses(p, c))
            && (NeverCrosses(p, c) ==> !r.Overrun? && d.recvd <= |d.req| && Bytes(d) == Bytes(c))
    decreases |Concat(c.chunks)|
  {
    hide Total, Bytes;
    var g := Grown(c);
    SameTotal(c);
    GrownKeeps(c);
    if g.chunks == [] {
      SameBytes(c);
      return;
    }
    ReadMovesBytes(g);
    ReadKeepsTotal(g);
    ReadKeepsBytes(c);
    var d := Read(g);
    var n := p.check(Filled(d));
    if n == 0 {
      CountedOnceExactly(p, e, d);
    } else if n > 0 && p.parses(d.req[..n]) {
      var s := Serve(p, d, n);
      LeftoverKeptExactlyIfNone(p, d, n);
      if n == d.recvd {
        ServeKeepsBytes(p, d);
        if s.keepAlive {
          CountedOnceExactly(p, e, s);
        }
      } else if s.keepAlive {
        TotalNeverShrinks(p, e, s);
      }
    }
  }

  lemma SameBytes(c: Conn)
    requires c.recvd <= |c.req| && 0 < |c.req|
    ensures Grown(c).recvd <= |Grown(c).req| && Bytes(Grown(c)) == Bytes(c)
  {
    GrownKeeps(c);
  }

  lemma OneTurn(p: Parser, e: Ending, c: Conn, n: nat)
    requires Bounded(p.check) && Sound(c) && c.recvd < |c.req| && c.chunks != []
    requires var d := Read(c); n == p.check(Filled(d)) > 0 && p.parses(d.req[..n]) && p.keeps(d.req[..n])
    ensures Ran(p, e, c) == Ran(p, e, Serve(p, Read(c), n))
  {
    ReadMovesBytes(c);
  }

  lemma LastTurn(p: Parser, e: Ending, c: Conn)
    requires Bounded(p.check) && Sound(c)
    ensures c.recvd > |c.req| ==> Ran(p, e, c) == (c, Overrun)
    ensures c.recvd <= |c.req| && c.chunks == [] ==> Ran(p, e, c) == (Grown(c), AtEnd(e))
  {
  }

  /** A non-pipelining client meets the condition. */
  lemma {:induction false} TrackedNeverCrosses(p: Parser, all: seq<Byte>, ms: seq<seq<Byte>>, c: Conn)
    requires Framing(p.check) && forall m | m in ms :: IsMessage(p.check, m)
    requires Sound(c) && c.recvd <= |c.req| && Tracks(all, ms, c.served, Filled(c), c.chunks)
    ensures NeverCrosses(p, c)
    decreases |Concat(c.chunks)|
  {
    hide PrefixStable, IsMessage, Cuts, Concat, NonEmpty, Accounts, Partial;
    GrownKeeps(c);
    var g := Grown(c);
    if g.chunks != [] {
      ReadMovesBytes(g);
      var d := Read(g);
      var now := Filled(d);
      TracksRead(p.check, all, ms, c.served, Filled(c), c.chunks, Amount(g), d.chunks);
      if now != ms[|c.served|] {
        TrackedNeverCrosses(p, all, ms, d);
      } else if p.parses(now) {
        assert d.req[..|now|] == now;
        var s := Serve(p, d, |now|);
        assert Filled(s) == [];
        TrackedNeverCrosses(p, all, ms, s);
      }
    }
  }

  /** Whenever a request of `n` bytes is served and kept alive, either nothing follows it or what was received and the
      request together fit the buffer. */
  ghost predicate NeverOverfills(p: Parser, c: Conn)
    requires Bounded(p.check) && Sound(c)
    decreases |Concat(c.chunks)|
  {
    var g := Grown(c);
    g.recvd > |g.req| || g.chunks == [] ||
    (ReadMovesBytes(g);
     var d := Read(g);
     var n := p.check(Filled(d));
     && (n == 0 ==> NeverOverfills(p, d))
     && (n > 0 && p.parses(d.req[..n]) && Serve(p, d, n).keepAlive ==>
           !(d.recvd > n && d.recvd + n > |d.req|) && NeverOverfills(p, Serve(p, d, n))))
  }

  /** For every stream of bytes: some read is told to write past the end of the buffer exactly if a request is served
      that does not fit beside what was received. */
  lemma {:induction false} OverrunExactly(p: Parser, e: Ending, c: Conn)
    requires Bounded(p.check) && Sound(c) && c.recvd <= |c.req|
    ensures Ran(p, e, c).1.Overrun? <==> !NeverOverfills(p, c)
    decreases |Concat(c.chunks)|
  {
    hide Concat, NonEmpty, Total;
    GrownKeeps(c);
    var g := Grown(c);
    if g.chunks != [] {
      ReadMovesBytes(g);
      var d := Read(g);
      var n := p.check(Filled(d));
      if n == 0 {
        OverrunExactly(p, e, d);
      } else if n > 0 && p.parses(d.req[..n]) {
        var s := Serve(p, d, n);
        LeftoverKeptExactlyIfNone(p, d, n);
        if s.keepAlive {
          if s.recvd <= |s.req| {
            OverrunExactly(p, e, s);
          } else {
            LastTurn(p, e, s);
          }
        }
      }
    }
  }

  /** When the first read holds a request of `n` bytes that is kept alive, and more, the next read overruns the buffer
      exactly if the bytes read and the request together exceed it. */
  lemma FirstCrossingOverruns(p: Parser, e: Ending, x: seq<Byte>, n: nat)
    requires Bounded(p.check) && x != []
    requires var y := if |x| <= 512 then x else x[..512];
             n < |y| && n == p.check(y) > 0 && p.parses(y[..n]) && p.keeps(y[..n])
    ensures var y := if |x| <= 512 then x else x[..512];
            Ran(p, e, Start([x])).1 == Overrun <==> |y| + n > 512
    ensures Ran(p, e, Start([x])).1 == Overrun ==> Ran(p, e, Start([x])).0.served == [x[..n]]
  {
    hide Ran;
    var c := Start([x]);
    var d := Read(c);
    ReadMovesBytes(c);
    assert Filled(d) == if |x| <= 512 then x else x[..512];
    assert d.req[..n] == Filled(d)[..n] == x[..n];
    var s := Serve(p, d, n);
    LeftoverKeptExactlyIfNone(p, d, n);
    OneTurn(p, e, c, n);
    LastTurn(p, e, s);
  }

  /** What the first read decides: a request that is not HTTP, does not parse or is not kept alive ends the loop. */
  lemma FirstReadDecides(p: Parser, e: Ending, x: seq<Byte>, rest: seq<seq<Byte>>)
    requires Bounded(p.check) && x != [] && NonEmpty(rest)
    ensures NonEmpty([x] + rest)
    ensures var y := if |x| <= 512 then x else x[..512]; var n := p.check(y); var (d, r) := Ran(p, e, Start([x] + rest));
            && (n < 0 ==> r == NotHttp && d.served == [])
            && (n > 0 && !p.parses(y[..n]) ==> r == ParseFailed && d.served == [])
            && (n > 0 && p.parses(y[..n]) && !p.keeps(y[..n]) ==> r == Done && d.served == [y[..n]])
  {
    var c := Start([x] + rest);
    var d := Read(c);
    ReadMovesBytes(c);
    assert ([x] + rest)[0] == x;
    assert Filled(d) == if |x| <= 512 then x else x[..512];
    assert p.check(Filled(d)) > 0 ==> d.req[..p.check(Filled(d))] == Filled(d)[..p.check(Filled(d))];
  }

  lemma {:induction false} ServedGrows(p: Parser, e: Ending, c: Conn)
    requires Bounded(p.check) && Sound(c)
    ensures c.served <= Ran(p, e, c).0.served
    decreases |Concat(c.chunks)|
  {
    hide Concat, NonEmpty, Amount;
    var g := Grown(c);
    if g.recvd <= |g.req| && g.chunks != [] {
      ReadMovesBytes(g);
      var d := Read(g);
      var n := p.check(Filled(d));
      if n == 0 {
        ServedGrows(p, e, d);
      } else if n > 0 && p.parses(d.req[..n]) && Serve(p, d, n).keepAlive {
        ServedGrows(p, e, Serve(p, d, n));
      }
    }
  }

  /** A turn that serves the message at the front of what was received. */
  lemma ServesFront(p: Parser, e: Ending, c: Conn, m: seq<Byte>)
    requires Framing(p.check) && IsMessage(p.check, m) && p.parses(m) && (c.keepAlive || p.keeps(m))
    requires Sound(c) && c.recvd <= |c.req| && c.chunks != [] && m <= Filled(Read(Grown(c)))
    ensures Ran(p, e, c) == Ran(p, e, Serve(p, Read(Grown(c)), |m|))
    ensures Serve(p, Read(Grown(c)), |m|).served == c.served + [m] && Serve(p, Read(Grown(c)), |m|).keepAlive
  {
    hide Concat, NonEmpty, Amount, PrefixStable;
    var d := Read(Grown(c));
    ReadMovesBytes(Grown(c));
    FrontIsFound(p.check, m, Filled(d));
    assert d.req[..|m|] == Filled(d)[..|m|] == m;
  }

  lemma FrontIsFound(check: seq<Byte> -> int, m: seq<Byte>, b: seq<Byte>)
    requires Framing(check) && IsMessage(check, m) && m <= b
    ensures check(b) == |m|
  {
    assert PrefixStable(check, m);
  }

  /** Two kept-alive messages that arrive together and fit: the first is served at once, the second, though complete, only
      when more bytes arrive. */
  lemma PipelinedMessageWaits(p: Parser, e: Ending, a: seq<Byte>, b: seq<Byte>, x: seq<Byte>)
    requires Framing(p.check) && IsMessage(p.check, a) && IsMessage(p.check, b) && p.parses(a) && p.parses(b) && p.keeps(a)
    requires 2 * |a| + |b| <= 512 && x != []
    ensures Ran(p, e, Start([a + b])).0.served == [a] && Ran(p, e, Start([a + b])).1 == AtEnd(e)
    ensures [a, b] <= Ran(p, e, Start([a + b, x])).0.served
  {
    hide Ran, PrefixStable, Serve, Read, Concat;
    FirstOfTwo(p, e, a, b, []);
    FirstOfTwo(p, e, a, b, [x]);
    assert [a + b] + [x] == [a + b, x] && [a + b] + [] == [a + b];
    LastTurn(p, e, Serve(p, Read(Start([a + b] + [])), |a|));
    SecondOfTwo(p, e, Serve(p, Read(Start([a + b] + [x])), |a|), b);
  }

  lemma SecondOfTwo(p: Parser, e: Ending, s: Conn, b: seq<Byte>)
    requires Framing(p.check) && IsMessage(p.check, b) && p.parses(b)
    requires Sound(s) && s.keepAlive && s.recvd <= |s.req| && s.chunks != [] && b <= Filled(s)
    ensures s.served + [b] <= Ran(p, e, s).0.served
  {
    hide Ran, PrefixStable, Serve, Grown, Concat;
    GrownKeeps(s);
    ReadMovesBytes(Grown(s));
    assert b <= Filled(Read(Grown(s)));
    ServesFront(p, e, s, b);
    ServedGrows(p, e, Serve(p, Read(Grown(s)), |b|));
  }

  lemma FirstOfTwo(p: Parser, e: Ending, a: seq<Byte>, b: seq<Byte>, rest: seq<seq<Byte>>)
    requires Framing(p.check) && IsMessage(p.check, a) && b != [] && p.parses(a) && p.keeps(a)
    requires 2 * |a| + |b| <= 512 && NonEmpty(rest)
    ensures Sound(Start([a + b] + rest))
    ensures var s := Serve(p, Read(Start([a + b] + rest)), |a|);
            && Ran(p, e, Start([a + b] + rest)) == Ran(p, e, s) && s.served == [a] && s.keepAlive && s.chunks == rest
            && s.recvd <= |s.req| && b <= Filled(s)
  {
    hide Ran, PrefixStable;
    var c := Start([a + b] + rest);
    assert c.chunks[0] == a + b && c.chunks[1..] == rest;
    ReadMovesBytes(c);
    var d := Read(c);
    assert Filled(d) == a + b;
    ServesFront(p, e, c, a);
    LeftoverKeptExactlyIfNone(p, d, |a|);
    assert d.req[|a|..d.recvd] == Filled(d)[|a|..] == b;
  }

  /** Messages of 300 bytes, whatever they are, that always ask for keep-alive. */
  const FIXED: Parser := Parser(b => if |b| >= 300 then 300 else 0, b => true, b => true)

  /** Two messages that arrive together: the first is served, the second never is, and the buffer is overrun. */
  lemma PipelinedMessagesOverrun(e: Ending, a: seq<Byte>, b: seq<Byte>)
    requires |a| == |b| == 300
    ensures Framing(FIXED.check) && IsMessage(FIXED.check, a) && IsMessage(FIXED.check, b)
    ensures Bounded(FIXED.check) && Ran(FIXED, e, Start([a + b])).1 == Overrun && Ran(FIXED, e, Start([a + b])).0.served == [a]
  {
    hide Ran;
    assert Bounded(FIXED.check);
    FirstCrossingOverruns(FIXED, e, a + b, 300);
    assert (a + b)[..300] == a;
  }

  // ----- the loop as implemented

  class HttpSrvWork {
    var chunks: seq<seq<Byte>>
    const ending: Ending
    const parser: Parser
    var req: seq<Byte>
    var recvd: nat
    var keepAlive: bool
    var served: seq<seq<Byte>>

    ghost function View(): Conn
      reads this
    {
      Conn(req, recvd, keepAlive, served, chunks)
    }

    constructor (arriving: seq<seq<Byte>>, e: Ending, p: Parser)
      ensures View() == Start(arriving) && ending == e && parser == p
    {
      chunks, ending, parser := arriving, e, p;
      served, keepAlive, recvd, req := [], false, 0, Zeros(INITIAL_SIZE);
    }

    /** Reads at most `max` bytes of the next chunk to the end of the filled part. */
    method Recv(max: nat) returns (n: nat)
      requires chunks != [] && Sound(View()) && 0 < max && recvd + max == |req|
      modifies this`chunks, this`req
      ensures 0 < n <= max && View().(recvd := recvd + n) == Read(old(View()))
    {
      var c := chunks[0];
      n := if |c| <= max then |c| else max;
      req := req[..recvd] + c[..n] + req[recvd + n..];
      chunks := (if n == |c| then [] else [c[n..]]) + chunks[1..];
      assert chunks == if n == |c| then old(chunks)[1..] else [c[n..]] + old(chunks)[1..];
    }

    /** Serves the request of the first `n` bytes, if it parses. */
    method ServeRequest(n: nat) returns (parsed: bool)
      requires Sound(View()) && 0 < n <= recvd <= |req|
      modifies this`served, this`keepAlive, this`req, this`recvd
      ensures parsed == parser.parses(old(req)[..n])
      ensures View() == if parsed then Serve(parser, old(View()), n) else old(View())
    {
      var m := req[..n];
      parsed := parser.parses(m);
      if parsed {
        served := served + [m];
        keepAlive := keepAlive || parser.keeps(m);
        if recvd > n {
          req := req[n..];
        } else if recvd == n {
          recvd := 0;
        }
      }
    }

    /** Doubles a full buffer. */
    method Grow()
      modifies this`req
      ensures View() == Grown(old(View()))
    {
      if recvd == |req| {
        req := req + Zeros(|req|);
      }
    }

    /** The loop computes `Ran`. */
    method Loop() returns (r: Outcome)
      requires Sound(View()) && Bounded(parser.check)
      modifies this
      ensures (View(), r) == Ran(parser, ending, old(View()))
    {
      hide Concat, NonEmpty, Grown, Read, Serve;
      ghost var c := View();
      while true
        invariant Sound(View()) && Ran(parser, ending, View()) == Ran(parser, ending, c)
        decreases |Concat(chunks)|
      {
        Grow();
        if recvd > |req| {
          return Overrun;
        }
        if chunks == [] {
          return if ending.PeerCloses? then Closed else if ending.RecvFails? then Failed else Unfinished;
        }
        ReadMovesBytes(View());
        var n := Recv(|req| - recvd);
        recvd := recvd + n;
        var nparsed := parser.check(req[..recvd]);
        if nparsed > 0 {
          var parsed := ServeRequest(nparsed);
          if !parsed {
            return ParseFailed;
          }
          if !keepAlive {
            return Done;
          }
        } else if nparsed < 0 {
          return NotHttp;
        }
      }
    }

    /** For a client that sends the messages `ms` and does not pipeline, the loop serves them in order, all whose
        bytes arrived; for any client, it loses bytes or overruns its buffer only if a read went beyond the request
        it completed. */
    method Run(ghost ms: seq<seq<Byte>>) returns (r: Outcome)
      requires View() == Start(chunks) && NonEmpty(chunks)
      requires Framing(parser.check) && forall m | m in ms :: IsMessage(parser.check, m)
      modifies this
      ensures (View(), r) == Ran(parser, ending, old(View()))
      ensures Cuts(old(chunks), [], ms) ==> Correct(parser, ending, Concat(old(chunks)), ms, View(), r)
      ensures Cuts(old(chunks), [], ms) && Concat(old(chunks)) == Concat(ms) && Wanted(parser, ms) ==>
                served == ms && r == AtEnd(ending)
      ensures NeverCrosses(parser, old(View())) ==> !r.Overrun? && recvd <= |req| && Bytes(View()) == Concat(old(chunks))
      ensures r.Overrun? <==> !NeverOverfills(parser, old(View()))
    {
      hide PrefixStable, IsMessage, Cuts, Concat, NeverCrosses, NeverOverfills, Correct, Bytes, Ran, Wanted;
      Meaning(parser, ending, ms, chunks);
      r := Loop();
    }
  }

  lemma Meaning(p: Parser, e: Ending, ms: seq<seq<Byte>>, chunks: seq<seq<Byte>>)
    requires Framing(p.check) && (forall m | m in ms :: IsMessage(p.check, m)) && NonEmpty(chunks)
    ensures var (d, r) := Ran(p, e, Start(chunks));
            && (Cuts(chunks, [], ms) ==> Correct(p, e, Concat(chunks), ms, d, r))
            && (Cuts(chunks, [], ms) && Concat(chunks) == Concat(ms) && Wanted(p, ms) ==> d.served == ms && r == AtEnd(e))
            && (NeverCrosses(p, Start(chunks)) ==> !r.Overrun? && d.recvd <= |d.req| && Bytes(d) == Concat(chunks))
            && (r.Overrun? <==> !NeverOverfills(p, Start(chunks)))
  {
    hide PrefixStable, IsMessage, Bounded, Cuts, Correct, Ran, NeverCrosses, NeverOverfills;
    if Cuts(chunks, [], ms) {
      NonPipelinedIsServed(p, e, ms, chunks);
    }
    CountedOnceExactly(p, e, Start(chunks));
    OverrunExactly(p, e, Start(chunks));
    assert Bytes(Start(chunks)) == Concat(chunks);
  }
}
