/**
 Length-prefixed messages over a socket (executor/server message.py, and its copy in the client).
 JSON stays outside: a message is its encoded payload.
 */
module Messages {
  import opened Common
  import opened LineCutting

  datatype RecvError = Eof | BufferTooSmall

  /**
   The receiving end of a connection: the bytes that arrive before it closes, how many were read,
   and how many the read number `turn` finds ready. A read blocks until at least one byte is there,
   so an offer of none, or of more than there can be, stands for all that can be read.
   */
  datatype RawConnection = Connection(stream: Bytes, at: nat, turn: nat, ready: nat -> nat) {
    predicate Valid() {
      at <= |stream|
    }

    function Pending(): Bytes
      requires Valid()
    {
      stream[at..]
    }

    function Take(wanted: nat): (n: nat)
      requires Valid()
      ensures n <= wanted && at + n <= |stream|
      ensures n == 0 <==> wanted == 0 || at == |stream|
    {
      var most := Min(wanted, |stream| - at);
      if 1 <= ready(turn) <= most then ready(turn) else most
    }

    function After(wanted: nat): (c: RawConnection)
      requires Valid()
      ensures c.Valid()
    {
      Connection(stream, at + Take(wanted), turn + 1, ready)
    }
  }

  type Connection = c: RawConnection | c.Valid() witness Connection([], 0, 0, _ => 1)

  function Min(a: nat, b: nat): nat {
    if a < b then a else b
  }

  class Socket {
    var conn: Connection

    constructor (conn: Connection)
      ensures this.conn == conn
    {
      this.conn := conn;
    }

    /**
     `recv_into` on the view of `buf` that starts at `offset`. When the buffer holds, up to there,
     what the stream delivered since `from`, it still does afterwards.
     */
    method RecvInto(buf: array<byte>, offset: nat, wanted: nat, ghost from: nat)
      returns (received: Result<nat, RecvError>)
      requires offset <= buf.Length && from <= conn.at
      modifies this, buf
      ensures wanted > buf.Length - offset ==> received == Err(BufferTooSmall) && conn == old(conn)
      ensures wanted <= buf.Length - offset ==>
                received == Ok(old(conn).Take(wanted)) && conn == old(conn).After(wanted)
      ensures received.Ok? && old(buf[..offset] == conn.stream[from..conn.at]) ==>
                buf[..offset + received.value] == conn.stream[from..conn.at]
    {
      if wanted > buf.Length - offset {
        return Err(BufferTooSmall);
      }
      var n := conn.Take(wanted);
      ghost var held := buf[..offset];
      assert held + conn.stream[conn.at..conn.at] == held;
      for i := 0 to n
        invariant conn == old(conn)
        invariant buf[..offset + i] == held + conn.stream[conn.at..conn.at + i]
      {
        buf[offset + i] := conn.stream[conn.at + i];
        assert buf[..offset + i + 1] == buf[..offset + i] + [conn.stream[conn.at + i]];
      }
      Glue(conn.stream, from, conn.at, conn.at + n);
      conn := conn.After(wanted);
      received := Ok(n);
    }
  }

  /** The result of a call and the connection it leaves. */
  datatype Reception = Reception(result: Result<Bytes, RecvError>, after: Connection)

  lemma Glue(s: Bytes, a: nat, b: nat, c: nat)
    requires a <= b <= c <= |s|
    ensures s[a..b] + s[b..c] == s[a..c]
  {
  }

  /**
   What `recv` amounts to: at most two reads, a third one being refused before it reads anything.
   Success consumes exactly `length` bytes and yields them, failure consumes fewer.
   */
  function RecvSpec(c: Connection, length: nat): (r: Reception)
    ensures r.after.stream == c.stream
    ensures r.result.Ok? ==> r.after.at == c.at + length && r.result.value == c.stream[c.at..r.after.at]
    ensures r.result.Err? ==> c.at <= r.after.at < c.at + length
  {
    if length == 0 then Reception(Ok([]), c)
    else
      var n1, c1 := c.Take(length), c.After(length);
      if n1 == 0 then Reception(Err(Eof), c1)
      else if n1 == length then Reception(Ok(c.stream[c.at..c1.at]), c1)
      else
        var n2, c2 := c1.Take(length - n1), c1.After(length - n1);
        if n2 == 0 then Reception(Err(Eof), c2)
        else if n1 + n2 == length then Reception(Ok(c.stream[c.at..c2.at]), c2)
        else Reception(Err(BufferTooSmall), c2)
  }

  /**
   `Message.recv`. The view is advanced by the running total instead of by the last read, so after
   the second read it starts too far into the buffer; a third read then asks for more than it has.
   */
  method Recv(sock: Socket, length: nat) returns (r: Result<Bytes, RecvError>)
    modifies sock
    ensures Reception(r, sock.conn) == RecvSpec(old(sock.conn), length)
  {
    var buf := new byte[length](_ => 0);
    ghost var c, c1 := sock.conn, sock.conn.After(length);
    ghost var n1 := c.Take(length);
    ghost var n2, c2 := c1.Take(length - n1), c1.After(length - n1);
    ghost var turns := 0;
    var offset := 0;
    var cur := 0;
    while cur < length
      invariant fresh(buf) && 0 <= turns <= 2
      invariant turns == 0 ==> cur == 0 == offset && sock.conn == c
      invariant turns == 1 ==> n1 > 0 && cur == offset == n1 && sock.conn == c1
      invariant turns == 2 ==> 0 < n1 < length && n2 > 0 && cur == n1 + n2 && sock.conn == c2
                               && offset == Min(length, n1 + cur)
      invariant cur <= length && sock.conn.at == c.at + cur && buf[..cur] == c.stream[c.at..sock.conn.at]
      decreases 2 - turns
    {
      assert turns == 2 ==> length - cur > buf.Length - offset;
      var received := sock.RecvInto(buf, offset, length - cur, c.at);
      assert turns == 0 ==> received == Ok(n1);
      assert turns == 1 ==> received == Ok(n2);
      if received.Err? {
        return Err(received.error);
      }
      if received.value == 0 {
        return Err(Eof);
      }
      cur := cur + received.value;
      offset := Min(length, offset + cur);
      turns := turns + 1;
    }
    assert buf[..length] == buf[..];
    r := Ok(buf[..]);
  }

  // ---------------------------------------------------------------------------
  // What recv promises

  /** The bytes of the message arrive in at most two reads. */
  predicate InTwoReads(c: Connection, length: nat) {
    var n1 := c.Take(length);
    n1 + c.After(length).Take(length - n1) == length
  }

  /**
   `recv` returns exactly when its bytes come in at most two reads, and then they are the next bytes
   of the stream and nothing more was consumed. When it raises, it consumed less than the message.
   */
  lemma RecvExact(c: Connection, length: nat)
    ensures var Reception(r, after) := RecvSpec(c, length);
            && (r.Ok? <==> InTwoReads(c, length))
            && (r.Ok? ==> length <= |c.Pending()| && r.value == c.Pending()[..length]
                          && after.Pending() == c.Pending()[length..])
            && (r.Err? ==> c.at <= after.at < c.at + length && after.stream == c.stream)
  {
    RecvPending(c, length);
  }

  lemma RecvPending(c: Connection, length: nat)
    ensures var Reception(r, after) := RecvSpec(c, length);
            r.Ok? ==> length <= |c.Pending()| && r.value == c.Pending()[..length]
                      && after.Pending() == c.Pending()[length..]
  {
  }

  /** A stream that holds the message but delivers it in three pieces is refused. */
  lemma ThirdReadRefused(stream: Bytes, ready: nat -> nat)
    requires |stream| == 3 && ready(0) == ready(1) == 1
    ensures RecvSpec(Connection(stream, 0, 0, ready), 3).result == Err(BufferTooSmall)
  {
    RecvExact(Connection(stream, 0, 0, ready), 3);
  }

  // ---------------------------------------------------------------------------
  // Frames

  const LIMIT := 0x1_0000_0000

  /** The `k` low base-256 digits of `n`, most significant first. */
  function BigEndian(n: nat, k: nat): (b: Bytes)
    ensures |b| == k
    decreases k
  {
    if k == 0 then [] else BigEndian(n / 256, k - 1) + [(n % 256) as byte]
  }

  /** `struct.unpack("!I", b)` on four bytes. */
  function Value(b: Bytes): nat {
    if |b| == 0 then 0 else Value(b[..|b| - 1]) * 256 + b[|b| - 1] as nat
  }

  function Power256(k: nat): nat {
    if k == 0 then 1 else 256 * Power256(k - 1)
  }

  lemma {:induction false} ValueOfBigEndian(n: nat, k: nat)
    requires n < Power256(k)
    ensures Value(BigEndian(n, k)) == n
    decreases k
  {
    if k > 0 {
      ValueOfBigEndian(n / 256, k - 1);
      assert BigEndian(n, k)[..k - 1] == BigEndian(n / 256, k - 1);
    }
  }

  /** `struct.pack("!I", n)`. */
  function Pack(n: nat): Bytes {
    BigEndian(n, 4)
  }

  /** A way to write lengths below the limit in four bytes that `Value` reads back. */
  ghost predicate IsHeader(pack: nat -> Bytes) {
    forall n: nat :: n < LIMIT ==> |pack(n)| == 4 && Value(pack(n)) == n
  }

  lemma PackIsHeader()
    ensures IsHeader(Pack)
  {
    assert Power256(4) == 256 * Power256(3) && Power256(3) == 256 * Power256(2) && Power256(2) == 256 * Power256(1);
    forall n: nat | n < LIMIT
      ensures |Pack(n)| == 4 && Value(Pack(n)) == n
    {
      ValueOfBigEndian(n, 4);
    }
  }

  ghost predicate Sendable(payloads: seq<Bytes>) {
    forall i :: 0 <= i < |payloads| ==> |payloads[i]| < LIMIT
  }

  /** What a list of `send` calls writes. */
  function Frames(pack: nat -> Bytes, payloads: seq<Bytes>): Bytes {
    if |payloads| == 0 then [] else pack(|payloads[0]|) + (payloads[0] + Frames(pack, payloads[1..]))
  }

  /** `next_message`, up to the decoding of the frame. */
  function NextFrame(c: Connection): Reception {
    var header := RecvSpec(c, 4);
    if header.result.Err? then header else RecvSpec(header.after, Value(header.result.value))
  }

  method NextMessage(sock: Socket) returns (r: Result<Bytes, RecvError>)
    modifies sock
    ensures Reception(r, sock.conn) == NextFrame(old(sock.conn))
  {
    var header := Recv(sock, 4);
    if header.Err? {
      return header;
    }
    r := Recv(sock, Value(header.value));
  }

  /** Successive `next_message` calls, none of which raises: what they return and the connection between them. */
  ghost predicate Successive(conns: seq<Connection>, got: seq<Bytes>) {
    |conns| == |got| + 1 && forall i :: 0 <= i < |got| ==> CallAt(conns, got, i)
  }

  ghost predicate CallAt(conns: seq<Connection>, got: seq<Bytes>, i: nat)
    requires i < |got| < |conns|
  {
    NextFrame(conns[i]) == Reception(Ok(got[i]), conns[i + 1])
  }

  lemma FrameHeader(s: Bytes, header: Bytes, body: Bytes)
    requires s <= header + body && |header| <= |s|
    ensures s[..|header|] == header && s[|header|..] <= body
  {
    assert s[..|header|] == (header + body)[..|header|] == header;
  }

  /** One call on a stream that starts with a frame, perhaps cut short: its payload, or an error. */
  lemma FirstFrame(c: Connection, header: Bytes, first: Bytes, rest: Bytes)
    requires |header| == 4 && Value(header) == |first| && c.Pending() <= header + (first + rest)
    ensures var Reception(r, after) := NextFrame(c);
            r.Ok? ==> r.value == first && after.Pending() <= rest
  {
    var h := RecvSpec(c, 4);
    RecvPending(c, 4);
    if h.result.Ok? {
      FrameHeader(c.Pending(), header, first + rest);
      RecvPending(h.after, |first|);
      if RecvSpec(h.after, |first|).result.Ok? {
        FrameHeader(h.after.Pending(), first, rest);
      }
    }
  }

  /** Nothing but an error comes from an exhausted stream. */
  lemma NoFrame(c: Connection)
    ensures NextFrame(c).result.Ok? ==> c.Pending() != []
  {
    RecvPending(c, 4);
  }

  lemma {:induction false} ReceivedSoFar(pack: nat -> Bytes, conns: seq<Connection>, got: seq<Bytes>,
                                         payloads: seq<Bytes>, k: nat)
    requires IsHeader(pack) && Successive(conns, got) && Sendable(payloads)
    requires conns[0].Pending() <= Frames(pack, payloads) && k <= |got|
    ensures k <= |payloads| && got[..k] == payloads[..k] && conns[k].Pending() <= Frames(pack, payloads[k..])
  {
    if k == 0 {
      assert payloads[0..] == payloads;
    } else {
      ReceivedSoFar(pack, conns, got, payloads, k - 1);
      var left := payloads[k - 1..];
      assert CallAt(conns, got, k - 1);
      NoFrame(conns[k - 1]);
      assert left[1..] == payloads[k..] && left[0] == payloads[k - 1];
      LastOf(got[..k]);
      LastOf(payloads[..k]);
      assert got[..k][..k - 1] == got[..k - 1] && payloads[..k][..k - 1] == payloads[..k - 1];
      FirstFrame(conns[k - 1], pack(|left[0]|), left[0], Frames(pack, left[1..]));
    }
  }

  /**
   Over any delivery of any number of frames, even one that the connection cuts short, the calls up
   to the first one that raises return the sent payloads in order, from the first, without gaps.
   */
  lemma ReceivedIsPrefix(pack: nat -> Bytes, conns: seq<Connection>, got: seq<Bytes>, payloads: seq<Bytes>)
    requires IsHeader(pack) && Successive(conns, got) && Sendable(payloads)
    requires conns[0].Pending() <= Frames(pack, payloads)
    ensures got <= payloads
  {
    ReceivedSoFar(pack, conns, got, payloads, |got|);
  }

  /** The same for whole messages, under any encoding that decoding undoes. */
  lemma MessagesInOrder<M>(encode: M -> Bytes, decode: Bytes -> M, messages: seq<M>,
                           conns: seq<Connection>, got: seq<Bytes>)
    requires forall m :: m in messages ==> decode(encode(m)) == m && |encode(m)| < LIMIT
    requires Successive(conns, got)
    requires conns[0].Pending() <= Frames(Pack, seq(|messages|, i requires 0 <= i < |messages| => encode(messages[i])))
    ensures |got| <= |messages| && forall i :: 0 <= i < |got| ==> decode(got[i]) == messages[i]
  {
    var payloads := seq(|messages|, i requires 0 <= i < |messages| => encode(messages[i]));
    PackIsHeader();
    ReceivedIsPrefix(Pack, conns, got, payloads);
  }

  // ---------------------------------------------------------------------------
  // After a refusal

  lemma RefusedAfterTwoReads(c: Connection, length: nat)
    requires RecvSpec(c, length).result == Err(BufferTooSmall)
    ensures c.at + 2 <= RecvSpec(c, length).after.at < c.at + length
  {
  }

  /** A refused read leaves the connection inside the frame: a later call does not start at a frame. */
  lemma RefusalIsMidFrame(c: Connection, header: Bytes, first: Bytes, rest: Bytes)
    requires |header| == 4 && Value(header) == |first| && c.Pending() <= header + (first + rest)
    requires NextFrame(c).result == Err(BufferTooSmall)
    ensures c.at < NextFrame(c).after.at < c.at + |header + first|
  {
    var h := RecvSpec(c, 4);
    if h.result.Err? {
      RefusedAfterTwoReads(c, 4);
    } else {
      RecvPending(c, 4);
      FrameHeader(c.Pending(), header, first + rest);
      RefusedAfterTwoReads(h.after, |first|);
    }
  }

  /** The only frame sent in the instance below: its payload ends with what looks like a frame for [7]. */
  const NESTED: Bytes := [0, 0, 0, 7, 1, 1, 0, 0, 0, 1, 7]

  function Delivery(turn: nat): nat {
    if turn == 1 || turn == 2 then 1 else 4
  }

  /** Order holds only up to the first failure: the call after a refusal can return what nobody sent. */
  lemma MisreadAfterRefusal()
    ensures var c := Connection(NESTED, 0, 0, Delivery);
            && Value(NESTED[..4]) == |NESTED[4..]|
            && NextFrame(c).result == Err(BufferTooSmall)
            && NextFrame(NextFrame(c).after).result == Ok([7])
  {
    NestedIsRefused();
    NestedIsMisread();
  }

  lemma NestedIsRefused()
    ensures Value(NESTED[..4]) == |NESTED[4..]|
    ensures NextFrame(Connection(NESTED, 0, 0, Delivery))
         == Reception(Err(BufferTooSmall), Connection(NESTED, 6, 3, Delivery))
  {
    ValueOfFour(0, 0, 0, 7);
    assert NESTED[..4] == [0, 0, 0, 7] && NESTED[0..4] == [0, 0, 0, 7];
  }

  lemma NestedIsMisread()
    ensures NextFrame(Connection(NESTED, 6, 3, Delivery)).result == Ok([7])
  {
    ValueOfFour(0, 0, 0, 1);
    assert NESTED[6..10] == [0, 0, 0, 1] && NESTED[10..11] == [7];
  }

  lemma ValueSnoc(s: seq<byte>, b: byte)
    ensures Value(s + [b]) == Value(s) * 256 + b as nat
  {
    assert (s + [b])[..|s|] == s;
  }

  lemma ValueOfFour(a: byte, b: byte, c: byte, d: byte)
    ensures Value([a, b, c, d]) == ((a as nat * 256 + b as nat) * 256 + c as nat) * 256 + d as nat
  {
    ValueSnoc([], a);
    ValueSnoc([] + [a], b);
    ValueSnoc([] + [a] + [b], c);
    ValueSnoc([] + [a] + [b] + [c], d);
    assert [] + [a] + [b] + [c] + [d] == [a, b, c, d];
  }
}
