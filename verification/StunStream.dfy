// Messages over a byte stream (section 7.2.2 of RFC 5389): the stream arrives in chunks that
// say nothing about where a message ends.
module StunStream {
  import opened Common
  import opened Stun

  datatype Failure = ClosedEarly | WrongCookie

  type Chunks = seq<Bytes>

  // No chunk is empty: an empty read means the peer has closed.
  predicate Arriving(chunks: Chunks) {
    forall i :: 0 <= i < |chunks| ==> chunks[i] != []
  }

  function Flat(chunks: Chunks): Bytes {
    if |chunks| == 0 then [] else chunks[0] + Flat(chunks[1..])
  }

  // ---- The stream as one sequence of bytes ----

  // One message from the front of the stream, and what is left of the stream; a wrong cookie
  // is noticed after the header, an early end only when nothing more comes.
  function NextMessage(stream: Bytes): (Result<Message, Failure>, Bytes) {
    if |stream| < 20 then (Err(ClosedEarly), [])
    else if stream[4..8] != MAGIC_COOKIE then (Err(WrongCookie), stream[20..])
    else
      var length := HeaderLength(stream);
      if |stream| < 20 + length then (Err(ClosedEarly), [])
      else (Ok(Message(FromU16(stream[0], stream[1]), stream[8..20], stream[20..20 + length])), stream[20 + length..])
  }

  // All messages up to the first failure, that failure, and what is left.
  function AllMessages(stream: Bytes): (seq<Message>, Failure, Bytes)
    decreases |stream|
  {
    match NextMessage(stream)
    case (Err(f), rest) => ([], f, rest)
    case (Ok(m), rest) =>
      var (more, f, last) := AllMessages(rest);
      ([m] + more, f, last)
  }

  // ---- The stream as the chunks it arrives in ----

  // At most n bytes of the first chunk; nothing once the peer has closed.
  function RecvFrom(chunks: Chunks, n: nat): (Bytes, Chunks)
    requires n > 0
  {
    if |chunks| == 0 then ([], [])
    else if |chunks[0]| <= n then (chunks[0], chunks[1..])
    else (chunks[0][..n], [chunks[0][n..]] + chunks[1..])
  }

  // Exactly size bytes, added to those read before.
  function ExactFrom(chunks: Chunks, got: Bytes, size: nat): (Result<Bytes, Failure>, Chunks)
    requires Arriving(chunks) && |got| <= size
    decreases size - |got|
  {
    if |got| == size then (Ok(got), chunks)
    else
      var (chunk, left) := RecvFrom(chunks, size - |got|);
      if chunk == [] then (Err(ClosedEarly), left)
      else RecvKeepsArriving(chunks, size - |got|); ExactFrom(left, got + chunk, size)
  }

  function MessageFrom(chunks: Chunks): (Result<Message, Failure>, Chunks)
    requires Arriving(chunks)
  {
    var (header, left) := ExactFrom(chunks, [], 20);
    ExactIsPrefix(chunks, [], 20);
    if header.Err? then (Err(header.error), left)
    else
      var h := header.value;
      if h[4..8] != MAGIC_COOKIE then (Err(WrongCookie), left)
      else
        var (body, last) := ExactFrom(left, [], HeaderLength(h));
        if body.Err? then (Err(body.error), last)
        else (Ok(Message(FromU16(h[0], h[1]), h[8..20], body.value)), last)
  }

  lemma RecvKeepsArriving(chunks: Chunks, n: nat)
    requires Arriving(chunks) && n > 0
    ensures var (got, left) := RecvFrom(chunks, n);
            && |got| <= n && Arriving(left) && Flat(chunks) == got + Flat(left)
            && (got == [] <==> chunks == []) && (got == [] <==> Flat(chunks) == [])
  {
    if |chunks| > 0 {
      var first, rest := chunks[0], chunks[1..];
      assert first != [];
      if |first| > n {
        var left := [first[n..]] + rest;
        assert left[1..] == rest && first == first[..n] + first[n..];
        BytesAssoc(first[..n], first[n..], Flat(rest));
      }
    }
  }

  // What an exact read returns, in terms of the bytes alone.
  lemma {:induction false} ExactIsPrefix(chunks: Chunks, got: Bytes, size: nat)
    requires Arriving(chunks) && |got| <= size
    ensures var (r, left) := ExactFrom(chunks, got, size); var all := got + Flat(chunks);
            && Arriving(left)
            && if |all| >= size then r == Ok(all[..size]) && Flat(left) == all[size..]
               else r == Err(ClosedEarly) && Flat(left) == []
    decreases size - |got|
  {
    if |got| == size {
      Prefix(got, Flat(chunks));
    } else {
      var (chunk, left) := RecvFrom(chunks, size - |got|);
      RecvKeepsArriving(chunks, size - |got|);
      if chunk != [] {
        BytesAssoc(got, chunk, Flat(left));
        ExactIsPrefix(left, got + chunk, size);
      }
    }
  }

  lemma HeaderOf(stream: Bytes)
    requires |stream| >= 20
    ensures var h := stream[..20];
            && h[0] == stream[0] && h[1] == stream[1] && HeaderLength(h) == HeaderLength(stream)
            && h[4..8] == stream[4..8] && h[8..20] == stream[8..20]
  {
  }

  // The body's read, in terms of the whole stream.
  lemma BodyIsPrefix(left: Chunks, stream: Bytes, length: nat)
    requires Arriving(left) && |stream| >= 20 && Flat(left) == stream[20..]
    ensures var (r, last) := ExactFrom(left, [], length);
            && Arriving(last)
            && if |stream| >= 20 + length then r == Ok(stream[20..20 + length]) && Flat(last) == stream[20 + length..]
               else r == Err(ClosedEarly) && Flat(last) == []
  {
    ExactIsPrefix(left, [], length);
    assert [] + Flat(left) == stream[20..];
    if |stream| >= 20 + length {
      assert stream[20..][..length] == stream[20..20 + length];
      assert stream[20..][length..] == stream[20 + length..];
    }
  }

  // One message received from chunks is the one at the front of their bytes, and as much of
  // the stream is used up.
  lemma MessageIsNext(chunks: Chunks)
    requires Arriving(chunks)
    ensures Arriving(MessageFrom(chunks).1)
    ensures (MessageFrom(chunks).0, Flat(MessageFrom(chunks).1)) == NextMessage(Flat(chunks))
  {
    hide ExactFrom, Flat, HeaderLength;
    var stream := Flat(chunks);
    ExactIsPrefix(chunks, [], 20);
    assert [] + stream == stream;
    if |stream| >= 20 {
      HeaderOf(stream);
      BodyIsPrefix(ExactFrom(chunks, [], 20).1, stream, HeaderLength(stream));
    }
  }

  // All messages received from chunks, up to the first failure.
  function AllFrom(chunks: Chunks): (seq<Message>, Failure)
    requires Arriving(chunks)
    decreases |Flat(chunks)|
  {
    MessageIsNext(chunks);
    match MessageFrom(chunks)
    case (Err(f), _) => ([], f)
    case (Ok(m), left) => ([m] + AllFrom(left).0, AllFrom(left).1)
  }

  // ---- The socket ----

  class Socket {
    var chunks: Chunks

    ghost predicate Valid()
      reads this
    {
      Arriving(chunks)
    }

    ghost function Pending(): Bytes
      reads this
    {
      Flat(chunks)
    }

    constructor (arriving: Chunks)
      requires Arriving(arriving)
      ensures Valid() && chunks == arriving
    {
      chunks := arriving;
    }

    method Recv(n: nat) returns (got: Bytes)
      requires Valid() && n > 0
      modifies this
      ensures Valid() && (got, chunks) == RecvFrom(old(chunks), n)
      ensures |got| <= n && old(Pending()) == got + Pending()
      ensures got == [] <==> old(Pending()) == []
    {
      RecvKeepsArriving(chunks, n);
      if |chunks| == 0 {
        return [];
      }
      if |chunks[0]| <= n {
        got, chunks := chunks[0], chunks[1..];
      } else {
        got, chunks := chunks[0][..n], [chunks[0][n..]] + chunks[1..];
      }
    }

    // Exactly size bytes, or a failure that has used up the stream.
    method RecvExact(size: nat) returns (r: Result<Bytes, Failure>)
      requires Valid()
      modifies this
      ensures Valid() && (r, chunks) == ExactFrom(old(chunks), [], size)
      ensures if |old(Pending())| >= size
              then r == Ok(old(Pending())[..size]) && Pending() == old(Pending())[size..]
              else r == Err(ClosedEarly) && Pending() == []
    {
      ExactIsPrefix(chunks, [], size);
      assert [] + Pending() == Pending();
      var got: Bytes := [];
      while |got| < size
        invariant Valid() && |got| <= size
        invariant ExactFrom(chunks, got, size) == ExactFrom(old(chunks), [], size)
        decreases size - |got|
      {
        var chunk := Recv(size - |got|);
        if chunk == [] {
          return Err(ClosedEarly);
        }
        got := got + chunk;
      }
      r := Ok(got);
    }

    // One message. Its result depends on the bytes alone, not on how they were cut up.
    method RecvMessage() returns (r: Result<Message, Failure>)
      requires Valid()
      modifies this
      ensures Valid() && (r, chunks) == MessageFrom(old(chunks))
      ensures (r, Pending()) == NextMessage(old(Pending()))
    {
      MessageIsNext(chunks);
      var header := RecvExact(20);
      if header.Err? {
        return Err(header.error);
      }
      var h := header.value;
      var kind, length := FromU16(h[0], h[1]), FromU16(h[2], h[3]);
      if h[4..8] != MAGIC_COOKIE {
        return Err(WrongCookie);
      }
      var body := RecvExact(length);
      if body.Err? {
        return Err(body.error);
      }
      r := Ok(Message(kind, h[8..20], body.value));
    }
  }

  lemma Prefix(a: Bytes, b: Bytes)
    ensures (a + b)[..|a|] == a && (a + b)[|a|..] == b
  {
  }

  // ---- What the framing guarantees ----

  // However the bytes were cut into chunks, the messages received are those of the stream.
  lemma {:induction false} ReceivedIsParsed(chunks: Chunks)
    requires Arriving(chunks)
    ensures AllFrom(chunks) == (AllMessages(Flat(chunks)).0, AllMessages(Flat(chunks)).1)
    decreases |Flat(chunks)|
  {
    MessageIsNext(chunks);
    if MessageFrom(chunks).0.Ok? {
      ReceivedIsParsed(MessageFrom(chunks).1);
    }
  }

  lemma ChunkingIsUnobservable(a: Chunks, b: Chunks)
    requires Arriving(a) && Arriving(b) && Flat(a) == Flat(b)
    ensures AllFrom(a) == AllFrom(b)
  {
    ReceivedIsParsed(a);
    ReceivedIsParsed(b);
  }

  predicate AllSendable(messages: seq<Message>) {
    forall i :: 0 <= i < |messages| ==> Sendable(messages[i])
  }

  function WireAll(messages: seq<Message>): Bytes
    requires AllSendable(messages)
  {
    if |messages| == 0 then [] else Wire(messages[0]) + WireAll(messages[1..])
  }

  lemma WireIsNext(m: Message, rest: Bytes)
    requires Sendable(m)
    ensures NextMessage(Wire(m) + rest) == (Ok(m), rest)
    ensures |Wire(m)| == 20 + |m.body|
  {
    var header := Header(m.kind, |m.body|, m.txid);
    BytesAssoc(header, m.body, rest);
    HeaderFields(m.kind, |m.body|, m.txid, m.body + rest);
    assert Txid12(m.txid) == m.txid;
    hide Header, Txid12;
    Body(header, m.body, rest);
  }

  lemma Body(header: Bytes, body: Bytes, rest: Bytes)
    requires |header| == 20
    ensures var stream := header + (body + rest);
            stream[20..20 + |body|] == body && stream[20 + |body|..] == rest
  {
  }

  lemma OneMoreMessage(stream: Bytes, m: Message, rest: Bytes)
    requires NextMessage(stream) == (Ok(m), rest)
    ensures AllMessages(stream) == ([m] + AllMessages(rest).0, AllMessages(rest).1, AllMessages(rest).2)
  {
    hide NextMessage;
  }

  lemma ConsMessages(m: Message, a: seq<Message>, b: seq<Message>)
    ensures [m] + (a + b) == ([m] + a) + b
  {
  }

  // Any messages, sent one after the other and followed by anything: exactly those messages
  // are received first, and then whatever that rest gives.
  lemma {:induction false} SentMessagesAreReceived(messages: seq<Message>, rest: Bytes)
    requires AllSendable(messages)
    ensures AllMessages(WireAll(messages) + rest).0 == messages + AllMessages(rest).0
    ensures AllMessages(WireAll(messages) + rest).1 == AllMessages(rest).1
    ensures AllMessages(WireAll(messages) + rest).2 == AllMessages(rest).2
  {
    if |messages| == 0 {
      assert [] + rest == rest;
    } else {
      var first, others := messages[0], WireAll(messages[1..]);
      SentMessagesAreReceived(messages[1..], rest);
      WireIsNext(first, others + rest);
      hide Wire, NextMessage, AllMessages;
      BytesAssoc(Wire(first), others, rest);
      OneMoreMessage(WireAll(messages) + rest, first, others + rest);
      ConsMessages(first, messages[1..], AllMessages(rest).0);
      assert messages == [first] + messages[1..];
    }
  }

  // A message takes exactly its header and as many bytes as its length field says, and
  // receiving fails only on an early end or a wrong cookie; sent again, it is the same bytes.
  lemma NextMessageIsFramed(stream: Bytes)
    ensures var (r, rest) := NextMessage(stream);
            match r
            case Ok(m) => Sendable(m) && stream == Wire(m) + rest
            case Err(WrongCookie) => |stream| >= 20 && stream[4..8] != MAGIC_COOKIE && rest == stream[20..]
            case Err(ClosedEarly) => rest == [] && (|stream| < 20 || |stream| < 20 + HeaderLength(stream))
  {
    var (r, rest) := NextMessage(stream);
    if r.Ok? {
      var m := r.value;
      PackTwoBack(stream[..4]);
      assert stream[..20] == stream[..4] + (stream[4..8] + stream[8..20]);
      assert stream == stream[..20] + (stream[20..20 + |m.body|] + rest);
    }
  }

  // A request that could be built is received, however it is cut up and whatever follows it.
  lemma RequestIsReceived(txid: Bytes, l: Login, md5: Bytes -> Bytes, mac: (Bytes, Bytes) -> Digest, rest: Bytes)
    requires Authenticated(txid, l, md5, mac).Some?
    ensures var sent := Authenticated(txid, l, md5, mac).value;
            && |sent| >= 20
            && NextMessage(sent + rest) == (Ok(Message(0x0003, Txid12(txid), sent[20..])), rest)
  {
    AuthenticatedIsWellFormed(txid, l, md5, mac);
    var sent := Authenticated(txid, l, md5, mac).value;
    hide Parsed, IntegrityHolds, WellFormed, Heads, Authenticated, NextMessage;
    FramedIsNext(sent, LoginSize(l), txid, rest);
  }

  lemma FramedIsNext(sent: Bytes, length: nat, txid: Bytes, rest: Bytes)
    requires WellFormed(sent) && length < 0x1_0000 && sent[..20] == Header(ALLOCATE_REQUEST, length, txid)
    ensures NextMessage(sent + rest) == (Ok(Message(ALLOCATE_REQUEST, Txid12(txid), sent[20..])), rest)
  {
    hide Complete;
    HeaderFields(ALLOCATE_REQUEST, length, txid, sent[20..]);
    assert sent == sent[..20] + sent[20..];
    assert Txid12(Txid12(txid)) == Txid12(txid);
    WireIsNext(Message(ALLOCATE_REQUEST, Txid12(txid), sent[20..]), rest);
  }
}
