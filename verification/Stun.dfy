// The STUN codec of the relay check: attributes padded to four bytes, the two Allocate
// requests, and XOR addresses (RFC 5389 sections 6 and 15, RFC 5766 section 14). A value is
// a sequence of bytes; what does not fit a 16-bit field is an error, as in the packing call.
module Stun {
  import opened Common

  type Byte = b: int | 0 <= b < 256
  type Bytes = seq<Byte>
  type Digest = d: Bytes | |d| == 20 witness seq(20, i => 0)

  const ALLOCATE_REQUEST := 0x0003
  const ATTR_USERNAME := 0x0006
  const ATTR_MESSAGE_INTEGRITY := 0x0008
  const ATTR_REALM := 0x0014
  const ATTR_NONCE := 0x0015
  const ATTR_REQUESTED_TRANSPORT := 0x0019
  const REQUESTED_TRANSPORT_UDP: Bytes := [17, 0, 0, 0]
  const MAGIC_COOKIE: Bytes := [0x21, 0x12, 0xA4, 0x42]
  const MESSAGE_INTEGRITY_SIZE := 20

  // ---- Fields ----

  function FromU16(high: Byte, low: Byte): nat {
    256 * high + low
  }

  // Two 16-bit fields, big-endian.
  function PackTwo(m: nat, n: nat): (p: Bytes)
    requires m < 0x1_0000 && n < 0x1_0000
    ensures |p| == 4 && FromU16(p[0], p[1]) == m && FromU16(p[2], p[3]) == n
  {
    [m / 256, m % 256, n / 256, n % 256]
  }

  lemma FieldBytes(high: Byte, low: Byte)
    ensures FromU16(high, low) / 256 == high && FromU16(high, low) % 256 == low
  {
  }

  lemma PackTwoBack(p: Bytes)
    requires |p| == 4
    ensures PackTwo(FromU16(p[0], p[1]), FromU16(p[2], p[3])) == p
  {
    FieldBytes(p[0], p[1]);
    FieldBytes(p[2], p[3]);
    hide FromU16;
  }

  function Zeros(n: nat): (z: Bytes)
    ensures |z| == n
  {
    if n == 0 then [] else [0] + Zeros(n - 1)
  }

  // How many bytes are missing to the next multiple of four.
  function Padding(n: nat): (p: nat)
    ensures p < 4
  {
    if n == 0 then 0 else if n < 4 then 4 - n else Padding(n - 4)
  }

  function Pad4(value: Bytes): Bytes {
    value + Zeros(Padding(|value|))
  }

  lemma {:induction false} PadTo4(n: nat)
    ensures Padding(n) == (4 - n % 4) % 4
    ensures (n + Padding(n)) % 4 == 0
  {
    if n >= 4 { PadTo4(n - 4); }
  }

  lemma AlignedIsMultiple(n: nat)
    requires Padding(n) == 0
    ensures n % 4 == 0
  {
    PadTo4(n);
  }

  // ---- Attributes ----

  datatype Attr = Attr(kind: nat, value: Bytes)

  predicate Fits(a: Attr) {
    a.kind < 0x1_0000 && |a.value| < 0x1_0000
  }

  function EncodeAttr(a: Attr): Option<Bytes> {
    if Fits(a) then Some(Packed(a)) else None
  }

  function Packed(a: Attr): Bytes
    requires Fits(a)
  {
    PackTwo(a.kind, |a.value|) + Pad4(a.value)
  }

  predicate AllFit(attrs: seq<Attr>) {
    forall i :: 0 <= i < |attrs| ==> Fits(attrs[i])
  }

  function PackedAll(attrs: seq<Attr>): Bytes
    requires AllFit(attrs)
  {
    if |attrs| == 0 then [] else Packed(attrs[0]) + PackedAll(attrs[1..])
  }

  function Min(a: nat, b: nat): nat {
    if a < b then a else b
  }

  function LengthAt(body: Bytes): nat
    requires |body| >= 4
  {
    FromU16(body[2], body[3])
  }

  // Where the attribute after the first one starts.
  function Next(body: Bytes): nat
    requires |body| >= 4
  {
    4 + LengthAt(body) + Padding(LengthAt(body))
  }

  // The first attribute; its value is cut short where the body ends.
  function First(body: Bytes): Attr
    requires |body| >= 4
  {
    Attr(FromU16(body[0], body[1]), body[4..Min(4 + LengthAt(body), |body|)])
  }

  function Parsed(body: Bytes): seq<Attr> {
    if |body| < 4 then [] else [First(body)] + Parsed(body[Min(Next(body), |body|)..])
  }

  // What the loop reads at an offset, where it goes on, and what is still to come there.
  function AttrAt(body: Bytes, offset: nat): Attr
    requires offset + 4 <= |body|
  {
    var length := FromU16(body[offset + 2], body[offset + 3]);
    Attr(FromU16(body[offset], body[offset + 1]), body[offset + 4..Min(offset + 4 + length, |body|)])
  }

  function NextAt(body: Bytes, offset: nat): nat
    requires offset + 4 <= |body|
  {
    var length := FromU16(body[offset + 2], body[offset + 3]);
    offset + 4 + length + Padding(length)
  }

  function ToCome(body: Bytes, offset: nat): seq<Attr> {
    Parsed(body[Min(offset, |body|)..])
  }

  method ParseAttrs(body: Bytes) returns (attrs: seq<Attr>)
    ensures attrs == Parsed(body)
  {
    hide Parsed, ToCome;
    attrs := [];
    var offset: nat := 0;
    ToComeAtEnds(body);
    while offset + 4 <= |body|
      invariant attrs + ToCome(body, offset) == Parsed(body)
      decreases |body| - offset
    {
      ghost var start := offset;
      ParseStep(attrs, body, start, Parsed(body));
      var kind, length := FromU16(body[offset], body[offset + 1]), FromU16(body[offset + 2], body[offset + 3]);
      offset := offset + 4;
      var value := body[offset..Min(offset + length, |body|)];
      offset := offset + length;
      offset := offset + (4 - length % 4) % 4;
      PadTo4(length);
      assert offset == NextAt(body, start) && Attr(kind, value) == AttrAt(body, start);
      attrs := attrs + [Attr(kind, value)];
    }
  }

  lemma ToComeAtEnds(body: Bytes)
    ensures ToCome(body, 0) == Parsed(body)
    ensures forall offset: nat :: offset + 4 > |body| ==> ToCome(body, offset) == []
  {
    assert body[0..] == body;
  }

  lemma FirstAt(body: Bytes, offset: nat)
    requires offset + 4 <= |body|
    ensures First(body[offset..]) == AttrAt(body, offset)
    ensures Next(body[offset..]) == NextAt(body, offset) - offset
  {
    var left := body[offset..];
    assert left[0] == body[offset] && left[1] == body[offset + 1];
    assert left[2] == body[offset + 2] && left[3] == body[offset + 3];
    var length := FromU16(body[offset + 2], body[offset + 3]);
    hide Padding, FromU16;
    assert LengthAt(left) == length;
    assert left[4..Min(4 + length, |left|)] == body[offset + 4..Min(offset + 4 + length, |body|)];
  }

  lemma ToComeAt(body: Bytes, offset: nat)
    requires offset + 4 <= |body|
    ensures ToCome(body, offset) == [AttrAt(body, offset)] + ToCome(body, NextAt(body, offset))
  {
    var left := body[offset..];
    FirstAt(body, offset);
    assert body[Min(offset, |body|)..] == left;
    assert left[Min(Next(left), |left|)..] == body[Min(NextAt(body, offset), |body|)..];
  }

  lemma ParseStep(done: seq<Attr>, body: Bytes, offset: nat, whole: seq<Attr>)
    requires offset + 4 <= |body| && done + ToCome(body, offset) == whole
    ensures (done + [AttrAt(body, offset)]) + ToCome(body, NextAt(body, offset)) == whole
  {
    ToComeAt(body, offset);
    Moved(done, AttrAt(body, offset), ToCome(body, NextAt(body, offset)));
  }

  lemma Moved(done: seq<Attr>, a: Attr, rest: seq<Attr>)
    ensures (done + [a]) + rest == done + ([a] + rest)
  {
  }

  // Cutting a text of four parts.
  lemma Parts(p: Bytes, v: Bytes, z: Bytes, rest: Bytes)
    ensures var all := (p + (v + z)) + rest;
            && all == p + (v + (z + rest))
            && all[..|p|] == p
            && all[|p|..|p| + |v|] == v
            && all[|p| + |v|..|p| + |v| + |z|] == z
            && all[|p| + |v| + |z|..] == rest
            && all[..|p| + |v| + |z|] == p + (v + z)
  {
  }

  lemma PackedShape(a: Attr, rest: Bytes)
    requires Fits(a)
    ensures var body := Packed(a) + rest;
            && |body| >= 4 && First(body) == a
            && Next(body) == |Packed(a)| && body[Next(body)..] == rest
  {
    var p := PackTwo(a.kind, |a.value|);
    var body := Packed(a) + rest;
    Parts(p, a.value, Zeros(Padding(|a.value|)), rest);
    assert body[0] == p[0] && body[1] == p[1] && body[2] == p[2] && body[3] == p[3];
    assert LengthAt(body) == |a.value|;
  }

  // Parsing any concatenation of encoded attributes gives back exactly those attributes.
  lemma {:induction false} ParsePacked(attrs: seq<Attr>)
    requires AllFit(attrs)
    ensures Parsed(PackedAll(attrs)) == attrs
  {
    if |attrs| > 0 {
      ParsePacked(attrs[1..]);
      ParseOne(attrs[0], PackedAll(attrs[1..]));
      assert attrs == [attrs[0]] + attrs[1..];
    }
  }

  lemma ParseOne(a: Attr, rest: Bytes)
    requires Fits(a)
    ensures Parsed(Packed(a) + rest) == [a] + Parsed(rest)
  {
    PackedShape(a, rest);
  }

  lemma PackedLength(a: Attr)
    requires Fits(a)
    ensures |Packed(a)| == 4 + (|a.value| + Padding(|a.value|))
  {
  }

  lemma {:induction false} PaddedIsAligned(n: nat)
    ensures Padding(n + Padding(n)) == 0
  {
    if n >= 4 {
      PaddedIsAligned(n - 4);
    } else {
      assert Padding(4) == Padding(0) == 0;
    }
  }

  lemma {:induction false} AddAligned(m: nat, n: nat)
    requires Padding(m) == 0
    ensures Padding(m + n) == Padding(n)
  {
    if m >= 4 { AddAligned(m - 4, n); }
  }

  lemma {:induction false} PackedIsAligned(attrs: seq<Attr>)
    requires AllFit(attrs)
    ensures Padding(|PackedAll(attrs)|) == 0
  {
    hide Packed;
    if |attrs| > 0 {
      PackedIsAligned(attrs[1..]);
      PackedLength(attrs[0]);
      PaddedIsAligned(|attrs[0].value|);
      AddAligned(|Packed(attrs[0])|, |PackedAll(attrs[1..])|);
    }
  }

  // Whatever the bytes, at most one attribute for every four of them, and each could be
  // encoded again.
  lemma {:induction false} ParsedIsBounded(body: Bytes)
    ensures 4 * |Parsed(body)| <= |body| && AllFit(Parsed(body))
    decreases |body|
  {
    if |body| >= 4 {
      ParsedIsBounded(body[Min(Next(body), |body|)..]);
    }
  }

  // The bodies that lose nothing: whole attributes only, and padding of zeros.
  predicate Complete(body: Bytes)
    decreases |body|
  {
    |body| == 0 ||
    (&& |body| >= 4
     && Next(body) <= |body|
     && body[4 + LengthAt(body)..Next(body)] == Zeros(Padding(LengthAt(body)))
     && Complete(body[Next(body)..]))
  }

  lemma HeadParts(body: Bytes, n: nat, k: nat)
    requires 4 + n + k <= |body|
    ensures body[..4 + n + k] == body[..4] + (body[4..4 + n] + body[4 + n..4 + n + k])
  {
  }

  lemma FirstRepacked(body: Bytes)
    requires |body| >= 4 && Next(body) <= |body|
    ensures Fits(First(body)) && |Packed(First(body))| == Next(body)
    ensures Packed(First(body)) == body[..Next(body)]
       <==> body[4 + LengthAt(body)..Next(body)] == Zeros(Padding(LengthAt(body)))
  {
    var n, k := LengthAt(body), Padding(LengthAt(body));
    var p, v, z := body[..4], body[4..4 + n], body[4 + n..4 + n + k];
    PackTwoBack(p);
    HeadParts(body, n, k);
    assert First(body).value == v && |v| == n;
    assert Packed(First(body)) == p + (v + Zeros(k));
    SameTail(p, v, z, Zeros(k));
  }

  lemma SameTail(p: Bytes, v: Bytes, y: Bytes, z: Bytes)
    ensures p + (v + y) == p + (v + z) <==> y == z
  {
    if p + (v + y) == p + (v + z) {
      assert y == (p + (v + y))[|p| + |v|..] == (p + (v + z))[|p| + |v|..] == z;
    }
  }

  // Encoding what was parsed gives the same bytes exactly for those bodies.
  lemma {:induction false} RepackedIff(body: Bytes)
    ensures AllFit(Parsed(body))
    ensures PackedAll(Parsed(body)) == body <==> Complete(body)
    decreases |body|
  {
    ParsedIsBounded(body);
    if |body| >= 4 {
      var after := body[Min(Next(body), |body|)..];
      RepackedIff(after);
      if Next(body) <= |body| { RepackedFirst(body); } else { CutShort(body); }
    }
  }

  lemma RepackedFirst(body: Bytes)
    requires |body| >= 4 && Next(body) <= |body|
    requires var after := body[Next(body)..]; AllFit(Parsed(after)) && (PackedAll(Parsed(after)) == after <==> Complete(after))
    ensures AllFit(Parsed(body)) && (PackedAll(Parsed(body)) == body <==> Complete(body))
  {
    var after := body[Next(body)..];
    ParsedCons(body);
    FirstRepacked(body);
    CompleteStep(body);
    hide Packed, First, Parsed, Complete, PackedAll, Padding, LengthAt, Zeros;
    RepackedPieces(First(body), Parsed(after), body, Next(body));
  }

  lemma RepackedPieces(a: Attr, rest: seq<Attr>, body: Bytes, n: nat)
    requires Fits(a) && AllFit(rest) && n <= |body| && |Packed(a)| == n
    ensures AllFit([a] + rest)
    ensures PackedAll([a] + rest) == body <==> Packed(a) == body[..n] && PackedAll(rest) == body[n..]
  {
    PackedCons(a, rest);
    hide Packed, PackedAll;
    assert body == body[..n] + body[n..];
    Lockstep(Packed(a), PackedAll(rest), body[..n], body[n..]);
  }

  lemma CompleteStep(body: Bytes)
    requires |body| >= 4 && Next(body) <= |body|
    ensures Complete(body)
       <==> body[4 + LengthAt(body)..Next(body)] == Zeros(Padding(LengthAt(body))) && Complete(body[Next(body)..])
  {
  }

  lemma ParsedCons(body: Bytes)
    requires |body| >= 4 && Next(body) <= |body|
    ensures Parsed(body) == [First(body)] + Parsed(body[Next(body)..])
  {
  }

  lemma PackedCons(a: Attr, attrs: seq<Attr>)
    requires Fits(a) && AllFit(attrs)
    ensures AllFit([a] + attrs) && PackedAll([a] + attrs) == Packed(a) + PackedAll(attrs)
  {
    assert ([a] + attrs)[1..] == attrs;
  }

  lemma Lockstep(p: Bytes, q: Bytes, h: Bytes, r: Bytes)
    requires |p| == |h|
    ensures p + q == h + r <==> p == h && q == r
  {
    if p + q == h + r {
      assert p == (p + q)[..|p|] == (h + r)[..|h|] == h;
      assert q == (p + q)[|p|..] == (h + r)[|h|..] == r;
    }
  }

  lemma CutShort(body: Bytes)
    requires |body| >= 4 && Next(body) > |body|
    ensures AllFit(Parsed(body)) && PackedAll(Parsed(body)) != body
  {
    var a := First(body);
    var after := body[|body|..];
    assert Parsed(after) == [] && Parsed(body) == [a] + [];
    assert Parsed(body)[1..] == [];
    PadTo4(|a.value|);
    PadTo4(LengthAt(body));
    assert PackedAll(Parsed(body)) == Packed(a) + [];
  }

  // ---- Messages ----

  // Twelve bytes exactly: a longer identifier is cut, a shorter one filled with zeros.
  function Txid12(txid: Bytes): (id: Bytes)
    ensures |id| == 12
  {
    if |txid| >= 12 then txid[..12] else txid + Zeros(12 - |txid|)
  }

  function Header(kind: nat, length: nat, txid: Bytes): (h: Bytes)
    requires kind < 0x1_0000 && length < 0x1_0000
    ensures |h| == 20
  {
    PackTwo(kind, length) + (MAGIC_COOKIE + Txid12(txid))
  }

  datatype Message = Message(kind: nat, txid: Bytes, body: Bytes)

  predicate Sendable(m: Message) {
    m.kind < 0x1_0000 && |m.txid| == 12 && |m.body| < 0x1_0000
  }

  function Wire(m: Message): Bytes
    requires Sendable(m)
  {
    Header(m.kind, |m.body|, m.txid) + m.body
  }

  const TRANSPORT := Attr(ATTR_REQUESTED_TRANSPORT, REQUESTED_TRANSPORT_UDP)

  function Unauthenticated(txid: Bytes): Bytes {
    var attrs := Packed(TRANSPORT);
    Header(ALLOCATE_REQUEST, |attrs|, txid) + attrs
  }

  datatype Login = Login(username: Bytes, realm: Bytes, nonce: Bytes, password: Bytes)

  function LoginAttrs(l: Login): seq<Attr> {
    [TRANSPORT, Attr(ATTR_USERNAME, l.username), Attr(ATTR_REALM, l.realm), Attr(ATTR_NONCE, l.nonce)]
  }

  function LongTermKey(md5: Bytes -> Bytes, l: Login): Bytes {
    md5(l.username + [0x3A] + l.realm + [0x3A] + l.password)
  }

  // Any attributes, followed by the digest over them under a header that counts it.
  function Signed(attrs: seq<Attr>, txid: Bytes, key: Bytes, mac: (Bytes, Bytes) -> Digest): Bytes
    requires AllFit(attrs) && |PackedAll(attrs)| + 4 + MESSAGE_INTEGRITY_SIZE < 0x1_0000
  {
    var body := PackedAll(attrs);
    var header := Header(ALLOCATE_REQUEST, |body| + 4 + MESSAGE_INTEGRITY_SIZE, txid);
    header + body + Packed(Attr(ATTR_MESSAGE_INTEGRITY, mac(key, header + body)))
  }

  function Authenticated(txid: Bytes, l: Login, md5: Bytes -> Bytes, mac: (Bytes, Bytes) -> Digest): Option<Bytes> {
    if !AllFit(LoginAttrs(l)) || |PackedAll(LoginAttrs(l))| + 4 + MESSAGE_INTEGRITY_SIZE >= 0x1_0000 then None
    else Some(Signed(LoginAttrs(l), txid, LongTermKey(md5, l), mac))
  }

  // ---- What a receiver makes of a message ----

  function HeaderLength(msg: Bytes): nat
    requires |msg| >= 20
  {
    FromU16(msg[2], msg[3])
  }

  // A whole STUN message, and nothing after it.
  predicate WellFormed(msg: Bytes) {
    && |msg| >= 20
    && msg[0] < 64
    && msg[4..8] == MAGIC_COOKIE
    && HeaderLength(msg) == |msg| - 20
    && HeaderLength(msg) % 4 == 0
    && Complete(msg[20..])
  }

  // The offset of the first MESSAGE-INTEGRITY attribute of a body.
  function IntegrityAt(body: Bytes): Option<nat>
    decreases |body|
  {
    if |body| < 4 then None
    else if FromU16(body[0], body[1]) == ATTR_MESSAGE_INTEGRITY then Some(0)
    else
      match IntegrityAt(body[Min(Next(body), |body|)..])
      case None => None
      case Some(at) => Some(Next(body) + at)
  }

  function WithLength(msg: Bytes, length: nat): Bytes
    requires |msg| >= 20 && length < 0x1_0000
  {
    PackTwo(FromU16(msg[0], msg[1]), length) + msg[4..]
  }

  // Section 15.4 of RFC 5389: the digest covers all that precedes the attribute, under a
  // header whose length ends with the attribute.
  ghost predicate IntegrityHolds(msg: Bytes, key: Bytes, mac: (Bytes, Bytes) -> Digest) {
    && WellFormed(msg)
    && IntegrityAt(msg[20..]).Some?
    && var at := IntegrityAt(msg[20..]).value;
       && 20 + at + 24 <= |msg|
       && at + 24 < 0x1_0000
       && First(msg[20 + at..]).value == mac(key, WithLength(msg[..20 + at], at + 24))
  }

  lemma HeaderFields(kind: nat, length: nat, txid: Bytes, body: Bytes)
    requires kind < 0x1_0000 && length < 0x1_0000
    ensures var msg := Header(kind, length, txid) + body;
            && FromU16(msg[0], msg[1]) == kind && HeaderLength(msg) == length
            && msg[4..8] == MAGIC_COOKIE && msg[8..20] == Txid12(txid) && msg[20..] == body && msg[..20] == Header(kind, length, txid)
  {
    Parts(PackTwo(kind, length), MAGIC_COOKIE, Txid12(txid), body);
  }

  lemma {:induction false} PackedIsComplete(attrs: seq<Attr>)
    requires AllFit(attrs)
    ensures Complete(PackedAll(attrs))
  {
    if |attrs| > 0 {
      var a, rest := attrs[0], PackedAll(attrs[1..]);
      var body := PackedAll(attrs);
      PackedShape(a, rest);
      PackedIsComplete(attrs[1..]);
      FirstRepacked(body);
      assert body[..Next(body)] == Packed(a);
    }
  }

  lemma IntegrityStep(a: Attr, rest: Bytes)
    requires Fits(a)
    ensures IntegrityAt(Packed(a) + rest)
         == if a.kind == ATTR_MESSAGE_INTEGRITY then Some(0)
            else if IntegrityAt(rest).None? then None
            else Some(|Packed(a)| + IntegrityAt(rest).value)
  {
    PackedShape(a, rest);
    hide Packed, First;
  }

  lemma IntegrityFirst(a: Attr)
    requires Fits(a) && a.kind == ATTR_MESSAGE_INTEGRITY
    ensures IntegrityAt(Packed(a)) == Some(0)
  {
    PackedShape(a, []);
    assert Packed(a) + [] == Packed(a);
  }

  lemma IntegrityBehind(a: Attr, rest: Bytes, last: Bytes, at: nat)
    requires Fits(a) && a.kind != ATTR_MESSAGE_INTEGRITY && IntegrityAt(rest + last) == Some(at)
    ensures IntegrityAt((Packed(a) + rest) + last) == Some(|Packed(a)| + at)
  {
    hide Packed;
    BytesAssoc(Packed(a), rest, last);
    IntegrityStep(a, rest + last);
  }

  lemma {:induction false} IntegrityAfter(attrs: seq<Attr>, digest: Digest)
    requires AllFit(attrs) && forall i :: 0 <= i < |attrs| ==> attrs[i].kind != ATTR_MESSAGE_INTEGRITY
    ensures IntegrityAt(PackedAll(attrs) + Packed(Attr(ATTR_MESSAGE_INTEGRITY, digest))) == Some(|PackedAll(attrs)|)
  {
    hide Packed, IntegrityAt;
    var last := Packed(Attr(ATTR_MESSAGE_INTEGRITY, digest));
    if |attrs| == 0 {
      IntegrityFirst(Attr(ATTR_MESSAGE_INTEGRITY, digest));
      assert [] + last == last;
    } else {
      var a, rest := attrs[0], PackedAll(attrs[1..]);
        IntegrityAfter(attrs[1..], digest);
      IntegrityBehind(a, rest, last, |rest|);
    }
  }

  lemma {:induction false} PackedAppend(attrs: seq<Attr>, a: Attr)
    requires AllFit(attrs) && Fits(a)
    ensures AllFit(attrs + [a]) && PackedAll(attrs + [a]) == PackedAll(attrs) + Packed(a)
  {
    if |attrs| == 0 {
      assert attrs + [a] == [a] && [a][1..] == [];
      assert Packed(a) + [] == Packed(a) == [] + Packed(a);
    } else {
      assert (attrs + [a])[0] == attrs[0] && (attrs + [a])[1..] == attrs[1..] + [a];
      PackedAppend(attrs[1..], a);
      assert Packed(attrs[0]) + (PackedAll(attrs[1..]) + Packed(a)) == (Packed(attrs[0]) + PackedAll(attrs[1..])) + Packed(a);
    }
  }

  lemma UnauthenticatedIsWellFormed(txid: Bytes)
    ensures WellFormed(Unauthenticated(txid))
    ensures Unauthenticated(txid) == Wire(Message(ALLOCATE_REQUEST, Txid12(txid), Packed(TRANSPORT)))
    ensures Parsed(Unauthenticated(txid)[20..]) == [Attr(0x0019, [17, 0, 0, 0])]
    ensures Heads(Unauthenticated(txid), txid) && |Unauthenticated(txid)| == 28
  {
    UnauthenticatedHeads(txid);
    hide Heads;
    OneTransport();
    WholeMessage([TRANSPORT], txid);
    assert Txid12(Txid12(txid)) == Txid12(txid);
  }

  lemma UnauthenticatedHeads(txid: Bytes)
    ensures Heads(Unauthenticated(txid), txid) && |Unauthenticated(txid)| == 28
  {
    OneTransport();
    HeaderHeads(8, txid, Packed(TRANSPORT));
    hide Heads, Packed, Zeros;
  }

  lemma OneTransport()
    ensures PackedAll([TRANSPORT]) == Packed(TRANSPORT) && |Packed(TRANSPORT)| == 8
  {
    assert [TRANSPORT][1..] == [];
    assert PackedAll([TRANSPORT]) == Packed(TRANSPORT) + [];
  }

  // A header over packed attributes makes a whole message, whatever they are.
  lemma WholeMessage(attrs: seq<Attr>, txid: Bytes)
    requires AllFit(attrs) && |PackedAll(attrs)| < 0x1_0000
    ensures var msg := Header(ALLOCATE_REQUEST, |PackedAll(attrs)|, txid) + PackedAll(attrs);
            WellFormed(msg) && msg[20..] == PackedAll(attrs) && Parsed(msg[20..]) == attrs
  {
    var body := PackedAll(attrs);
    FirstByte(|body|, txid, body);
    hide Packed, Txid12, Header, Complete, Parsed, Padding;
    HeaderFields(ALLOCATE_REQUEST, |body|, txid, body);
    PackedIsAligned(attrs);
    AlignedIsMultiple(|body|);
    PackedIsComplete(attrs);
    ParsePacked(attrs);
  }

  lemma FirstByte(length: nat, txid: Bytes, body: Bytes)
    requires length < 0x1_0000
    ensures (Header(ALLOCATE_REQUEST, length, txid) + body)[0] == 0
  {
    assert PackTwo(ALLOCATE_REQUEST, length)[0] == 0;
  }

  // What the four attributes and MESSAGE-INTEGRITY take.
  function LoginSize(l: Login): nat {
    8 + 4 + |l.username| + Padding(|l.username|) + 4 + |l.realm| + Padding(|l.realm|)
      + 4 + |l.nonce| + Padding(|l.nonce|) + 24
  }

  lemma LoginSizeIs(l: Login)
    requires AllFit(LoginAttrs(l))
    ensures |PackedAll(LoginAttrs(l))| + 24 == LoginSize(l)
  {
    var attrs := LoginAttrs(l);
    assert attrs[1..] == [attrs[1], attrs[2], attrs[3]] && attrs[1..][1..] == [attrs[2], attrs[3]];
    assert attrs[1..][1..][1..] == [attrs[3]] && attrs[1..][1..][1..][1..] == [];
    assert PackedAll(attrs[1..][1..][1..][1..]) == [];
    assert |PackedAll(attrs[1..][1..])| == |Packed(attrs[2])| + |Packed(attrs[3])|;
  }

  // For all bytes of user, realm and nonce: the request is built exactly when it fits, and
  // then it is a whole message whose length counts MESSAGE-INTEGRITY; its five attributes
  // carry, in order, the transport, the user, the realm, the nonce and the digest under the
  // long-term key; and the receiver's check of the digest passes.
  lemma AuthenticatedIsWellFormed(txid: Bytes, l: Login, md5: Bytes -> Bytes, mac: (Bytes, Bytes) -> Digest)
    ensures var sent := Authenticated(txid, l, md5, mac);
            var key := md5(l.username + [0x3A] + l.realm + [0x3A] + l.password);
            && (sent.Some? <==> LoginSize(l) < 0x1_0000)
            && (sent.Some? ==>
                  && WellFormed(sent.value)
                  && sent.value[..20] == Header(ALLOCATE_REQUEST, LoginSize(l), txid)
                  && HeaderLength(sent.value) == LoginSize(l)
                  && IntegrityHolds(sent.value, key, mac)
                  && Heads(sent.value, txid)
                  && var attrs := Parsed(sent.value[20..]);
                     && |attrs| == 5
                     && attrs[0] == Attr(0x0019, [17, 0, 0, 0])
                     && attrs[1] == Attr(0x0006, l.username)
                     && attrs[2] == Attr(0x0014, l.realm)
                     && attrs[3] == Attr(0x0015, l.nonce)
                     && attrs[4] == Attr(0x0008, mac(key, sent.value[..|sent.value| - 24])))
  {
    hide Parsed, IntegrityHolds, WellFormed, Heads, HeaderLength, Packed, PackedAll, Signed, Header;
    if LoginSize(l) < 0x1_0000 {
      assert AllFit(LoginAttrs(l));
      LoginSizeIs(l);
      SignedVerifies(LoginAttrs(l), txid, LongTermKey(md5, l), mac);
      HeaderHeads(LoginSize(l), txid, Authenticated(txid, l, md5, mac).value[20..]);
      var msg := Authenticated(txid, l, md5, mac).value;
      assert msg == msg[..20] + msg[20..];
    } else if AllFit(LoginAttrs(l)) {
      LoginSizeIs(l);
    }
  }

  // An Allocate request under the magic cookie, with the identifier in full: the first twelve
  // bytes of the one given, zeros where it is shorter.
  predicate Heads(msg: Bytes, txid: Bytes) {
    && |msg| >= 20
    && msg[..2] == [0x00, 0x03] && msg[4..8] == [0x21, 0x12, 0xA4, 0x42]
    && forall i :: 0 <= i < 12 ==> msg[8 + i] == if i < |txid| then txid[i] else 0
  }

  lemma {:induction false} ZerosAre(n: nat)
    ensures forall i :: 0 <= i < n ==> Zeros(n)[i] == 0
  {
    if n > 0 { ZerosAre(n - 1); }
  }

  lemma HeaderHeads(length: nat, txid: Bytes, body: Bytes)
    requires length < 0x1_0000
    ensures Heads(Header(ALLOCATE_REQUEST, length, txid) + body, txid)
    ensures HeaderLength(Header(ALLOCATE_REQUEST, length, txid) + body) == length
  {
    var msg := Header(ALLOCATE_REQUEST, length, txid) + body;
    HeaderFields(ALLOCATE_REQUEST, length, txid, body);
    if |txid| < 12 { ZerosAre(12 - |txid|); }
    assert PackTwo(ALLOCATE_REQUEST, length)[..2] == [0, 3];
    hide Zeros;
    forall i | 0 <= i < 12 ensures msg[8 + i] == Txid12(txid)[i] { assert msg[8..20][i] == msg[8 + i]; }
  }

  lemma {:induction false} SignedVerifies(attrs: seq<Attr>, txid: Bytes, key: Bytes, mac: (Bytes, Bytes) -> Digest)
    requires AllFit(attrs) && |PackedAll(attrs)| + 24 < 0x1_0000
    requires forall i :: 0 <= i < |attrs| ==> attrs[i].kind != ATTR_MESSAGE_INTEGRITY
    ensures var header := Header(ALLOCATE_REQUEST, |PackedAll(attrs)| + 24, txid);
            var digest := mac(key, header + PackedAll(attrs));
            var msg := Signed(attrs, txid, key, mac);
            && WellFormed(msg) && msg[..20] == header
            && IntegrityHolds(msg, key, mac)
            && msg[..|msg| - 24] == header + PackedAll(attrs)
            && Parsed(msg[20..]) == attrs + [Attr(ATTR_MESSAGE_INTEGRITY, digest)]
  {
    var body := PackedAll(attrs);
    var length := |body| + 24;
    var header := Header(ALLOCATE_REQUEST, length, txid);
    var digest := mac(key, header + body);
    var last := Attr(ATTR_MESSAGE_INTEGRITY, digest);
    var msg := Signed(attrs, txid, key, mac);
    PackedAppend(attrs, last);
    assert |Packed(last)| == 24;
    BytesAssoc(header, body, Packed(last));
    WholeMessage(attrs + [last], txid);
    HeaderFields(ALLOCATE_REQUEST, length, txid, body + Packed(last));
    IntegrityAfter(attrs, digest);
    DigestIsFound(header, body, last);
    LengthIsThere(length, txid, body);
  }

  lemma BytesAssoc(a: Bytes, b: Bytes, c: Bytes)
    ensures (a + b) + c == a + (b + c)
  {
  }

  lemma TwoParts(header: Bytes, body: Bytes, last: Bytes)
    ensures var msg := header + (body + last);
            msg[..|header| + |body|] == header + body && msg[|header| + |body|..] == last
  {
  }

  lemma DigestIsFound(header: Bytes, body: Bytes, last: Attr)
    requires |header| == 20 && Fits(last)
    ensures var msg := header + (body + Packed(last));
            && msg[..20 + |body|] == header + body
            && |msg[20 + |body|..]| >= 4 && First(msg[20 + |body|..]) == last
  {
    PackedShape(last, []);
    hide Packed, First;
    assert Packed(last) + [] == Packed(last);
    TwoParts(header, body, Packed(last));
  }

  lemma LengthIsThere(length: nat, txid: Bytes, body: Bytes)
    requires length < 0x1_0000
    ensures WithLength(Header(ALLOCATE_REQUEST, length, txid) + body, length) == Header(ALLOCATE_REQUEST, length, txid) + body
  {
    var m := Header(ALLOCATE_REQUEST, length, txid) + body;
    HeaderFields(ALLOCATE_REQUEST, length, txid, body);
    PackTwoBack(m[..4]);
    assert m == m[..4] + m[4..];
  }
}
