// XOR-MAPPED and XOR-RELAYED addresses (section 15.2 of RFC 5389): the port and the address
// hidden under the magic cookie and, for IPv6, the transaction identifier.
module XorAddress {
  import opened Common
  import opened Stun

  // Exclusive or, bit by bit; that of a big-endian number goes byte by byte.
  function XorBits(a: nat, b: nat): nat {
    if a == 0 && b == 0 then 0 else 2 * XorBits(a / 2, b / 2) + if a % 2 == b % 2 then 0 else 1
  }

  function PowerOf2(n: nat): nat {
    if n == 0 then 1 else 2 * PowerOf2(n - 1)
  }

  lemma {:induction false} XorBitsBelow(a: nat, b: nat, n: nat)
    requires a < PowerOf2(n) && b < PowerOf2(n)
    ensures XorBits(a, b) < PowerOf2(n)
  {
    if n > 0 { XorBitsBelow(a / 2, b / 2, n - 1); }
  }

  lemma ByteIsEightBits()
    ensures PowerOf2(8) == 256
  {
    assert PowerOf2(4) == 16;
  }

  lemma {:induction false} XorBitsTwice(a: nat, b: nat)
    ensures XorBits(XorBits(a, b), b) == a
  {
    if a != 0 || b != 0 {
      XorBitsTwice(a / 2, b / 2);
      LowBit(a, b);
      LowBit(XorBits(a, b), b);
    }
  }

  lemma LowBit(a: nat, b: nat)
    ensures XorBits(a, b) / 2 == XorBits(a / 2, b / 2)
    ensures XorBits(a, b) % 2 == if a % 2 == b % 2 then 0 else 1
  {
  }

  function Xor(a: Byte, b: Byte): Byte {
    ByteIsEightBits();
    XorBitsBelow(a, b, 8);
    XorBits(a, b)
  }

  lemma XorTwice(a: Byte, b: Byte)
    ensures Xor(Xor(a, b), b) == a
  {
    XorBitsTwice(a, b);
  }

  function XorWith(value: Bytes, mask: Bytes): (r: Bytes)
    requires |value| <= |mask|
    ensures |r| == |value|
  {
    seq(|value|, i requires 0 <= i < |value| => Xor(value[i], mask[i]))
  }

  lemma XorWithTwice(value: Bytes, mask: Bytes)
    requires |value| <= |mask|
    ensures XorWith(XorWith(value, mask), mask) == value
  {
    hide Xor;
    forall i | 0 <= i < |value| ensures XorWith(XorWith(value, mask), mask)[i] == value[i] {
      XorTwice(value[i], mask[i]);
    }
  }

  datatype Address = Address(bytes: Bytes, port: nat)
  datatype Failure = TooShort | UnsupportedFamily(family: Byte) | ShortTransaction

  const IPV4: Byte := 1
  const IPV6: Byte := 2

  function Mask(txid: Bytes): Bytes {
    MAGIC_COOKIE + txid
  }

  function PortOf(value: Bytes): nat
    requires |value| >= 4
  {
    FromU16(Xor(value[2], MAGIC_COOKIE[0]), Xor(value[3], MAGIC_COOKIE[1]))
  }

  // An identifier too short for the mask is an indexing error, for IPv6 only.
  function Decode(value: Bytes, txid: Bytes): Result<Address, Failure> {
    if |value| < 4 then Err(TooShort)
    else if value[1] == IPV4 then
      if |value| < 8 then Err(TooShort)
      else Ok(Address(XorWith(value[4..8], MAGIC_COOKIE), PortOf(value)))
    else if value[1] == IPV6 then
      if |value| < 20 then Err(TooShort)
      else if |txid| < 12 then Err(ShortTransaction)
      else Ok(Address(XorWith(value[4..20], Mask(txid)), PortOf(value)))
    else Err(UnsupportedFamily(value[1]))
  }

  // What the server puts there.
  predicate Encodable(a: Address, txid: Bytes) {
    (|a.bytes| == 4 || (|a.bytes| == 16 && |txid| >= 12)) && a.port < 0x1_0000
  }

  function Encode(a: Address, txid: Bytes): Bytes
    requires Encodable(a, txid)
  {
    [0, if |a.bytes| == 4 then 0x01 else 0x02]
      + XorWith([a.port / 256, a.port % 256], MAGIC_COOKIE)
      + XorWith(a.bytes, Mask(txid))
  }

  // A hidden address comes back, whatever follows it.
  lemma DecodeEncode(a: Address, txid: Bytes, rest: Bytes)
    requires Encodable(a, txid)
    ensures Decode(Encode(a, txid) + rest, txid) == Ok(a)
  {
    hide Xor;
    var value := Encode(a, txid) + rest;
    var hidden := XorWith(a.bytes, Mask(txid));
    assert value[4..4 + |a.bytes|] == hidden;
    XorWithTwice(a.bytes, Mask(txid));
    XorTwice(a.port / 256, MAGIC_COOKIE[0]);
    XorTwice(a.port % 256, MAGIC_COOKIE[1]);
    assert PortOf(value) == a.port;
    if |a.bytes| == 4 { ShortMask(hidden, txid); }
  }

  // What can be decoded at all, and what is said of the rest.
  lemma DecodesIff(value: Bytes, txid: Bytes)
    ensures Decode(value, txid).Ok?
       <==> (|value| >= 8 && value[1] == 0x01) || (|value| >= 20 && value[1] == 0x02 && |txid| >= 12)
    ensures |value| >= 4 ==> (Decode(value, txid) == Err(UnsupportedFamily(value[1])) <==> value[1] != 0x01 && value[1] != 0x02)
    ensures Decode(value, txid) == Err(ShortTransaction) <==> |value| >= 20 && value[1] == 0x02 && |txid| < 12
  {
    hide Xor;
  }

  lemma ShortMask(value: Bytes, txid: Bytes)
    requires |value| == 4
    ensures XorWith(value, Mask(txid)) == XorWith(value, MAGIC_COOKIE)
  {
    hide Xor;
  }

  // Two values decode alike only if they agree on all but the first byte and what follows
  // the address; nothing is lost in decoding.
  lemma DecodedDeterminesValue(value: Bytes, txid: Bytes)
    requires Decode(value, txid).Ok?
    ensures var a := Decode(value, txid).value;
            && Encodable(a, txid)
            && |value| >= 4 + |a.bytes|
            && value[1..4 + |a.bytes|] == Encode(a, txid)[1..]
  {
    hide Xor;
    var a := Decode(value, txid).value;
    var body := value[4..4 + |a.bytes|];
    if |a.bytes| == 4 { ShortMask(body, txid); ShortMask(a.bytes, txid); }
    XorWithTwice(body, Mask(txid));
    XorTwice(value[2], MAGIC_COOKIE[0]);
    XorTwice(value[3], MAGIC_COOKIE[1]);
    var x, y := Xor(value[2], MAGIC_COOKIE[0]), Xor(value[3], MAGIC_COOKIE[1]);
    assert a.port == FromU16(x, y);
    assert a.port / 256 == x && a.port % 256 == y;
    assert Encode(a, txid)[4..] == XorWith(a.bytes, Mask(txid)) == body;
    assert Encode(a, txid)[2] == value[2] && Encode(a, txid)[3] == value[3];
  }
}
