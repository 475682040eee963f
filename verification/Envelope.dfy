/** The signed wire envelope: layout, validation order, content address. */
module Envelope {
  import opened Bytes

  const VERSION: Byte := 0x01
  const HEADER_SIZE := 78
  const SIGNATURE_SIZE := 64
  const MAX_PAYLOAD_SIZE := 65535
  const MIN_MESSAGE_SIZE := HEADER_SIZE + SIGNATURE_SIZE
  const MAX_MESSAGE_SIZE := HEADER_SIZE + MAX_PAYLOAD_SIZE + SIGNATURE_SIZE

  const MSG_CHAT: Byte := 0x01
  const MSG_POST: Byte := 0x02
  const MSG_THREAD: Byte := 0x03
  const MSG_REPLY: Byte := 0x04
  const MSG_PROFILE: Byte := 0x09
  const MSG_GUESTBOOK: Byte := 0x0A
  const MSG_ACK: Byte := 0x0C
  const MSG_STATUS: Byte := 0x0D
  const MSG_BLOCK: Byte := 0x0E
  const MSG_NICKNAME: Byte := 0x0F
  const MSG_SEALED: Byte := 0x10
  const MSG_SEALED_ACK: Byte := 0x11
  const MSG_DELETE: Byte := 0x12
  const MAX_MSG_TYPE := MSG_DELETE

  type I64 = x: int | -0x8000_0000_0000_0000 <= x < 0x8000_0000_0000_0000

  type Key32 = b: seq<Byte> | |b| == 32 witness seq<Byte>(32, _ => 0)

  type Sig64 = b: seq<Byte> | |b| == 64 witness seq<Byte>(64, _ => 0)

  datatype Envelope = Envelope(
    version: Byte, kind: Byte, timestamp: I64, sender: Key32, recipient: Key32, payload: seq<Byte>, signature: Sig64)

  datatype Error =
    TooShort | TooLong | BadVersion | BadType | LocalOnlyType | PayloadTooLarge | BadLength | BadSignature

  datatype Result<+T> = Ok(value: T) | Err(error: Error)

  // The cryptographic primitives, as functions of their inputs.
  datatype Scheme<!D, !K> = Scheme(
    digest: seq<Byte> -> D, public: K -> Key32, sign: (K, D) -> Sig64, verify: (Key32, D, Sig64) -> bool)

  ghost predicate VerifiesSigned<D(!new), K(!new)>(s: Scheme<D, K>) {
    forall k: K, d: D :: s.verify(s.public(k), d, s.sign(k, d))
  }

  ghost predicate CollisionFree<D, K>(s: Scheme<D, K>) {
    forall a, b :: s.digest(a) == s.digest(b) ==> a == b
  }

  predicate LocalOnly(kind: Byte) {
    kind == MSG_BLOCK || kind == MSG_NICKNAME
  }

  /** Two's complement: the conversion between int64 and uint64. */
  function ToU64(t: I64): U64 {
    if t < 0 then t + 0x1_0000_0000_0000_0000 else t
  }

  function ToI64(u: U64): I64 {
    if u < 0x8000_0000_0000_0000 then u else u - 0x1_0000_0000_0000_0000
  }

  /** The four length bytes hold the length modulo 2^32, as the source's conversion does. */
  function SignedBytes(e: Envelope): seq<Byte> {
    [e.version, e.kind] + PutBE(ToU64(e.timestamp), 8) + e.sender + e.recipient + PutBE(|e.payload|, 4) + e.payload
  }

  function Encode(e: Envelope): seq<Byte> {
    SignedBytes(e) + e.signature
  }

  function ContentBytes(e: Envelope): seq<Byte> {
    [e.version, e.kind] + PutBE(ToU64(e.timestamp), 8) + e.sender + e.payload
  }

  function ContentId<D, K>(s: Scheme<D, K>, e: Envelope): D {
    s.digest(ContentBytes(e))
  }

  function CheckType(kind: Byte): Option<Error> {
    if kind == 0 || kind > MAX_MSG_TYPE then Some(BadType)
    else if LocalOnly(kind) then Some(LocalOnlyType)
    else None
  }

  function NewEnvelope<D, K>(s: Scheme<D, K>, k: K, kind: Byte, recipient: Key32, payload: seq<Byte>, now: I64)
    : Result<Envelope>
  {
    if |payload| > MAX_PAYLOAD_SIZE then Err(PayloadTooLarge)
    else if CheckType(kind).Some? then Err(CheckType(kind).value)
    else
      var unsigned := Envelope(VERSION, kind, now, s.public(k), recipient, payload, seq<Byte>(64, _ => 0));
      Ok(unsigned.(signature := s.sign(k, s.digest(SignedBytes(unsigned)))))
  }

  function Decode<D, K>(s: Scheme<D, K>, data: seq<Byte>): Result<Envelope> {
    if |data| < MIN_MESSAGE_SIZE then Err(TooShort)
    else if |data| > MAX_MESSAGE_SIZE then Err(TooLong)
    else
      Widths();
      var payloadLen := GetBE(data[74..78]);
      if data[0] != VERSION then Err(BadVersion)
      else if CheckType(data[1]).Some? then Err(CheckType(data[1]).value)
      else if payloadLen > MAX_PAYLOAD_SIZE then Err(PayloadTooLarge)
      else if |data| != HEADER_SIZE + payloadLen + SIGNATURE_SIZE then Err(BadLength)
      else
        var e := Envelope(data[0], data[1], ToI64(GetBE(data[2..10])), data[10..42], data[42..74],
                          data[HEADER_SIZE..HEADER_SIZE + payloadLen], data[HEADER_SIZE + payloadLen..]);
        if s.verify(e.sender, s.digest(SignedBytes(e)), e.signature) then Ok(e) else Err(BadSignature)
  }

  /** What a receiver accepts, said of the envelope rather than of its bytes. */
  predicate Acceptable<D, K>(s: Scheme<D, K>, e: Envelope) {
    && e.version == VERSION
    && CheckType(e.kind).None?
    && |e.payload| <= MAX_PAYLOAD_SIZE
    && s.verify(e.sender, s.digest(SignedBytes(e)), e.signature)
  }

  lemma Layout(e: Envelope)
    requires |e.payload| <= MAX_PAYLOAD_SIZE
    ensures var d := Encode(e);
            && |d| == HEADER_SIZE + |e.payload| + SIGNATURE_SIZE
            && d[0] == e.version && d[1] == e.kind
            && ToI64(GetBE(d[2..10])) == e.timestamp
            && d[10..42] == e.sender && d[42..74] == e.recipient
            && GetBE(d[74..78]) == |e.payload|
            && d[HEADER_SIZE..HEADER_SIZE + |e.payload|] == e.payload
            && d[HEADER_SIZE + |e.payload|..] == e.signature
  {
    Widths();
    GetPutBE(ToU64(e.timestamp), 8);
    GetPutBE(|e.payload|, 4);
    var d, n := Encode(e), |e.payload|;
    assert d[2..10] == PutBE(ToU64(e.timestamp), 8);
    assert d[10..42] == e.sender && d[42..74] == e.recipient;
    assert d[74..78] == PutBE(n, 4);
    assert d[HEADER_SIZE..HEADER_SIZE + n] == e.payload && d[HEADER_SIZE + n..] == e.signature;
  }

  /** Decoding undoes encoding exactly for the envelopes a receiver accepts. */
  lemma DecodeEncode<D, K>(s: Scheme<D, K>, e: Envelope)
    ensures Decode(s, Encode(e)) == Ok(e) <==> Acceptable(s, e)
  {
    if |e.payload| <= MAX_PAYLOAD_SIZE {
      Layout(e);
    }
  }

  /** Every envelope the constructor returns survives the wire. */
  lemma NewEnvelopeDecodes<D(!new), K(!new)>(s: Scheme<D, K>, k: K, kind: Byte, recipient: Key32,
                                             payload: seq<Byte>, now: I64)
    requires VerifiesSigned(s)
    ensures var r := NewEnvelope(s, k, kind, recipient, payload, now);
            && (r.Ok? <==> |payload| <= MAX_PAYLOAD_SIZE && CheckType(kind).None?)
            && (r.Ok? ==>
                  && r.value.sender == s.public(k) && r.value.recipient == recipient
                  && r.value.kind == kind && r.value.payload == payload && r.value.timestamp == now
                  && Decode(s, Encode(r.value)) == Ok(r.value))
  {
    var r := NewEnvelope(s, k, kind, recipient, payload, now);
    if r.Ok? {
      var unsigned := r.value.(signature := seq<Byte>(64, _ => 0));
      assert SignedBytes(unsigned) == SignedBytes(r.value);
      var d := s.digest(SignedBytes(r.value));
      assert r.value.signature == s.sign(k, d);
      DecodeEncode(s, r.value);
    }
  }

  /** Every accepted byte string is the encoding of the envelope read from it. */
  lemma EncodeDecode<D, K>(s: Scheme<D, K>, data: seq<Byte>)
    requires Decode(s, data).Ok?
    ensures Encode(Decode(s, data).value) == data
    ensures Acceptable(s, Decode(s, data).value)
  {
    var e := Decode(s, data).value;
    Widths();
    PutGetBE(data[2..10]);
    PutGetBE(data[74..78]);
    var n := |e.payload|;
    assert data == data[..2] + data[2..10] + data[10..42] + data[42..74] + data[74..78]
                   + data[HEADER_SIZE..HEADER_SIZE + n] + data[HEADER_SIZE + n..];
    assert data[..2] == [e.version, e.kind];
  }

  /**
   A datagram is accepted exactly when it is whole, of version 1 and a network type, states its own
   payload length, and its last 64 bytes are the sender's signature over all the bytes before them.
   */
  lemma DecodeIff<D, K>(s: Scheme<D, K>, data: seq<Byte>)
    ensures Decode(s, data).Ok? <==>
            && 142 <= |data| <= 142 + 65535
            && data[0] == 1 && 1 <= data[1] <= 18 && data[1] != 14 && data[1] != 15
            && GetBE(data[74..78]) == |data| - 142
            && s.verify(data[10..42], s.digest(data[..|data| - 64]), data[|data| - 64..])
  {
    Widths();
    if 142 <= |data| && GetBE(data[74..78]) == |data| - 142 {
      SignedBytesOf(data);
    }
  }

  /** The signed bytes of what a datagram holds are the datagram without its signature. */
  lemma SignedBytesOf(data: seq<Byte>)
    requires 142 <= |data| && GetBE(data[74..78]) == |data| - 142
    ensures GetBE(data[2..10]) < 0x1_0000_0000_0000_0000
    ensures var end := |data| - 64;
            var e := Envelope(data[0], data[1], ToI64(GetBE(data[2..10])), data[10..42], data[42..74], data[78..end],
                              data[end..]);
            SignedBytes(e) == data[..end]
  {
    Widths();
    PutGetBE(data[2..10]);
    PutGetBE(data[74..78]);
    var end := |data| - 64;
    assert data[..end] == data[..2] + data[2..10] + data[10..42] + data[42..74] + data[74..78] + data[78..end];
    assert data[..2] == [data[0], data[1]];
  }

  ghost predicate SameContent(a: Envelope, b: Envelope) {
    a.version == b.version && a.kind == b.kind && a.timestamp == b.timestamp && a.sender == b.sender &&
    a.payload == b.payload
  }

  lemma ContentBytesInjective(a: Envelope, b: Envelope)
    ensures ContentBytes(a) == ContentBytes(b) <==> SameContent(a, b)
  {
    if ContentBytes(a) == ContentBytes(b) {
      var c, d := ContentBytes(a), ContentBytes(b);
      assert c[0] == a.version && c[1] == a.kind && d[0] == b.version && d[1] == b.kind;
      assert c[2..10] == PutBE(ToU64(a.timestamp), 8) && d[2..10] == PutBE(ToU64(b.timestamp), 8);
      Widths();
      GetPutBE(ToU64(a.timestamp), 8);
      GetPutBE(ToU64(b.timestamp), 8);
      assert c[10..42] == a.sender && d[10..42] == b.sender;
      assert c[42..] == a.payload && d[42..] == b.payload;
    }
  }

  /** Two envelopes share a content id exactly when all but recipient and signature agree. */
  lemma ContentIdIff<D, K>(s: Scheme<D, K>, a: Envelope, b: Envelope)
    requires CollisionFree(s)
    ensures ContentId(s, a) == ContentId(s, b) <==> SameContent(a, b)
  {
    ContentBytesInjective(a, b);
  }
}
