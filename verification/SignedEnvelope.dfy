/** Signed envelopes: what is signed, and what a valid signature then says. */
module SignedEnvelope {
  import opened Varint
  import opened Wrappers

  type Key = string

  datatype Envelope = Envelope(key: Key, payloadType: Bytes, payload: Bytes, signature: Bytes)

  datatype ReadError = InvalidSignature | UnexpectedPayloadType(expected: Bytes, got: Bytes)

  /** A byte string with its length in front. */
  function Block(x: Bytes): Bytes {
    Encode(|x|) + x
  }

  function SignaturePayload(domain: Bytes, payloadType: Bytes, payload: Bytes): Bytes {
    Block(domain) + (Block(payloadType) + Block(payload))
  }

  method BuildSignaturePayload(domain: Bytes, payloadType: Bytes, payload: Bytes) returns (buffer: Bytes)
    ensures buffer == SignaturePayload(domain, payloadType, payload)
  {
    var domainLength, typeLength, payloadLength := Encode(|domain|), Encode(|payloadType|), Encode(|payload|);
    buffer := [];
    buffer := buffer + domainLength;
    buffer := buffer + domain;
    buffer := buffer + typeLength;
    buffer := buffer + payloadType;
    buffer := buffer + payloadLength;
    buffer := buffer + payload;
    SixBlocks(domainLength, domain, typeLength, payloadType, payloadLength, payload);
  }

  /** Reads a length and as many bytes. */
  function ReadBlock(s: Bytes): Option<(Bytes, Bytes)> {
    match DecodeUsize(s)
    case Value(len, rest) => if len <= |rest| then Some((rest[..len], rest[len..])) else None
    case _ => None
  }

  lemma BlockIsRead(x: Bytes, rest: Bytes)
    requires |x| < 0x8000_0000_0000_0000
    ensures ReadBlock(Block(x) + rest) == Some((x, rest))
  {
    assert Block(x) + rest == Encode(|x|) + (x + rest);
    UsizeRoundTrip(|x|, x + rest);
    assert (x + rest)[..|x|] == x && (x + rest)[|x|..] == rest;
  }

  /** Three blocks in this order, and nothing else. */
  predicate ReadsAs(m: Bytes, a: Bytes, b: Bytes, c: Bytes) {
    var first := ReadBlock(m);
    && first.Some? && first.value.0 == a
    && var second := ReadBlock(first.value.1);
       && second.Some? && second.value.0 == b
       && ReadBlock(second.value.1) == Some((c, []))
  }

  /** What is signed reads as domain, type and payload. A slice is shorter than 2^63 bytes. */
  lemma SignaturePayloadReads(domain: Bytes, payloadType: Bytes, payload: Bytes)
    requires |domain| < 0x8000_0000_0000_0000 && |payloadType| < 0x8000_0000_0000_0000
    requires |payload| < 0x8000_0000_0000_0000
    ensures ReadsAs(SignaturePayload(domain, payloadType, payload), domain, payloadType, payload)
  {
    BlockIsRead(domain, Block(payloadType) + Block(payload));
    BlockIsRead(payloadType, Block(payload));
    BlockIsRead(payload, []);
    assert Block(payload) + [] == Block(payload);
  }

  lemma SixBlocks(a: Bytes, b: Bytes, c: Bytes, d: Bytes, e: Bytes, f: Bytes)
    ensures [] + a + b + c + d + e + f == (a + b) + ((c + d) + (e + f))
  {
  }

  lemma BlockPrefixFree(x: Bytes, y: Bytes, u: Bytes, v: Bytes)
    requires Block(x) + u == Block(y) + v
    ensures x == y && u == v
  {
    assert Block(x) + u == Encode(|x|) + (x + u);
    assert Block(y) + v == Encode(|y|) + (y + v);
    PrefixFree(|x|, |y|, x + u, y + v);
    assert (x + u)[..|x|] == x && (y + v)[..|y|] == y;
    assert (x + u)[|x|..] == u && (y + v)[|y|..] == v;
  }

  /** Different domains, types or payloads, of whatever lengths, are signed differently. */
  lemma SignaturePayloadInjective(d1: Bytes, t1: Bytes, p1: Bytes, d2: Bytes, t2: Bytes, p2: Bytes)
    requires SignaturePayload(d1, t1, p1) == SignaturePayload(d2, t2, p2)
    ensures d1 == d2 && t1 == t2 && p1 == p2
  {
    BlockPrefixFree(d1, d2, Block(t1) + Block(p1), Block(t2) + Block(p2));
    BlockPrefixFree(t1, t2, Block(p1), Block(p2));
    assert Block(p1) + [] == Block(p1) && Block(p2) + [] == Block(p2);
    BlockPrefixFree(p1, p2, [], []);
  }

  // -------------------------------------------------------------------- envelopes

  /** A signature scheme: signing, which may fail, and verification with the public key. */
  datatype Scheme = Scheme(sign: (Key, Bytes) -> Result<Bytes, string>, verify: (Key, Bytes, Bytes) -> bool)

  method New(s: Scheme, key: Key, domain: Bytes, payloadType: Bytes, payload: Bytes)
    returns (r: Result<Envelope, string>)
    ensures r == Sealed(s, Signing(key, domain, payloadType, payload))
  {
    var buffer := BuildSignaturePayload(domain, payloadType, payload);
    var signature := s.sign(key, buffer);
    if signature.Err? {
      return Err(signature.error);
    }
    return Ok(Envelope(key, payloadType, payload, signature.value));
  }

  /** A call that makes an envelope. */
  datatype Signing = Signing(key: Key, domain: Bytes, payloadType: Bytes, payload: Bytes)

  function Sealed(s: Scheme, c: Signing): Result<Envelope, string> {
    match s.sign(c.key, SignaturePayload(c.domain, c.payloadType, c.payload))
    case Ok(signature) => Ok(Envelope(c.key, c.payloadType, c.payload, signature))
    case Err(e) => Err(e)
  }

  predicate Verify(s: Scheme, e: Envelope, domain: Bytes) {
    s.verify(e.key, SignaturePayload(domain, e.payloadType, e.payload), e.signature)
  }

  function PayloadAndSigningKey(s: Scheme, e: Envelope, domain: Bytes, expected: Bytes):
    Result<(Bytes, Key), ReadError>
  {
    if e.payloadType != expected then Err(UnexpectedPayloadType(expected, e.payloadType))
    else if !Verify(s, e, domain) then Err(InvalidSignature)
    else Ok((e.payload, e.key))
  }

  /** What is signed can be verified. */
  ghost predicate Correct(s: Scheme) {
    forall k, m | s.sign(k, m).Ok? :: s.verify(k, m, s.sign(k, m).value)
  }

  /** An ideal signature stands for one message only. */
  ghost predicate Binding(s: Scheme) {
    forall k, m, m', sig | s.verify(k, m, sig) && s.verify(k, m', sig) :: m == m'
  }

  /** What is signed on sealing reads as the domain, the type and the payload, and the envelope
      carries all but the domain. */
  lemma SealedSigns(s: Scheme, c: Signing)
    requires |c.domain| < 0x8000_0000_0000_0000 && |c.payloadType| < 0x8000_0000_0000_0000
    requires |c.payload| < 0x8000_0000_0000_0000
    requires Sealed(s, c).Ok?
    ensures exists m :: s.sign(c.key, m) == Ok(Sealed(s, c).value.signature)
                        && ReadsAs(m, c.domain, c.payloadType, c.payload)
    ensures var e := Sealed(s, c).value; e.key == c.key && e.payloadType == c.payloadType && e.payload == c.payload
  {
    SignaturePayloadReads(c.domain, c.payloadType, c.payload);
    var m := SignaturePayload(c.domain, c.payloadType, c.payload);
    assert s.sign(c.key, m) == Ok(Sealed(s, c).value.signature) && ReadsAs(m, c.domain, c.payloadType, c.payload);
  }

  /** Whatever is put around a signature that was made on sealing, the result yields a payload
      exactly if it is the sealed envelope, asked for the domain and type it was sealed
      with, however often the key has sealed this payload for other purposes. */
  lemma YieldsExactlyAsSealed(s: Scheme, c: Signing, e: Envelope, domain: Bytes, expected: Bytes)
    requires Correct(s) && Binding(s) && Sealed(s, c).Ok?
    requires e.key == c.key && e.signature == Sealed(s, c).value.signature
    ensures var r := PayloadAndSigningKey(s, e, domain, expected);
            && (r.Ok? <==> e == Sealed(s, c).value && domain == c.domain && expected == c.payloadType)
            && (r.Ok? ==> r.value == (c.payload, c.key))
            && (r.Err? ==> r.error == if expected == e.payloadType then InvalidSignature
                                      else UnexpectedPayloadType(expected, e.payloadType))
  {
    var signed := SignaturePayload(c.domain, c.payloadType, c.payload);
    assert s.sign(c.key, signed).Ok?;
    if PayloadAndSigningKey(s, e, domain, expected).Ok? {
      assert s.verify(e.key, SignaturePayload(domain, e.payloadType, e.payload), e.signature);
      SignaturePayloadInjective(domain, e.payloadType, e.payload, c.domain, c.payloadType, c.payload);
    }
  }

  /** The signature was made by the holder of the key, on one of these occasions. */
  ghost predicate Issued(s: Scheme, calls: iset<Signing>, e: Envelope) {
    exists c | c in calls :: c.key == e.key && Sealed(s, c).Ok? && Sealed(s, c).value.signature == e.signature
  }

  /** An envelope whose signature was issued by its key yields a payload only if the holder of
      the key has sealed that payload for the very domain and type asked for. */
  lemma PayloadOnlyAsSealed(s: Scheme, calls: iset<Signing>, e: Envelope, domain: Bytes, expected: Bytes)
    requires Correct(s) && Binding(s) && Issued(s, calls, e)
    requires PayloadAndSigningKey(s, e, domain, expected).Ok?
    ensures Signing(e.key, domain, expected, e.payload) in calls
  {
    var c :| c in calls && c.key == e.key && Sealed(s, c).Ok? && Sealed(s, c).value.signature == e.signature;
    YieldsExactlyAsSealed(s, c, e, domain, expected);
    assert c == Signing(e.key, domain, expected, e.payload);
  }
}
