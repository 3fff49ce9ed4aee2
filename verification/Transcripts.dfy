/** The byte strings that the handshake signs: a tag, the message without its signature and, for a response, the
    handshake context. */
module Transcripts {
  import opened Bounded
  import opened Endian
  import opened Messages
  import opened Records
  import Wire

  datatype Context = Context(initiatorIdentity: Bytes32, responderIdentity: Bytes32,
                             initiatorEphemeral: Bytes32, responderEphemeral: Bytes32)

  datatype Transcript =
    | Initiate(message: Message)
    | Respond(message: Message, context: Context)
    | Rotate(message: Message)

  predicate Proper(t: Transcript) {
    match t
    case Initiate(m) => m.SecureHandshake? && Short(m.peerName)
    case Respond(m, _) => m.SecureHandshakeAck?
    case Rotate(m) => m.KeyRotation?
  }

  function Ascii(text: string): (r: Bytes)
    requires forall i | 0 <= i < |text| :: text[i] < 128 as char
    ensures |r| == |text|
  {
    seq(|text|, i requires 0 <= i < |text| => text[i] as int)
  }

  predicate IsSigned(m: Message) {
    m.SecureHandshake? || m.SecureHandshakeAck? || m.KeyRotation?
  }

  /** The fields before the signature. */
  function SignedLayout(k: Kind): seq<Wire.Shape> {
    Layout(k)[..|Layout(k)| - 1]
  }

  function SignedFields(m: Message): seq<Wire.Datum>
    requires IsSigned(m)
  {
    Fields(m)[..|Fields(m)| - 1]
  }

  function ForSignature(m: Message): Bytes
    requires IsSigned(m)
  {
    SignedFieldsMatch(m);
    Write(SignedLayout(KindOf(m)), SignedFields(m))
  }

  function SignatureData(tag: Bytes, data: Bytes): Bytes {
    Wire.PutSize(Big, |tag|) + tag + data
  }

  const CONTEXT_TAG := Ascii("HYPERSHARE_HANDSHAKE_V1")
  const CONTEXT: seq<Wire.Shape> := [STRING, Wire.Raw(32), Wire.Raw(32), Wire.Raw(32), Wire.Raw(32)]

  function ContextFields(c: Context): seq<Wire.Datum> {
    [Wire.Blob(CONTEXT_TAG), Wire.Blob(c.initiatorIdentity), Wire.Blob(c.responderIdentity),
     Wire.Blob(c.initiatorEphemeral), Wire.Blob(c.responderEphemeral)]
  }

  function HandshakeContext(c: Context): Bytes {
    Write(CONTEXT, ContextFields(c))
  }

  function Tag(t: Transcript): Bytes {
    match t
    case Initiate(_) => Ascii("HANDSHAKE_INITIATE")
    case Respond(_, _) => Ascii("HANDSHAKE_RESPOND")
    case Rotate(_) => Ascii("KEY_ROTATION")
  }

  function Signed(t: Transcript): Bytes
    requires Proper(t)
  {
    match t
    case Initiate(m) => SignatureData(Tag(t), ForSignature(m))
    case Respond(m, c) => SignatureData(Tag(t), ForSignature(m)) + HandshakeContext(c)
    case Rotate(m) => SignatureData(Tag(t), ForSignature(m))
  }

  lemma SignedFieldsMatch(m: Message)
    requires IsSigned(m)
    ensures Matches(SignedLayout(KindOf(m)), SignedFields(m))
    ensures SizesFit(m) ==> AllFit(SignedLayout(KindOf(m)), SignedFields(m))
  {
    FieldsMatch(m);
    var l, f := Layout(KindOf(m)), Fields(m);
    forall i | 0 <= i < |SignedFields(m)|
      ensures Wire.Typed(SignedLayout(KindOf(m))[i], SignedFields(m)[i])
      ensures SizesFit(m) ==> Wire.Fits(SignedLayout(KindOf(m))[i], SignedFields(m)[i])
    {
      assert Wire.Typed(l[i], f[i]) && (SizesFit(m) ==> Wire.Fits(l[i], f[i]));
    }
  }

  lemma LastField(m: Message)
    requires IsSigned(m)
    ensures var l, f := Layout(KindOf(m)), Fields(m);
      && |l| == |f| && l[|f| - 1] == Wire.Raw(64) && f[|f| - 1] == Wire.Blob(m.signature)
  {
  }

  /** A message is sent as what was signed followed by the signature. */
  lemma SignatureComesLast(m: Message)
    requires IsSigned(m)
    ensures Serialize(m) == ForSignature(m) + m.signature
  {
    LastField(m);
    SignedFieldsMatch(m);
    var l, f := Layout(KindOf(m)), Fields(m);
    var last, lastField := [Wire.Raw(64)], [Wire.Blob(m.signature)];
    assert l == SignedLayout(KindOf(m)) + last && f == SignedFields(m) + lastField;
    WriteAppends(SignedLayout(KindOf(m)), SignedFields(m), last, lastField);
    SignatureBytes(m.signature);
  }

  lemma SignatureBytes(signature: Bytes64)
    ensures Write([Wire.Raw(64)], [Wire.Blob(signature)]) == signature
  {
    WriteFirst([Wire.Raw(64)], [Wire.Blob(signature)]);
    assert Write([], []) == [];
  }

  /** Equal signature data have equal tags and equal contents. */
  lemma TagIsReadable(tag: Bytes, data: Bytes, other: Bytes, more: Bytes)
    requires Short(tag) && Short(other)
    requires SignatureData(tag, data) == SignatureData(other, more)
    ensures tag == other && data == more
  {
    var t, o := Wire.Blob(tag), Wire.Blob(other);
    assert Wire.Encode(STRING, t) + data == SignatureData(tag, data);
    assert Wire.Encode(STRING, o) + more == SignatureData(other, more);
    Wire.UniquelyReadable(STRING, t, data, o, more);
  }

  lemma ContentIsReadable(m: Message, suffix: Bytes, n: Message, more: Bytes)
    requires IsSigned(m) && KindOf(m) == KindOf(n) && SizesFit(m) && SizesFit(n)
    requires ForSignature(m) + suffix == ForSignature(n) + more
    ensures SignedFields(m) == SignedFields(n) && suffix == more
  {
    SignedFieldsMatch(m);
    SignedFieldsMatch(n);
    ReadsUniquely(SignedLayout(KindOf(m)), SignedFields(m), suffix, SignedFields(n), more);
  }

  lemma ContextIsReadable(c: Context, d: Context)
    requires HandshakeContext(c) == HandshakeContext(d)
    ensures c == d
  {
    assert HandshakeContext(c) + [] == HandshakeContext(d) + [];
    ReadsUniquely(CONTEXT, ContextFields(c), [], ContextFields(d), []);
    assert ContextFields(c)[1] == ContextFields(d)[1] && ContextFields(c)[2] == ContextFields(d)[2];
    assert ContextFields(c)[3] == ContextFields(d)[3] && ContextFields(c)[4] == ContextFields(d)[4];
  }

  function WithSignature(m: Message, s: Bytes64): Message
    requires IsSigned(m)
  {
    match m
    case SecureHandshake(peer, port, name, capabilities, identity, ephemeral, nonce, _) =>
      SecureHandshake(peer, port, name, capabilities, identity, ephemeral, nonce, s)
    case SecureHandshakeAck(peer, ephemeral, nonce, response, _) => SecureHandshakeAck(peer, ephemeral, nonce, response, s)
    case KeyRotation(id, ephemeral, nonce, timestamp, _) => KeyRotation(id, ephemeral, nonce, timestamp, s)
  }

  /** The same message, up to its signature. */
  predicate SameUnsigned(m: Message, n: Message)
    requires IsSigned(m) && IsSigned(n)
  {
    m == WithSignature(n, m.signature)
  }

  lemma SameSignedFields(m: Message, n: Message)
    requires IsSigned(m) && IsSigned(n) && KindOf(m) == KindOf(n) && SignedFields(m) == SignedFields(n)
    ensures SameUnsigned(m, n)
  {
    var f, g := SignedFields(m), SignedFields(n);
    match m
    case SecureHandshake(_, _, _, _, _, _, _, _) =>
      assert f[0] == g[0] && f[1] == g[1] && f[2] == g[2] && f[3] == g[3] && f[4] == g[4] && f[5] == g[5] && f[6] == g[6];
    case SecureHandshakeAck(_, _, _, _, _) =>
      assert f[0] == g[0] && f[1] == g[1] && f[2] == g[2] && f[3] == g[3];
    case KeyRotation(_, _, _, _, _) =>
      assert f[0] == g[0] && f[1] == g[1] && f[2] == g[2] && f[3] == g[3];
  }

  /** What follows the message in the signed string. */
  function Appended(t: Transcript): Bytes {
    if t.Respond? then HandshakeContext(t.context) else []
  }

  lemma SignedParts(t: Transcript)
    requires Proper(t)
    ensures Signed(t) == SignatureData(Tag(t), ForSignature(t.message) + Appended(t))
    ensures Short(Tag(t)) && SizesFit(t.message)
  {
    var head, data := Wire.PutSize(Big, |Tag(t)|) + Tag(t), ForSignature(t.message);
    assert head + data + Appended(t) == head + (data + Appended(t));
    assert data + [] == data;
  }

  /** One signature never covers two transcripts: neither two kinds nor two contents of one kind. */
  lemma TranscriptsAreInjective(t: Transcript, u: Transcript)
    requires Proper(t) && Proper(u) && Signed(t) == Signed(u)
    ensures SameUnsigned(t.message, u.message)
    ensures (t.Initiate? <==> u.Initiate?) && (t.Respond? <==> u.Respond?)
    ensures t.Respond? ==> t.context == u.context
  {
    SignedParts(t);
    SignedParts(u);
    TagIsReadable(Tag(t), ForSignature(t.message) + Appended(t), Tag(u), ForSignature(u.message) + Appended(u));
    assert |Tag(t)| == |Tag(u)|;
    ContentIsReadable(t.message, Appended(t), u.message, Appended(u));
    SameSignedFields(t.message, u.message);
    if t.Respond? { ContextIsReadable(t.context, u.context); }
  }
}
