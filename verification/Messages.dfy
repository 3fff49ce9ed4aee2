/** The messages with a strict codec: their layouts, and that decoding undoes encoding. Strings are byte strings. */
module Messages {
  import opened Bounded
  import opened Endian
  import opened Wire
  import opened Records

  type Bytes4 = b: Bytes | |b| == 4 witness [0, 0, 0, 0]
  type Bytes12 = b: Bytes | |b| == 12 witness BigBytes(0, 12)
  type Bytes16 = b: Bytes | |b| == 16 witness BigBytes(0, 16)
  type Bytes32 = b: Bytes | |b| == 32 witness BigBytes(0, 32)
  type Bytes64 = b: Bytes | |b| == 64 witness BigBytes(0, 64)

  datatype Message =
    | Header(magic: u32, version: u16, kind: u8, flags: u8, messageId: u64, payloadSize: u32, timestamp: u64,
             checksum: Bytes4)
    | Handshake(peerId: u32, listenPort: u16, peerName: Bytes, capabilities: u32)
    | Heartbeat(timestamp: u64, activeConnections: u32, availableFiles: u32)
    | PeerAnnounce(peerId: u32, ipAddress: Bytes, port: u16, lastSeen: u64)
    | FileAnnounce(fileId: Bytes, filename: Bytes, fileSize: u64, fileHash: Bytes, tags: seq<Bytes>)
    | ChunkRequest(fileId: Bytes, chunkIndex: u64, chunkSize: u32)
    | ChunkData(fileId: Bytes, chunkIndex: u64, data: Bytes, chunkHash: Bytes)
    | ErrorResponse(code: u32, text: Bytes, requestId: u64)
    | SecureHandshake(peerId: u32, listenPort: u16, peerName: Bytes, capabilities: u32, identityKey: Bytes32,
                      ephemeralKey: Bytes32, nonce: u64, signature: Bytes64)
    | SecureHandshakeAck(peerId: u32, ephemeralKey: Bytes32, nonce: u64, responseNonce: u64, signature: Bytes64)
    | KeyRotation(rotationId: u64, newEphemeralKey: Bytes32, nonce: u64, timestamp: u64, signature: Bytes64)
    | Encrypted(cipherNonce: Bytes12, ciphertext: Bytes, tag: Bytes16)
    | Secure(kind: u8, sequence: u64, cipherNonce: Bytes12, ciphertext: Bytes, tag: Bytes16)
    | TopologySync(requestingPeer: u32, lastKnownSequence: u64, knownPeers: seq<u32>)
    | FileQuery(fileId: Bytes, queryHash: Bytes, sourcePeer: u32, queryId: u32, hopCount: u8, terms: seq<Bytes>)

  datatype Kind = HeaderKind | HandshakeKind | HeartbeatKind | PeerAnnounceKind | FileAnnounceKind | ChunkRequestKind
    | ChunkDataKind | ErrorKind | SecureHandshakeKind | SecureHandshakeAckKind | KeyRotationKind | EncryptedKind
    | SecureKind | TopologySyncKind | FileQueryKind

  function KindOf(m: Message): Kind {
    match m
    case Header(_, _, _, _, _, _, _, _) => HeaderKind
    case Handshake(_, _, _, _) => HandshakeKind
    case Heartbeat(_, _, _) => HeartbeatKind
    case PeerAnnounce(_, _, _, _) => PeerAnnounceKind
    case FileAnnounce(_, _, _, _, _) => FileAnnounceKind
    case ChunkRequest(_, _, _) => ChunkRequestKind
    case ChunkData(_, _, _, _) => ChunkDataKind
    case ErrorResponse(_, _, _) => ErrorKind
    case SecureHandshake(_, _, _, _, _, _, _, _) => SecureHandshakeKind
    case SecureHandshakeAck(_, _, _, _, _) => SecureHandshakeAckKind
    case KeyRotation(_, _, _, _, _) => KeyRotationKind
    case Encrypted(_, _, _) => EncryptedKind
    case Secure(_, _, _, _, _) => SecureKind
    case TopologySync(_, _, _) => TopologySyncKind
    case FileQuery(_, _, _, _, _, _) => FileQueryKind
  }

  const BIG8 := UInt(1, Big)
  const BIG16 := UInt(2, Big)
  const BIG32 := UInt(4, Big)
  const BIG64 := UInt(8, Big)
  const STRING := Text(Big)
  const ENCRYPTED: seq<Shape> := [Raw(12), STRING, Raw(16)]

  function Layout(k: Kind): seq<Shape> {
    match k
    case HeaderKind => [BIG32, BIG16, BIG8, BIG8, BIG64, BIG32, BIG64, Raw(4)]
    case HandshakeKind => [BIG32, BIG16, STRING, BIG32]
    case HeartbeatKind => [BIG64, BIG32, BIG32]
    case PeerAnnounceKind => [BIG32, STRING, BIG16, BIG64]
    case FileAnnounceKind => [STRING, STRING, BIG64, STRING, TextList(Big)]
    case ChunkRequestKind => [STRING, BIG64, BIG32]
    case ChunkDataKind => [STRING, BIG64, STRING, STRING]
    case ErrorKind => [BIG32, STRING, BIG64]
    case SecureHandshakeKind => [BIG32, BIG16, STRING, BIG32, Raw(32), Raw(32), BIG64, Raw(64)]
    case SecureHandshakeAckKind => [BIG32, Raw(32), BIG64, BIG64, Raw(64)]
    case KeyRotationKind => [BIG64, Raw(32), BIG64, BIG64, Raw(64)]
    case EncryptedKind => ENCRYPTED
    case SecureKind => [BIG8, BIG64, Nested(Big, CIPHER_SHAPE)]
    case TopologySyncKind => [LITTLE32, WORDS64, Counted(Little, Empty, LITTLE32)]
    case FileQueryKind => [Text(Little), Text(Little), LITTLE32, LITTLE32, UInt(1, Little), TextList(Little)]
  }

  function Ids(ids: seq<u32>): Datum {
    List(Unit, seq(|ids|, i requires 0 <= i < |ids| => Num(ids[i])))
  }

  function Fields(m: Message): seq<Datum> {
    match m
    case Header(magic, version, kind, flags, id, size, timestamp, checksum) =>
      [Num(magic), Num(version), Num(kind), Num(flags), Num(id), Num(size), Num(timestamp), Blob(checksum)]
    case Handshake(peer, port, name, capabilities) => [Num(peer), Num(port), Blob(name), Num(capabilities)]
    case Heartbeat(timestamp, active, files) => [Num(timestamp), Num(active), Num(files)]
    case PeerAnnounce(peer, ip, port, seen) => [Num(peer), Blob(ip), Num(port), Num(seen)]
    case FileAnnounce(id, name, size, hash, tags) => [Blob(id), Blob(name), Num(size), Blob(hash), Texts(tags)]
    case ChunkRequest(id, index, size) => [Blob(id), Num(index), Num(size)]
    case ChunkData(id, index, data, hash) => [Blob(id), Num(index), Blob(data), Blob(hash)]
    case ErrorResponse(code, text, request) => [Num(code), Blob(text), Num(request)]
    case SecureHandshake(peer, port, name, capabilities, identity, ephemeral, nonce, signature) =>
      [Num(peer), Num(port), Blob(name), Num(capabilities), Blob(identity), Blob(ephemeral), Num(nonce), Blob(signature)]
    case SecureHandshakeAck(peer, ephemeral, nonce, response, signature) =>
      [Num(peer), Blob(ephemeral), Num(nonce), Num(response), Blob(signature)]
    case KeyRotation(id, ephemeral, nonce, timestamp, signature) =>
      [Num(id), Blob(ephemeral), Num(nonce), Num(timestamp), Blob(signature)]
    case Encrypted(nonce, ciphertext, tag) => [Blob(nonce), Blob(ciphertext), Blob(tag)]
    case Secure(kind, sequence, nonce, ciphertext, tag) =>
      [Num(kind), Num(sequence), CipherTuple(nonce, ciphertext, tag)]
    case TopologySync(peer, sequence, ids) => [Num(peer), Num(sequence), Ids(ids)]
    case FileQuery(id, hash, source, query, hops, terms) =>
      [Blob(id), Blob(hash), Num(source), Num(query), Num(hops), Texts(terms)]
  }

  /** Every size written as 32 bits fits into 32 bits. */
  predicate SizesFit(m: Message) {
    match m
    case Handshake(_, _, name, _) => Short(name)
    case PeerAnnounce(_, ip, _, _) => Short(ip)
    case FileAnnounce(id, name, _, hash, tags) => Short(id) && Short(name) && Short(hash) && AllShort(tags)
    case ChunkRequest(id, _, _) => Short(id)
    case ChunkData(id, _, data, hash) => Short(id) && Short(data) && Short(hash)
    case ErrorResponse(_, text, _) => Short(text)
    case SecureHandshake(_, _, name, _, _, _, _, _) => Short(name)
    case Encrypted(_, ciphertext, _) => Short(ciphertext)
    case Secure(_, _, _, ciphertext, _) => |ciphertext| + 32 < TWO_TO_THE_32
    case TopologySync(_, _, ids) => |ids| < TWO_TO_THE_32
    case FileQuery(id, hash, _, _, _, terms) => Short(id) && Short(hash) && AllShort(terms)
    case _ => true
  }

  lemma IdsTyped(ids: seq<u32>)
    ensures Typed(Counted(Little, Empty, LITTLE32), Ids(ids))
    ensures Fits(Counted(Little, Empty, LITTLE32), Ids(ids)) <==> |ids| < TWO_TO_THE_32
  {
    var items := Ids(ids).items;
    Powers();
    ItemsTyped(LITTLE32, items);
    ItemsFit(LITTLE32, items);
  }

  function IdsOf(d: Datum): (r: seq<u32>)
    requires Typed(Counted(Little, Empty, LITTLE32), d)
    ensures Ids(r) == d
  {
    Powers();
    ItemsTyped(LITTLE32, d.items);
    var r := seq(|d.items|, i requires 0 <= i < |d.items| => d.items[i].value as u32);
    assert Ids(r).items == d.items by {
      assert forall i | 0 <= i < |d.items| :: Ids(r).items[i] == Num(r[i]) == d.items[i];
    }
    assert Typed(Empty, d.header);
    r
  }

  /** The encrypted message as one value, which the secure message nests. */
  function CipherTuple(nonce: Bytes12, ciphertext: Bytes, tag: Bytes16): Datum {
    Pair(Blob(nonce), Pair(Blob(ciphertext), Pair(Blob(tag), Unit)))
  }

  const CIPHER_SHAPE := Then(Raw(12), Then(STRING, Then(Raw(16), Empty)))

  lemma CipherTyped(nonce: Bytes12, ciphertext: Bytes, tag: Bytes16)
    ensures Typed(CIPHER_SHAPE, CipherTuple(nonce, ciphertext, tag))
    ensures |Encode(CIPHER_SHAPE, CipherTuple(nonce, ciphertext, tag))| == |ciphertext| + 32
    ensures Fits(CIPHER_SHAPE, CipherTuple(nonce, ciphertext, tag)) <==> Short(ciphertext)
  {
    var last, lastDatum := Then(Raw(16), Empty), Pair(Blob(tag), Unit);
    assert Typed(last, lastDatum) && Encode(last, lastDatum) == tag + [] && Fits(last, lastDatum);
    var rest, restDatum := Then(STRING, last), Pair(Blob(ciphertext), lastDatum);
    assert Typed(rest, restDatum) && (Fits(rest, restDatum) <==> Short(ciphertext));
    assert Encode(rest, restDatum) == (PutSize(Big, |ciphertext|) + ciphertext) + (tag + []);
  }

  ghost predicate FieldsAreRight(m: Message) {
    Matches(Layout(KindOf(m)), Fields(m)) && (AllFit(Layout(KindOf(m)), Fields(m)) <==> SizesFit(m))
  }

  predicate IsSecured(m: Message) {
    m.SecureHandshake? || m.SecureHandshakeAck? || m.KeyRotation? || m.Encrypted?
  }

  lemma PeerMatch(m: Message)
    requires m.Header? || m.Handshake? || m.Heartbeat? || m.PeerAnnounce?
    ensures FieldsAreRight(m)
  {
    Powers();
    match m
    case Header(_, _, _, _, _, _, _, _) =>
    case Handshake(_, _, name, _) => assert Fits(Layout(HandshakeKind)[2], Fields(m)[2]) <==> Short(name);
    case Heartbeat(_, _, _) =>
    case PeerAnnounce(_, ip, _, _) => assert Fits(Layout(PeerAnnounceKind)[1], Fields(m)[1]) <==> Short(ip);
  }

  lemma ChunkMatch(m: Message)
    requires m.ChunkRequest? || m.ChunkData? || m.ErrorResponse?
    ensures FieldsAreRight(m)
  {
    Powers();
    match m
    case ChunkRequest(id, _, _) => assert Fits(Layout(ChunkRequestKind)[0], Fields(m)[0]) <==> Short(id);
    case ChunkData(id, _, data, hash) =>
      var l, f := Layout(ChunkDataKind), Fields(m);
      assert (Fits(l[0], f[0]) <==> Short(id)) && (Fits(l[2], f[2]) <==> Short(data)) && (Fits(l[3], f[3]) <==> Short(hash));
    case ErrorResponse(_, text, _) => assert Fits(Layout(ErrorKind)[1], Fields(m)[1]) <==> Short(text);
  }

  lemma SecuredMatch(m: Message)
    requires IsSecured(m)
    ensures FieldsAreRight(m)
  {
    Powers();
    match m
    case SecureHandshake(_, _, name, _, _, _, _, _) =>
      assert Fits(Layout(SecureHandshakeKind)[2], Fields(m)[2]) <==> Short(name);
    case SecureHandshakeAck(_, _, _, _, _) =>
    case KeyRotation(_, _, _, _, _) =>
    case Encrypted(nonce, ciphertext, tag) =>
      assert Fits(Layout(EncryptedKind)[1], Fields(m)[1]) <==> Short(ciphertext);
  }

  lemma SecureMatch(m: Message)
    requires m.Secure?
    ensures FieldsAreRight(m)
  {
    Powers();
    CipherTyped(m.cipherNonce, m.ciphertext, m.tag);
    var l, f := Layout(SecureKind), Fields(m);
    assert Typed(l[0], f[0]) && Typed(l[1], f[1]) && Typed(l[2], f[2]);
    assert Fits(l[0], f[0]) && Fits(l[1], f[1]) && (Fits(l[2], f[2]) <==> SizesFit(m));
  }

  lemma AnnounceMatch(m: Message)
    requires m.FileAnnounce?
    ensures FieldsAreRight(m)
  {
    Powers();
    TextsTyped(Big, m.tags);
    var l, f := Layout(FileAnnounceKind), Fields(m);
    assert (Fits(l[0], f[0]) <==> Short(m.fileId)) && (Fits(l[1], f[1]) <==> Short(m.filename));
    assert (Fits(l[3], f[3]) <==> Short(m.fileHash)) && (Fits(l[4], f[4]) <==> AllShort(m.tags));
  }

  lemma QueryMatch(m: Message)
    requires m.FileQuery?
    ensures FieldsAreRight(m)
  {
    Powers();
    TextsTyped(Little, m.terms);
    var l, f := Layout(FileQueryKind), Fields(m);
    assert (Fits(l[0], f[0]) <==> Short(m.fileId)) && (Fits(l[1], f[1]) <==> Short(m.queryHash));
    assert Fits(l[5], f[5]) <==> AllShort(m.terms);
  }

  lemma SyncMatch(m: Message)
    requires m.TopologySync?
    ensures FieldsAreRight(m)
  {
    Powers();
    IdsTyped(m.knownPeers);
    var l, f := Layout(TopologySyncKind), Fields(m);
    assert Fits(l[2], f[2]) <==> |m.knownPeers| < TWO_TO_THE_32;
  }

  lemma FieldsMatch(m: Message)
    ensures FieldsAreRight(m)
  {
    match m
    case Secure(_, _, _, _, _) => SecureMatch(m);
    case FileAnnounce(_, _, _, _, _) => AnnounceMatch(m);
    case FileQuery(_, _, _, _, _, _) => QueryMatch(m);
    case TopologySync(_, _, _) => SyncMatch(m);
    case ChunkRequest(_, _, _) => ChunkMatch(m);
    case ChunkData(_, _, _, _) => ChunkMatch(m);
    case ErrorResponse(_, _, _) => ChunkMatch(m);
    case _ => if IsSecured(m) { SecuredMatch(m); } else { PeerMatch(m); }
  }

  // ----- from fields back to messages -----

  lemma CipherParts(d: Datum)
    requires Typed(CIPHER_SHAPE, d)
    ensures d.Pair? && d.fst.Blob? && |d.fst.bytes| == 12
    ensures d.snd.Pair? && d.snd.fst.Blob?
    ensures d.snd.snd.Pair? && d.snd.snd.fst.Blob? && |d.snd.snd.fst.bytes| == 16 && d.snd.snd.snd.Unit?
  {
    assert Typed(Then(STRING, Then(Raw(16), Empty)), d.snd);
    assert Typed(Then(Raw(16), Empty), d.snd.snd);
  }

  predicate IsSecuredKind(k: Kind) {
    k.SecureHandshakeKind? || k.SecureHandshakeAckKind? || k.KeyRotationKind? || k.EncryptedKind?
  }

  ghost predicate Builds(k: Kind, f: seq<Datum>, m: Message) {
    KindOf(m) == k && Fields(m) == f
  }

  function BuildSecured(k: Kind, f: seq<Datum>): (m: Message)
    requires IsSecuredKind(k)
    requires Matches(Layout(k), f)
    ensures Builds(k, f, m)
  {
    Powers();
    match k
    case SecureHandshakeKind =>
      SecureHandshake(f[0].value, f[1].value, f[2].bytes, f[3].value, f[4].bytes, f[5].bytes, f[6].value, f[7].bytes)
    case SecureHandshakeAckKind =>
      SecureHandshakeAck(f[0].value, f[1].bytes, f[2].value, f[3].value, f[4].bytes)
    case KeyRotationKind => KeyRotation(f[0].value, f[1].bytes, f[2].value, f[3].value, f[4].bytes)
    case EncryptedKind => Encrypted(f[0].bytes, f[1].bytes, f[2].bytes)
  }

  function BuildSecure(f: seq<Datum>): (m: Message)
    requires Matches(Layout(SecureKind), f)
    ensures Builds(SecureKind, f, m)
  {
    Powers();
    assert Typed(Layout(SecureKind)[2], f[2]);
    assert Typed(CIPHER_SHAPE, f[2]);
    CipherParts(f[2]);
    Secure(f[0].value, f[1].value, f[2].fst.bytes, f[2].snd.fst.bytes, f[2].snd.snd.fst.bytes)
  }

  function BuildPlain(k: Kind, f: seq<Datum>): (m: Message)
    requires !IsSecuredKind(k) && k != SecureKind
    requires Matches(Layout(k), f)
    ensures Builds(k, f, m)
  {
    Powers();
    match k
    case HeaderKind =>
      Header(f[0].value, f[1].value, f[2].value, f[3].value, f[4].value, f[5].value, f[6].value, f[7].bytes)
    case HandshakeKind => Handshake(f[0].value, f[1].value, f[2].bytes, f[3].value)
    case HeartbeatKind => Heartbeat(f[0].value, f[1].value, f[2].value)
    case PeerAnnounceKind => PeerAnnounce(f[0].value, f[1].bytes, f[2].value, f[3].value)
    case FileAnnounceKind => FileAnnounce(f[0].bytes, f[1].bytes, f[2].value, f[3].bytes, TextsOf(Big, f[4]))
    case ChunkRequestKind => ChunkRequest(f[0].bytes, f[1].value, f[2].value)
    case ChunkDataKind => ChunkData(f[0].bytes, f[1].value, f[2].bytes, f[3].bytes)
    case ErrorKind => ErrorResponse(f[0].value, f[1].bytes, f[2].value)
    case TopologySyncKind => TopologySync(f[0].value, f[1].value, IdsOf(f[2]))
    case FileQueryKind =>
      FileQuery(f[0].bytes, f[1].bytes, f[2].value, f[3].value, f[4].value, TextsOf(Little, f[5]))
  }

  function Build(k: Kind, f: seq<Datum>): (m: Message)
    requires Matches(Layout(k), f)
    ensures Builds(k, f, m)
  {
    if IsSecuredKind(k) then BuildSecured(k, f) else if k == SecureKind then BuildSecure(f) else BuildPlain(k, f)
  }

  lemma FieldsAreInjective(m: Message, n: Message)
    requires KindOf(m) == KindOf(n) && Fields(m) == Fields(n)
    ensures m == n
  {
    match m
    case FileAnnounce(_, _, _, _, tags) =>
      assert Fields(m)[4] == Fields(n)[4];
      SameTexts(tags, n.tags);
    case FileQuery(_, _, _, _, _, terms) =>
      assert Fields(m)[5] == Fields(n)[5];
      SameTexts(terms, n.terms);
    case TopologySync(_, _, ids) =>
      assert Ids(ids) == Fields(m)[2] == Fields(n)[2] == Ids(n.knownPeers);
      assert forall i | 0 <= i < |ids| :: Ids(ids).items[i] == Num(ids[i]);
    case _ =>
  }

  // ----- the codec -----

  function Serialize(m: Message): Bytes {
    FieldsMatch(m);
    Write(Layout(KindOf(m)), Fields(m))
  }

  /** `None` where the readers throw. */
  function Deserialize(k: Kind, b: Bytes): Option<Message> {
    var f := Read(Layout(k), b);
    if f.None? then None else Some(Build(k, f.value))
  }

  /** The round trip, whatever bytes follow, holds exactly for the messages whose sizes fit into 32 bits. */
  lemma RoundTripsExactly(m: Message, suffix: Bytes)
    ensures Deserialize(KindOf(m), Serialize(m) + suffix) == Some(m) <==> SizesFit(m)
  {
    var k, b := KindOf(m), Serialize(m) + suffix;
    FieldsMatch(m);
    ReadsBack(Layout(k), Fields(m), suffix);
    if Read(Layout(k), b) == Some(Fields(m)) {
      FieldsAreInjective(m, Build(k, Fields(m)));
    }
  }

  lemma StrictPrefixRejected(m: Message, n: nat)
    requires SizesFit(m) && n < |Serialize(m)|
    ensures Deserialize(KindOf(m), Serialize(m)[..n]) == None
  {
    FieldsMatch(m);
    PrefixFails(Layout(KindOf(m)), Fields(m), n);
  }

  /** Neither the fields of a message nor where it ends can be mistaken. */
  lemma UniquelyReadable(m: Message, suffix: Bytes, n: Message, more: Bytes)
    requires KindOf(m) == KindOf(n) && SizesFit(m) && SizesFit(n)
    requires Serialize(m) + suffix == Serialize(n) + more
    ensures m == n && suffix == more
  {
    FieldsMatch(m);
    FieldsMatch(n);
    ReadsUniquely(Layout(KindOf(m)), Fields(m), suffix, Fields(n), more);
    FieldsAreInjective(m, n);
  }

  lemma LayoutIsExact(k: Kind)
    requires k != SecureKind
    ensures Exact(Chain(Layout(k)))
  {
    assert Exact(TextList(Big)) && Exact(TextList(Little)) && Exact(Counted(Little, Empty, LITTLE32));
    ChainIsExact(Layout(k));
  }

  /** An accepted input starts with the one encoding of the message it was read as. */
  lemma AcceptedIsCanonical(k: Kind, b: Bytes)
    requires k != SecureKind && Deserialize(k, b).Some?
    ensures var m := Deserialize(k, b).value;
      KindOf(m) == k && SizesFit(m) && Serialize(m) <= b
  {
    LayoutIsExact(k);
    ReadsWhatWasWritten(Layout(k), b);
    FieldsMatch(Deserialize(k, b).value);
  }

  // ----- the nested encryption of a secure message -----

  lemma CipherShape(nonce: Bytes12, ciphertext: Bytes, tag: Bytes16)
    ensures Chain(ENCRYPTED) == CIPHER_SHAPE
    ensures Tuple([Blob(nonce), Blob(ciphertext), Blob(tag)]) == CipherTuple(nonce, ciphertext, tag)
  {
    var f := [Blob(nonce), Blob(ciphertext), Blob(tag)];
    assert ENCRYPTED[1..] == [STRING, Raw(16)] && f[1..] == [Blob(ciphertext), Blob(tag)];
    assert [STRING, Raw(16)][1..] == [Raw(16)] && [Blob(ciphertext), Blob(tag)][1..] == [Blob(tag)];
    assert Chain([Raw(16)]) == Then(Raw(16), Empty) && Tuple([Blob(tag)]) == Pair(Blob(tag), Unit);
    assert Chain([STRING, Raw(16)]) == Then(STRING, Then(Raw(16), Empty));
  }

  /** The bytes before the nested encryption. */
  function SecureHead(kind: u8, sequence: u64): Bytes {
    PutInt(Big, 1, kind) + PutInt(Big, 8, sequence)
  }

  lemma EncryptedBytes(nonce: Bytes12, ciphertext: Bytes, tag: Bytes16)
    ensures Typed(CIPHER_SHAPE, CipherTuple(nonce, ciphertext, tag))
    ensures Serialize(Encrypted(nonce, ciphertext, tag)) == Encode(CIPHER_SHAPE, CipherTuple(nonce, ciphertext, tag))
  {
    CipherTyped(nonce, ciphertext, tag);
    CipherShape(nonce, ciphertext, tag);
    FieldsMatch(Encrypted(nonce, ciphertext, tag));
  }

  /** A span longer than the encrypted message inside it is accepted too, so the encoding is not the only one. */
  lemma SlackIsIgnored(m: Message, inner: Bytes, slack: Bytes, suffix: Bytes)
    requires m.Secure? && inner == Serialize(Encrypted(m.cipherNonce, m.ciphertext, m.tag))
    requires |inner| + |slack| < TWO_TO_THE_32
    ensures Deserialize(SecureKind, SecureHead(m.kind, m.sequence)
                                    + (PutSize(Big, |inner| + |slack|) + ((inner + slack) + suffix))) == Some(m)
  {
    EncryptedBytes(m.cipherNonce, m.ciphertext, m.tag);
    var tail := PutSize(Big, |inner| + |slack|) + ((inner + slack) + suffix);
    assert Decode(Nested(Big, CIPHER_SHAPE), tail)
           == Parsed(CipherTuple(m.cipherNonce, m.ciphertext, m.tag), suffix) by {
      SlackDecodes(m.cipherNonce, m.ciphertext, m.tag, inner, slack, suffix);
    }
    SecureReads(m, tail, suffix);
  }

  lemma SlackDecodes(nonce: Bytes12, ciphertext: Bytes, tag: Bytes16, inner: Bytes, slack: Bytes, suffix: Bytes)
    requires Typed(CIPHER_SHAPE, CipherTuple(nonce, ciphertext, tag))
    requires inner == Encode(CIPHER_SHAPE, CipherTuple(nonce, ciphertext, tag))
    requires |inner| + |slack| < TWO_TO_THE_32
    ensures Decode(Nested(Big, CIPHER_SHAPE), PutSize(Big, |inner| + |slack|) + ((inner + slack) + suffix))
            == Parsed(CipherTuple(nonce, ciphertext, tag), suffix)
  {
    CipherTyped(nonce, ciphertext, tag);
    NestedSlack(Big, CIPHER_SHAPE, CipherTuple(nonce, ciphertext, tag), inner, slack, suffix);
  }

  lemma SecureReads(m: Message, tail: Bytes, suffix: Bytes)
    requires m.Secure?
    requires Decode(Nested(Big, CIPHER_SHAPE), tail) == Parsed(CipherTuple(m.cipherNonce, m.ciphertext, m.tag), suffix)
    ensures Deserialize(SecureKind, SecureHead(m.kind, m.sequence) + tail) == Some(m)
  {
    var e := CipherTuple(m.cipherNonce, m.ciphertext, m.tag);
    SecureDecodes(m.kind, m.sequence, tail, e, suffix);
    var f := Read(Layout(SecureKind), SecureHead(m.kind, m.sequence) + tail);
    assert f.value == [Num(m.kind), Num(m.sequence), e] == Fields(m);
    FieldsAreInjective(m, Build(SecureKind, f.value));
  }

  lemma SecureChain()
    ensures Chain(Layout(SecureKind)) == Then(BIG8, Then(BIG64, Then(Nested(Big, CIPHER_SHAPE), Empty)))
  {
    var l, nested := Layout(SecureKind), Nested(Big, CIPHER_SHAPE);
    assert l[1..] == [BIG64, nested] && [BIG64, nested][1..] == [nested] && [nested][1..] == [];
    assert Chain([nested]) == Then(nested, Empty);
    assert Chain([BIG64, nested]) == Then(BIG64, Then(nested, Empty));
  }

  lemma SecureDecodes(kind: u8, sequence: u64, tail: Bytes, e: Datum, suffix: Bytes)
    requires Decode(Nested(Big, CIPHER_SHAPE), tail) == Parsed(e, suffix)
    ensures Read(Layout(SecureKind), SecureHead(kind, sequence) + tail) == Some([Num(kind), Num(sequence), e])
  {
    Powers();
    SecureChain();
    var last := Then(Nested(Big, CIPHER_SHAPE), Empty);
    assert Decode(last, tail) == Parsed(Pair(e, Unit), suffix);
    ThenDecodes(BIG64, last, Num(sequence), tail, Pair(e, Unit), suffix);
    var middle, rest := PutInt(Big, 8, sequence) + tail, Pair(Num(sequence), Pair(e, Unit));
    ThenDecodes(BIG8, Then(BIG64, last), Num(kind), middle, rest, suffix);
    assert SecureHead(kind, sequence) + tail == PutInt(Big, 1, kind) + middle;
    ThreeFields(Num(kind), Num(sequence), e);
  }

  lemma ThreeFields(x: Datum, y: Datum, z: Datum)
    ensures Untuple(Pair(x, Pair(y, Pair(z, Unit)))) == [x, y, z]
  {
    assert Untuple(Pair(z, Unit)) == [z];
    assert Untuple(Pair(y, Pair(z, Unit))) == [y, z];
  }
}
