/** What the messages are on the wire, byte by byte: every integer in its digits, every string behind its size. */
module WireBytes {
  import opened Bounded
  import opened Endian
  import opened Messages
  import opened Records
  import opened Wire

  function Size(size: nat): nat {
    size % 0x1_0000_0000
  }

  /** A string with its size in front, highest byte first. */
  function Sized(text: Bytes): Bytes {
    High(Size(|text|), 4) + text
  }

  /** The same with the lowest byte first, as the router writes it. */
  function SizedLow(text: Bytes): Bytes {
    Low(Size(|text|), 4) + text
  }

  function AllSized(texts: seq<Bytes>): seq<Bytes> {
    seq(|texts|, i requires 0 <= i < |texts| => Sized(texts[i]))
  }

  function AllSizedLow(texts: seq<Bytes>): seq<Bytes> {
    seq(|texts|, i requires 0 <= i < |texts| => SizedLow(texts[i]))
  }

  function AllLow(ids: seq<u32>): seq<Bytes> {
    seq(|ids|, i requires 0 <= i < |ids| => Low(ids[i], 4))
  }

  /** What is pushed for each message, in order. */
  function Sent(m: Message): seq<Bytes> {
    match m
    case Header(magic, version, kind, flags, id, size, timestamp, checksum) =>
      [High(magic, 4), High(version, 2), High(kind, 1), High(flags, 1), High(id, 8), High(size, 4), High(timestamp, 8),
       checksum]
    case Handshake(peer, port, name, capabilities) => [High(peer, 4), High(port, 2), Sized(name), High(capabilities, 4)]
    case Heartbeat(timestamp, active, files) => [High(timestamp, 8), High(active, 4), High(files, 4)]
    case PeerAnnounce(peer, ip, port, seen) => [High(peer, 4), Sized(ip), High(port, 2), High(seen, 8)]
    case FileAnnounce(id, name, size, hash, tags) =>
      [Sized(id), Sized(name), High(size, 8), Sized(hash), High(Size(|tags|), 4) + Concat(AllSized(tags))]
    case ChunkRequest(id, index, size) => [Sized(id), High(index, 8), High(size, 4)]
    case ChunkData(id, index, data, hash) => [Sized(id), High(index, 8), Sized(data), Sized(hash)]
    case ErrorResponse(code, text, request) => [High(code, 4), Sized(text), High(request, 8)]
    case SecureHandshake(peer, port, name, capabilities, identity, ephemeral, nonce, signature) =>
      [High(peer, 4), High(port, 2), Sized(name), High(capabilities, 4), identity, ephemeral, High(nonce, 8), signature]
    case SecureHandshakeAck(peer, ephemeral, nonce, response, signature) =>
      [High(peer, 4), ephemeral, High(nonce, 8), High(response, 8), signature]
    case KeyRotation(id, ephemeral, nonce, timestamp, signature) =>
      [High(id, 8), ephemeral, High(nonce, 8), High(timestamp, 8), signature]
    case Encrypted(nonce, ciphertext, tag) => [nonce, Sized(ciphertext), tag]
    case Secure(kind, sequence, nonce, ciphertext, tag) =>
      [High(kind, 1), High(sequence, 8), Sized(nonce + (Sized(ciphertext) + tag))]
    case TopologySync(peer, sequence, ids) =>
      [Low(peer, 4), Low(sequence / 0x1_0000_0000, 4) + Low(sequence, 4), Low(Size(|ids|), 4) + Concat(AllLow(ids))]
    case FileQuery(id, hash, source, query, hops, terms) =>
      [SizedLow(id), SizedLow(hash), Low(source, 4), Low(query, 4), Low(hops, 1),
       Low(Size(|terms|), 4) + Concat(AllSizedLow(terms))]
  }

  lemma AllInts()
    ensures forall width: nat, value: nat {:trigger PutInt(Big, width, value)} ::
              PutInt(Big, width, value) == High(value, width)
    ensures forall width: nat, value: nat {:trigger PutInt(Little, width, value)} ::
              PutInt(Little, width, value) == Low(value, width)
    ensures forall value: nat {:trigger PutInt(HighWordFirst, 8, value)} ::
              PutInt(HighWordFirst, 8, value) == Low(value / 0x1_0000_0000, 4) + Low(value, 4)
  {
    forall width: nat, value: nat ensures PutInt(Big, width, value) == High(value, width) {
      IntsAreDigits(width, value);
    }
    forall width: nat, value: nat ensures PutInt(Little, width, value) == Low(value, width) {
      IntsAreDigits(width, value);
    }
    forall value: nat ensures PutInt(HighWordFirst, 8, value) == Low(value / 0x1_0000_0000, 4) + Low(value, 4) {
      IntsAreDigits(8, value);
    }
  }

  lemma TextsAreSized(texts: seq<Bytes>)
    ensures Typed(TextList(Big), Texts(texts))
    ensures Encode(TextList(Big), Texts(texts)) == High(Size(|texts|), 4) + Concat(AllSized(texts))
  {
    TextsTyped(Big, texts);
    var items := Texts(texts).items;
    ItemsTyped(Text(Big), items);
    forall i | 0 <= i < |items| ensures Encode(Text(Big), items[i]) == AllSized(texts)[i] {
      IntsAreDigits(4, Size(|texts[i]|));
    }
    ItemsAreParts(Text(Big), items, AllSized(texts));
    IntsAreDigits(4, Size(|texts|));
  }

  lemma TextsAreSizedLow(texts: seq<Bytes>)
    ensures Typed(TextList(Little), Texts(texts))
    ensures Encode(TextList(Little), Texts(texts)) == Low(Size(|texts|), 4) + Concat(AllSizedLow(texts))
  {
    TextsTyped(Little, texts);
    var items := Texts(texts).items;
    ItemsTyped(Text(Little), items);
    forall i | 0 <= i < |items| ensures Encode(Text(Little), items[i]) == AllSizedLow(texts)[i] {
      IntsAreDigits(4, Size(|texts[i]|));
    }
    ItemsAreParts(Text(Little), items, AllSizedLow(texts));
    IntsAreDigits(4, Size(|texts|));
  }

  lemma IdsAreLow(ids: seq<u32>)
    ensures Typed(Counted(Little, Empty, LITTLE32), Ids(ids))
    ensures Encode(Counted(Little, Empty, LITTLE32), Ids(ids)) == Low(Size(|ids|), 4) + Concat(AllLow(ids))
  {
    AllInts();
    IdsTyped(ids);
    var items := Ids(ids).items;
    ItemsTyped(LITTLE32, items);
    ItemsAreParts(LITTLE32, items, AllLow(ids));
  }

  ghost predicate PartsAreSent(m: Message) {
    Matches(Layout(KindOf(m)), Fields(m)) && Parts(Layout(KindOf(m)), Fields(m)) == Sent(m)
  }

  lemma PeerIsSent(m: Message)
    requires m.Header? || m.Handshake? || m.Heartbeat? || m.PeerAnnounce?
    ensures PartsAreSent(m)
  {
    FieldsMatch(m);
    AllInts();
  }

  lemma ChunkIsSent(m: Message)
    requires m.ChunkRequest? || m.ChunkData? || m.ErrorResponse? || m.Encrypted?
    ensures PartsAreSent(m)
  {
    FieldsMatch(m);
    AllInts();
  }

  lemma HandshakeIsSent(m: Message)
    requires m.SecureHandshake?
    ensures PartsAreSent(m)
  {
    FieldsMatch(m);
    AllInts();
  }

  lemma SignedIsSent(m: Message)
    requires m.SecureHandshakeAck? || m.KeyRotation?
    ensures PartsAreSent(m)
  {
    FieldsMatch(m);
    AllInts();
  }

  lemma NestedIsSent(m: Message)
    requires m.Secure?
    ensures PartsAreSent(m)
  {
    FieldsMatch(m);
    AllInts();
    CipherBytes(m.cipherNonce, m.ciphertext, m.tag);
  }

  lemma CipherBytes(nonce: Bytes12, ciphertext: Bytes, tag: Bytes16)
    ensures Typed(CIPHER_SHAPE, CipherTuple(nonce, ciphertext, tag))
    ensures Encode(CIPHER_SHAPE, CipherTuple(nonce, ciphertext, tag)) == nonce + (Sized(ciphertext) + tag)
  {
    CipherTyped(nonce, ciphertext, tag);
    AllInts();
    var last, lastDatum := Then(Raw(16), Empty), Pair(Blob(tag), Unit);
    assert Encode(last, lastDatum) == tag + [] == tag;
    assert Encode(Then(STRING, last), Pair(Blob(ciphertext), lastDatum)) == Sized(ciphertext) + tag;
  }

  lemma AnnouncementIsSent(m: Message)
    requires m.FileAnnounce?
    ensures PartsAreSent(m)
  {
    FieldsMatch(m);
    AllInts();
    TextsAreSized(m.tags);
  }

  lemma SyncIsSent(m: Message)
    requires m.TopologySync?
    ensures PartsAreSent(m)
  {
    FieldsMatch(m);
    AllInts();
    IdsAreLow(m.knownPeers);
  }

  lemma QueryIsSent(m: Message)
    requires m.FileQuery?
    ensures PartsAreSent(m)
  {
    FieldsMatch(m);
    AllInts();
    TextsAreSizedLow(m.terms);
  }

  lemma EachIsSent(m: Message)
    ensures PartsAreSent(m)
  {
    match KindOf(m)
    case FileAnnounceKind => AnnouncementIsSent(m);
    case TopologySyncKind => SyncIsSent(m);
    case FileQueryKind => QueryIsSent(m);
    case SecureKind => NestedIsSent(m);
    case SecureHandshakeKind => HandshakeIsSent(m);
    case SecureHandshakeAckKind => SignedIsSent(m);
    case KeyRotationKind => SignedIsSent(m);
    case EncryptedKind => ChunkIsSent(m);
    case ChunkRequestKind => ChunkIsSent(m);
    case ChunkDataKind => ChunkIsSent(m);
    case ErrorKind => ChunkIsSent(m);
    case _ => PeerIsSent(m);
  }

  /** Every message goes out as its fields in order, in the digits of its byte order. */
  lemma SerializesAs(m: Message)
    ensures Serialize(m) == Concat(Sent(m))
  {
    EachIsSent(m);
    WriteIsParts(Layout(KindOf(m)), Fields(m));
  }
}
