/** What the router's records and the saved metadata are as bytes, and what the handshake signs. */
module RecordBytes {
  import opened Bounded
  import opened Endian
  import opened Messages
  import opened Records
  import opened RoutingData
  import opened Wire
  import opened WireBytes
  import F = FileResponseCodec
  import M = FileMetadataCodec
  import T = Transcripts
  import U = RouteUpdateCodec

  /** A 64-bit value as the router writes it: two words, the high one first. */
  function Words(value: nat): Bytes {
    Low(value / 0x1_0000_0000, 4) + Low(value, 4)
  }

  function InMillionths(score: real): int {
    (score * 1000000.0).Floor
  }

  // ----- route updates -----

  /** An entry: the port has its highest byte first, everything else the lowest. */
  function PeerSent(p: PeerInfo): seq<Bytes>
    requires U.Encodable(p)
  {
    U.MillionthsInRange(p.reliability);
    [Low(p.peerId, 4), SizedLow(p.ipAddress), High(p.port, 2), Words(p.lastSeen / 1_000_000), Low(p.hopCount, 1),
     Low(p.nextHop, 4), Low(InMillionths(p.reliability), 4), Words(p.bandwidth)]
  }

  function PeersSent(updates: seq<PeerInfo>): seq<Bytes>
    requires forall i | 0 <= i < |updates| :: U.Encodable(updates[i])
  {
    seq(|updates|, i requires 0 <= i < |updates| => Concat(PeerSent(updates[i])))
  }

  lemma PeerPartsSent(p: PeerInfo)
    requires U.Encodable(p)
    ensures Matches(U.PEER, U.PeerFields(p)) && Parts(U.PEER, U.PeerFields(p)) == PeerSent(p)
  {
    U.PeerFieldsMatch(p);
    AllInts();
  }

  lemma PeerIsSent(p: PeerInfo)
    requires U.Encodable(p)
    ensures Encode(Chain(U.PEER), U.PeerDatum(p)) == Concat(PeerSent(p))
  {
    PeerPartsSent(p);
    WriteIsParts(U.PEER, U.PeerFields(p));
  }

  lemma PeersAreSent(updates: seq<PeerInfo>)
    requires forall i | 0 <= i < |updates| :: U.Encodable(updates[i])
    ensures TypedItems(Chain(U.PEER), U.PeerData(updates))
    ensures EncodeItems(Chain(U.PEER), U.PeerData(updates)) == Concat(PeersSent(updates))
  {
    var items := U.PeerData(updates);
    ItemsTyped(Chain(U.PEER), items);
    forall i | 0 <= i < |items| ensures Encode(Chain(U.PEER), items[i]) == PeersSent(updates)[i] { PeerIsSent(updates[i]); }
    ItemsAreParts(Chain(U.PEER), items, PeersSent(updates));
  }

  lemma HeadIsSent(m: RouteUpdate)
    ensures Typed(U.HEAD, U.HeadDatum(m))
    ensures Encode(U.HEAD, U.HeadDatum(m)) == Words(m.sequence) + Low(m.hopCount, 1)
  {
    U.HeadTyped(m);
    IntsAreDigits(8, m.sequence);
    IntsAreDigits(1, m.hopCount);
    assert Encode(Then(U.LITTLE8, Empty), Pair(Num(m.hopCount), Unit)) == Low(m.hopCount, 1) + [];
  }

  /** An update is its sender, the number of entries, its sequence number and hop count, and the entries. */
  lemma UpdateSerializesAs(m: RouteUpdate)
    requires U.AllEncodable(m)
    ensures U.Serialize(m) == Low(m.source, 4) + (Low(Size(|m.updates|), 4)
                                 + ((Words(m.sequence) + Low(m.hopCount, 1)) + Concat(PeersSent(m.updates))))
  {
    U.UpdateFieldsMatch(m);
    WriteIsParts(U.UPDATE, U.UpdateFields(m));
    PeersAreSent(m.updates);
    HeadIsSent(m);
    IntsAreDigits(4, m.source);
    IntsAreDigits(4, Size(|m.updates|));
    var parts := Parts(U.UPDATE, U.UpdateFields(m));
    assert parts[1] == Low(Size(|m.updates|), 4) + ((Words(m.sequence) + Low(m.hopCount, 1)) + Concat(PeersSent(m.updates)));
    TwoParts(parts);
  }

  lemma TwoParts(parts: seq<Bytes>)
    requires |parts| == 2
    ensures Concat(parts) == parts[0] + parts[1]
  {
    assert parts[1..] == [parts[1]] && parts[1..][1..] == [];
    assert Concat(parts[1..]) == parts[1] + [];
  }

  lemma ThreeParts(parts: seq<Bytes>)
    requires |parts| == 3
    ensures Concat(parts) == parts[0] + (parts[1] + parts[2])
  {
    TwoParts(parts[1..]);
  }

  // ----- responses to file queries -----

  function LocationSent(l: FileLocation): seq<Bytes>
    requires F.Encodable(l)
  {
    U.MillionthsInRange(l.availability);
    [SizedLow(l.fileId), Low(l.peerId, 4), SizedLow(l.fileHash), Words(l.fileSize), Words(l.announcedAt / 1_000_000),
     Low(InMillionths(l.availability), 4)]
  }

  function LocationsSent(locations: seq<FileLocation>): seq<Bytes>
    requires forall i | 0 <= i < |locations| :: F.Encodable(locations[i])
  {
    seq(|locations|, i requires 0 <= i < |locations| => Concat(LocationSent(locations[i])))
  }

  lemma LocationPartsSent(l: FileLocation)
    requires F.Encodable(l)
    ensures Matches(F.LOCATION, F.LocationFields(l)) && Parts(F.LOCATION, F.LocationFields(l)) == LocationSent(l)
  {
    F.LocationFieldsMatch(l);
    AllInts();
  }

  lemma LocationsAreSent(locations: seq<FileLocation>)
    requires forall i | 0 <= i < |locations| :: F.Encodable(locations[i])
    ensures TypedItems(Chain(F.LOCATION), F.LocationData(locations))
    ensures EncodeItems(Chain(F.LOCATION), F.LocationData(locations)) == Concat(LocationsSent(locations))
  {
    var items := F.LocationData(locations);
    ItemsTyped(Chain(F.LOCATION), items);
    forall i | 0 <= i < |items| ensures Encode(Chain(F.LOCATION), items[i]) == LocationsSent(locations)[i] {
      LocationPartsSent(locations[i]);
      WriteIsParts(F.LOCATION, F.LocationFields(locations[i]));
    }
    ItemsAreParts(Chain(F.LOCATION), items, LocationsSent(locations));
  }

  lemma LocationsPart(m: FileQueryResponse)
    requires F.AllEncodable(m)
    ensures Matches(F.RESPONSE, F.ResponseFields(m))
    ensures Encode(F.RESPONSE[2], F.ResponseFields(m)[2])
            == Low(Size(|m.locations|), 4) + Concat(LocationsSent(m.locations))
  {
    F.ResponseFieldsMatch(m);
    LocationsAreSent(m.locations);
    IntsAreDigits(4, Size(|m.locations|));
    var items := F.LocationData(m.locations);
    assert Encode(Empty, Unit) + EncodeItems(Chain(F.LOCATION), items) == EncodeItems(Chain(F.LOCATION), items);
  }

  /** A response is the number of the query, the one who answers, and the locations. */
  lemma ResponseSerializesAs(m: FileQueryResponse)
    requires F.AllEncodable(m)
    ensures F.Serialize(m) == Low(m.queryId, 4) + (Low(m.responder, 4)
                                 + (Low(Size(|m.locations|), 4) + Concat(LocationsSent(m.locations))))
  {
    F.ResponseFieldsMatch(m);
    WriteIsParts(F.RESPONSE, F.ResponseFields(m));
    IntsAreDigits(4, m.queryId);
    IntsAreDigits(4, m.responder);
    LocationsPart(m);
    ThreeParts(Parts(F.RESPONSE, F.ResponseFields(m)));
  }

  // ----- saved metadata -----

  /** Two's complement. */
  function Bits(x: int): nat
    requires -0x8000_0000_0000_0000 <= x < 0x8000_0000_0000_0000
  {
    if x < 0 then x + 0x1_0000_0000_0000_0000 else x
  }

  function MetadataSaved(m: M.Metadata): seq<Bytes> {
    [SizedLow(m.fileId), SizedLow(m.fileHash), SizedLow(m.filename), SizedLow(m.filePath), Low(m.fileSize, 8),
     Low(Bits(m.createdAt), 8), Low(Bits(m.modifiedAt), 8),
     Low(Size(|m.chunkHashes|), 4) + Concat(AllSizedLow(m.chunkHashes)), Low(m.chunkSize, 4),
     Low(Size(|m.chunkHashes|), 4), SizedLow(m.fileType), SizedLow(m.description)]
  }

  lemma MetadataSerializesAs(m: M.Metadata)
    ensures M.Serialize(m) == Concat(MetadataSaved(m))
  {
    M.FieldsMatch(m);
    AllInts();
    TextsAreSizedLow(m.chunkHashes);
    assert Parts(M.METADATA, M.Fields(m)) == MetadataSaved(m);
    WriteIsParts(M.METADATA, M.Fields(m));
  }

  // ----- what is signed -----

  /** The context of a handshake: its tag and the four keys, the initiator's before the responder's. */
  lemma ContextSerializesAs(c: T.Context)
    ensures T.HandshakeContext(c)
            == Concat([Sized(T.Ascii("HYPERSHARE_HANDSHAKE_V1")), c.initiatorIdentity, c.responderIdentity,
                       c.initiatorEphemeral, c.responderEphemeral])
  {
    var fields := T.ContextFields(c);
    AllInts();
    assert Matches(T.CONTEXT, fields);
    assert Parts(T.CONTEXT, fields) == [Sized(T.Ascii("HYPERSHARE_HANDSHAKE_V1")), c.initiatorIdentity,
                                        c.responderIdentity, c.initiatorEphemeral, c.responderEphemeral];
    WriteIsParts(T.CONTEXT, fields);
  }

  lemma TaggedIs(tag: Bytes, m: Message)
    requires T.IsSigned(m)
    ensures T.SignatureData(tag, T.ForSignature(m)) + m.signature == Sized(tag) + Concat(Sent(m))
  {
    T.SignatureComesLast(m);
    SerializesAs(m);
    IntsAreDigits(4, Size(|tag|));
    assert T.SignatureData(tag, T.ForSignature(m)) + m.signature == Sized(tag) + (T.ForSignature(m) + m.signature);
  }

  /** What an initiator signs is, with the signature behind it, the tag behind its size and the message as it is sent. */
  lemma InitiationSigned(m: Message)
    requires T.Proper(T.Initiate(m))
    ensures T.Signed(T.Initiate(m)) + m.signature == Sized(T.Ascii("HANDSHAKE_INITIATE")) + Concat(Sent(m))
  {
    TaggedIs(T.Ascii("HANDSHAKE_INITIATE"), m);
  }

  lemma RotationSigned(m: Message)
    requires T.Proper(T.Rotate(m))
    ensures T.Signed(T.Rotate(m)) + m.signature == Sized(T.Ascii("KEY_ROTATION")) + Concat(Sent(m))
  {
    TaggedIs(T.Ascii("KEY_ROTATION"), m);
  }

  /** A responder signs its message in the same way, and the context of the handshake behind it. */
  lemma ResponseSigned(m: Message, c: T.Context)
    requires T.Proper(T.Respond(m, c))
    ensures exists data: Bytes :: T.Signed(T.Respond(m, c)) == data + T.HandshakeContext(c)
                                  && data + m.signature == Sized(T.Ascii("HANDSHAKE_RESPOND")) + Concat(Sent(m))
  {
    TaggedIs(T.Ascii("HANDSHAKE_RESPOND"), m);
    var data := T.SignatureData(T.Ascii("HANDSHAKE_RESPOND"), T.ForSignature(m));
    assert T.Signed(T.Respond(m, c)) == data + T.HandshakeContext(c);
  }
}
