/** The response to a file query on the wire, quantised like the route update. */
module FileResponseCodec {
  import opened Bounded
  import opened Endian
  import opened Wire
  import opened Records
  import opened RoutingData
  import R = RouteUpdateCodec

  const LOCATION: seq<Shape> := [Text(Little), LITTLE32, Text(Little), WORDS64, WORDS64, LITTLE32]
  const RESPONSE: seq<Shape> := [LITTLE32, LITTLE32, Counted(Little, Empty, Chain(LOCATION))]

  predicate Encodable(l: FileLocation) {
    l.announcedAt < 0x8000_0000_0000_0000 && 0.0 <= l.availability < 4294.967296
  }

  predicate AllEncodable(m: FileQueryResponse) {
    forall i | 0 <= i < |m.locations| :: Encodable(m.locations[i])
  }

  predicate LocationFits(l: FileLocation) {
    Short(l.fileId) && Short(l.fileHash)
  }

  predicate SizesFit(m: FileQueryResponse) {
    |m.locations| < TWO_TO_THE_32 && forall i | 0 <= i < |m.locations| :: LocationFits(m.locations[i])
  }

  /** The location as the receiver sees it. */
  function Quantised(l: FileLocation): FileLocation
    requires Encodable(l)
  {
    R.MillionthsInRange(l.availability);
    l.(announcedAt := R.Millis(l.announcedAt) * R.NANOS_PER_MILLI, availability := R.Score(R.Millionths(l.availability)))
  }

  function QuantisedResponse(m: FileQueryResponse): FileQueryResponse
    requires AllEncodable(m)
  {
    m.(locations := seq(|m.locations|, i requires 0 <= i < |m.locations| => Quantised(m.locations[i])))
  }

  function LocationFields(l: FileLocation): seq<Datum>
    requires Encodable(l)
  {
    R.MillionthsInRange(l.availability);
    [Blob(l.fileId), Num(l.peerId), Blob(l.fileHash), Num(l.fileSize), Num(R.Millis(l.announcedAt)),
     Num(R.Millionths(l.availability))]
  }

  lemma LocationFieldsMatch(l: FileLocation)
    requires Encodable(l)
    ensures Matches(LOCATION, LocationFields(l))
    ensures AllFit(LOCATION, LocationFields(l)) <==> LocationFits(l)
  {
    Powers();
    R.MillionthsInRange(l.availability);
    var f := LocationFields(l);
    assert Typed(LOCATION[0], f[0]) && Typed(LOCATION[1], f[1]) && Typed(LOCATION[2], f[2]);
    assert Typed(LOCATION[3], f[3]) && Typed(LOCATION[4], f[4]) && Typed(LOCATION[5], f[5]);
    assert (Fits(LOCATION[0], f[0]) <==> Short(l.fileId)) && (Fits(LOCATION[2], f[2]) <==> Short(l.fileHash));
  }

  function LocationOf(f: seq<Datum>): FileLocation
    requires Matches(LOCATION, f)
  {
    Powers();
    FileLocation(f[0].bytes, f[1].value, f[2].bytes, f[3].value, f[4].value * R.NANOS_PER_MILLI, R.Score(f[5].value))
  }

  lemma LocationRoundTrip(l: FileLocation)
    requires Encodable(l)
    ensures Matches(LOCATION, LocationFields(l)) && LocationOf(LocationFields(l)) == Quantised(l)
    ensures Encodable(Quantised(l)) && LocationFields(Quantised(l)) == LocationFields(l)
  {
    LocationFieldsMatch(l);
    R.MillionthsInRange(l.availability);
    R.MillionthsOfScore(R.Millionths(l.availability));
  }

  function LocationDatum(l: FileLocation): (d: Datum)
    requires Encodable(l)
    ensures Typed(Chain(LOCATION), d)
    ensures Fits(Chain(LOCATION), d) <==> LocationFits(l)
  {
    LocationFieldsMatch(l);
    TupleMatches(LOCATION, LocationFields(l));
    Tuple(LocationFields(l))
  }

  function LocationOfDatum(d: Datum): FileLocation
    requires Typed(Chain(LOCATION), d)
  {
    UntupleMatches(LOCATION, d);
    LocationOf(Untuple(d))
  }

  lemma LocationDatumRoundTrip(l: FileLocation)
    requires Encodable(l)
    ensures LocationOfDatum(LocationDatum(l)) == Quantised(l)
    ensures Encodable(Quantised(l)) && LocationDatum(Quantised(l)) == LocationDatum(l)
  {
    LocationRoundTrip(l);
    TupleMatches(LOCATION, LocationFields(l));
  }

  function LocationData(locations: seq<FileLocation>): seq<Datum>
    requires forall i | 0 <= i < |locations| :: Encodable(locations[i])
  {
    seq(|locations|, i requires 0 <= i < |locations| => LocationDatum(locations[i]))
  }

  function ResponseFields(m: FileQueryResponse): seq<Datum>
    requires AllEncodable(m)
  {
    [Num(m.queryId), Num(m.responder), List(Unit, LocationData(m.locations))]
  }

  lemma ResponseFieldsMatch(m: FileQueryResponse)
    requires AllEncodable(m)
    ensures Matches(RESPONSE, ResponseFields(m))
    ensures AllFit(RESPONSE, ResponseFields(m)) <==> SizesFit(m)
  {
    Powers();
    var items, f := LocationData(m.locations), ResponseFields(m);
    ItemsTyped(Chain(LOCATION), items);
    ItemsFit(Chain(LOCATION), items);
    assert Typed(RESPONSE[0], f[0]) && Typed(RESPONSE[1], f[1]) && Typed(RESPONSE[2], f[2]);
    assert Fits(RESPONSE[0], f[0]) && Fits(RESPONSE[1], f[1]);
    assert Fits(RESPONSE[2], f[2]) <==> |items| < TWO_TO_THE_32 && FitsItems(Chain(LOCATION), items);
    assert forall i | 0 <= i < |items| :: items[i] == LocationDatum(m.locations[i]);
  }

  function ResponseOf(f: seq<Datum>): FileQueryResponse
    requires Matches(RESPONSE, f)
  {
    Powers();
    assert Typed(RESPONSE[0], f[0]) && Typed(RESPONSE[1], f[1]) && Typed(RESPONSE[2], f[2]);
    var items := f[2].items;
    ItemsTyped(Chain(LOCATION), items);
    FileQueryResponse(f[0].value, f[1].value,
                      seq(|items|, i requires 0 <= i < |items| => LocationOfDatum(items[i])))
  }

  lemma ResponseOfFields(m: FileQueryResponse)
    requires AllEncodable(m)
    ensures Matches(RESPONSE, ResponseFields(m)) && ResponseOf(ResponseFields(m)) == QuantisedResponse(m)
    ensures AllEncodable(QuantisedResponse(m)) && ResponseFields(QuantisedResponse(m)) == ResponseFields(m)
  {
    ResponseFieldsMatch(m);
    var n, q := |m.locations|, QuantisedResponse(m);
    forall i | 0 <= i < n
      ensures LocationOfDatum(LocationDatum(m.locations[i])) == Quantised(m.locations[i])
      ensures Encodable(q.locations[i]) && LocationDatum(q.locations[i]) == LocationDatum(m.locations[i])
    {
      LocationDatumRoundTrip(m.locations[i]);
    }
    assert ResponseOf(ResponseFields(m)).locations == q.locations;
    assert LocationData(q.locations) == LocationData(m.locations);
  }

  function Serialize(m: FileQueryResponse): Bytes
    requires AllEncodable(m)
  {
    ResponseFieldsMatch(m);
    Write(RESPONSE, ResponseFields(m))
  }

  function Deserialize(b: Bytes): Option<FileQueryResponse> {
    var f := Read(RESPONSE, b);
    if f.None? then None else Some(ResponseOf(f.value))
  }

  /** The receiver gets the quantised response, whatever bytes follow, and sending it on changes nothing more. */
  lemma RoundTripQuantises(m: FileQueryResponse, suffix: Bytes)
    requires AllEncodable(m) && SizesFit(m)
    ensures Deserialize(Serialize(m) + suffix) == Some(QuantisedResponse(m))
    ensures AllEncodable(QuantisedResponse(m)) && Serialize(QuantisedResponse(m)) == Serialize(m)
  {
    ResponseFieldsMatch(m);
    ResponseOfFields(m);
    ReadsBack(RESPONSE, ResponseFields(m), suffix);
  }

  lemma StrictPrefixRejected(m: FileQueryResponse, n: nat)
    requires AllEncodable(m) && SizesFit(m) && n < |Serialize(m)|
    ensures Deserialize(Serialize(m)[..n]) == None
  {
    ResponseFieldsMatch(m);
    PrefixFails(RESPONSE, ResponseFields(m), n);
  }
}
