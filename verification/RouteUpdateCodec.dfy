/** The route update on the wire: time stamps are cut to milliseconds and reliabilities to millionths. */
module RouteUpdateCodec {
  import opened Bounded
  import opened Endian
  import opened Wire
  import opened Records
  import opened RoutingData

  const NANOS_PER_MILLI := 1_000_000
  const LITTLE8 := UInt(1, Little)
  const PEER: seq<Shape> := [LITTLE32, Text(Little), UInt(2, Big), WORDS64, LITTLE8, LITTLE32, LITTLE32, WORDS64]
  const HEAD := Then(WORDS64, Then(LITTLE8, Empty))
  const UPDATE: seq<Shape> := [LITTLE32, Counted(Little, HEAD, Chain(PEER))]

  /** The time stamp is one the steady clock can show, and the conversion of the reliability is defined. */
  predicate Encodable(p: PeerInfo) {
    p.lastSeen < 0x8000_0000_0000_0000 && 0.0 <= p.reliability < 4294.967296
  }

  predicate AllEncodable(m: RouteUpdate) {
    forall i | 0 <= i < |m.updates| :: Encodable(m.updates[i])
  }

  predicate SizesFit(m: RouteUpdate) {
    |m.updates| < TWO_TO_THE_32 && forall i | 0 <= i < |m.updates| :: Short(m.updates[i].ipAddress)
  }

  function Millis(nanos: nat): nat {
    nanos / NANOS_PER_MILLI
  }

  function Millionths(score: real): int {
    (score * 1000000.0).Floor
  }

  function Score(millionths: nat): real {
    millionths as real / 1000000.0
  }

  lemma MillionthsOfScore(n: nat)
    ensures Millionths(Score(n)) == n
  {
    assert Score(n) * 1000000.0 == n as real;
  }

  lemma MillionthsInRange(score: real)
    requires 0.0 <= score < 4294.967296
    ensures 0 <= Millionths(score) < TWO_TO_THE_32
    ensures Score(Millionths(score)) <= score < Score(Millionths(score)) + 0.000001
  {
    var x := score * 1000000.0;
    assert 0.0 <= x < 4294967296.0;
    assert x.Floor as real <= x < x.Floor as real + 1.0;
    assert Score(Millionths(score)) * 1000000.0 == x.Floor as real;
  }

  /** The entry as the receiver sees it. */
  function Quantised(p: PeerInfo): PeerInfo
    requires Encodable(p)
  {
    MillionthsInRange(p.reliability);
    p.(lastSeen := Millis(p.lastSeen) * NANOS_PER_MILLI, reliability := Score(Millionths(p.reliability)))
  }

  function QuantisedUpdate(m: RouteUpdate): RouteUpdate
    requires AllEncodable(m)
  {
    m.(updates := seq(|m.updates|, i requires 0 <= i < |m.updates| => Quantised(m.updates[i])))
  }

  /** Less than a millisecond and less than a millionth are lost, and nothing else changes. */
  lemma QuantisationLoss(p: PeerInfo)
    requires Encodable(p)
    ensures Encodable(Quantised(p))
    ensures Quantised(p).lastSeen <= p.lastSeen < Quantised(p).lastSeen + NANOS_PER_MILLI
    ensures Quantised(p).reliability <= p.reliability < Quantised(p).reliability + 0.000001
    ensures Quantised(p).(lastSeen := p.lastSeen, reliability := p.reliability) == p
    ensures Quantised(Quantised(p)) == Quantised(p)
  {
    MillionthsInRange(p.reliability);
    MillionthsOfScore(Millionths(p.reliability));
  }

  // ----- one entry -----

  function PeerFields(p: PeerInfo): seq<Datum>
    requires Encodable(p)
  {
    MillionthsInRange(p.reliability);
    [Num(p.peerId), Blob(p.ipAddress), Num(p.port), Num(Millis(p.lastSeen)), Num(p.hopCount), Num(p.nextHop),
     Num(Millionths(p.reliability)), Num(p.bandwidth)]
  }

  lemma PeerFieldsMatch(p: PeerInfo)
    requires Encodable(p)
    ensures Matches(PEER, PeerFields(p))
    ensures AllFit(PEER, PeerFields(p)) <==> Short(p.ipAddress)
  {
    Powers();
    MillionthsInRange(p.reliability);
    var f := PeerFields(p);
    assert Typed(PEER[0], f[0]) && Typed(PEER[1], f[1]) && Typed(PEER[2], f[2]) && Typed(PEER[3], f[3]);
    assert Typed(PEER[4], f[4]) && Typed(PEER[5], f[5]) && Typed(PEER[6], f[6]) && Typed(PEER[7], f[7]);
    assert Fits(PEER[1], f[1]) <==> Short(p.ipAddress);
  }

  function PeerOf(f: seq<Datum>): (p: PeerInfo)
    requires Matches(PEER, f)
  {
    Powers();
    PeerInfo(f[0].value, f[1].bytes, f[2].value, f[3].value * NANOS_PER_MILLI, f[4].value, f[5].value,
             Score(f[6].value), f[7].value)
  }

  lemma PeerOfFields(p: PeerInfo)
    requires Encodable(p)
    ensures Matches(PEER, PeerFields(p)) && PeerOf(PeerFields(p)) == Quantised(p)
    ensures Encodable(Quantised(p)) && PeerFields(Quantised(p)) == PeerFields(p)
  {
    PeerFieldsMatch(p);
    QuantisationLoss(p);
    MillionthsInRange(p.reliability);
    MillionthsOfScore(Millionths(p.reliability));
  }

  function PeerDatum(p: PeerInfo): (d: Datum)
    requires Encodable(p)
    ensures Typed(Chain(PEER), d)
    ensures Fits(Chain(PEER), d) <==> Short(p.ipAddress)
  {
    PeerFieldsMatch(p);
    TupleMatches(PEER, PeerFields(p));
    Tuple(PeerFields(p))
  }

  function PeerOfDatum(d: Datum): PeerInfo
    requires Typed(Chain(PEER), d)
  {
    UntupleMatches(PEER, d);
    PeerOf(Untuple(d))
  }

  lemma PeerRoundTrip(p: PeerInfo)
    requires Encodable(p)
    ensures PeerOfDatum(PeerDatum(p)) == Quantised(p)
    ensures Encodable(Quantised(p)) && PeerDatum(Quantised(p)) == PeerDatum(p)
  {
    PeerOfFields(p);
    TupleMatches(PEER, PeerFields(p));
  }

  // ----- the whole message -----

  function HeadDatum(m: RouteUpdate): Datum {
    Pair(Num(m.sequence), Pair(Num(m.hopCount), Unit))
  }

  function PeerData(updates: seq<PeerInfo>): seq<Datum>
    requires forall i | 0 <= i < |updates| :: Encodable(updates[i])
  {
    seq(|updates|, i requires 0 <= i < |updates| => PeerDatum(updates[i]))
  }

  function UpdateFields(m: RouteUpdate): seq<Datum>
    requires AllEncodable(m)
  {
    [Num(m.source), List(HeadDatum(m), PeerData(m.updates))]
  }

  lemma HeadTyped(m: RouteUpdate)
    ensures Typed(HEAD, HeadDatum(m)) && Fits(HEAD, HeadDatum(m))
  {
    Powers();
    assert Typed(Then(LITTLE8, Empty), Pair(Num(m.hopCount), Unit));
  }

  lemma UpdateFieldsMatch(m: RouteUpdate)
    requires AllEncodable(m)
    ensures Matches(UPDATE, UpdateFields(m))
    ensures AllFit(UPDATE, UpdateFields(m)) <==> SizesFit(m)
  {
    Powers();
    HeadTyped(m);
    var items := PeerData(m.updates);
    ItemsTyped(Chain(PEER), items);
    ItemsFit(Chain(PEER), items);
    var f := UpdateFields(m);
    assert Typed(UPDATE[0], f[0]) && Typed(UPDATE[1], f[1]);
    assert Fits(UPDATE[0], f[0]);
    assert Fits(UPDATE[1], f[1]) <==> |items| < TWO_TO_THE_32 && FitsItems(Chain(PEER), items);
    assert forall i | 0 <= i < |items| :: items[i] == PeerDatum(m.updates[i]);
  }

  function UpdateOf(f: seq<Datum>): RouteUpdate
    requires Matches(UPDATE, f)
  {
    Powers();
    assert Typed(UPDATE[0], f[0]) && Typed(UPDATE[1], f[1]);
    var head, items := f[1].header, f[1].items;
    assert Typed(HEAD, head);
    assert Typed(Then(LITTLE8, Empty), head.snd);
    ItemsTyped(Chain(PEER), items);
    RouteUpdate(f[0].value, seq(|items|, i requires 0 <= i < |items| => PeerOfDatum(items[i])),
                head.fst.value, head.snd.fst.value)
  }

  lemma UpdateOfFields(m: RouteUpdate)
    requires AllEncodable(m)
    ensures Matches(UPDATE, UpdateFields(m)) && UpdateOf(UpdateFields(m)) == QuantisedUpdate(m)
    ensures AllEncodable(QuantisedUpdate(m)) && UpdateFields(QuantisedUpdate(m)) == UpdateFields(m)
  {
    UpdateFieldsMatch(m);
    var n, q := |m.updates|, QuantisedUpdate(m);
    forall i | 0 <= i < n
      ensures PeerOfDatum(PeerDatum(m.updates[i])) == Quantised(m.updates[i])
      ensures Encodable(q.updates[i]) && PeerDatum(q.updates[i]) == PeerDatum(m.updates[i])
    {
      PeerRoundTrip(m.updates[i]);
    }
    assert UpdateOf(UpdateFields(m)).updates == q.updates;
    assert PeerData(q.updates) == PeerData(m.updates);
  }

  function Serialize(m: RouteUpdate): Bytes
    requires AllEncodable(m)
  {
    UpdateFieldsMatch(m);
    Write(UPDATE, UpdateFields(m))
  }

  function Deserialize(b: Bytes): Option<RouteUpdate> {
    var f := Read(UPDATE, b);
    if f.None? then None else Some(UpdateOf(f.value))
  }

  /** The receiver gets the quantised message, whatever bytes follow, and sending it on changes nothing more. */
  lemma RoundTripQuantises(m: RouteUpdate, suffix: Bytes)
    requires AllEncodable(m) && SizesFit(m)
    ensures Deserialize(Serialize(m) + suffix) == Some(QuantisedUpdate(m))
    ensures AllEncodable(QuantisedUpdate(m)) && Serialize(QuantisedUpdate(m)) == Serialize(m)
  {
    UpdateFieldsMatch(m);
    UpdateOfFields(m);
    ReadsBack(UPDATE, UpdateFields(m), suffix);
  }

  /** Two updates look the same on the wire exactly when their receivers see the same. */
  lemma SameBytesExactlyWhenSameQuantised(m: RouteUpdate, n: RouteUpdate)
    requires AllEncodable(m) && SizesFit(m) && AllEncodable(n) && SizesFit(n)
    ensures Serialize(m) == Serialize(n) <==> QuantisedUpdate(m) == QuantisedUpdate(n)
  {
    RoundTripQuantises(m, []);
    RoundTripQuantises(n, []);
    assert Serialize(m) + [] == Serialize(m) && Serialize(n) + [] == Serialize(n);
  }

  lemma StrictPrefixRejected(m: RouteUpdate, n: nat)
    requires AllEncodable(m) && SizesFit(m) && n < |Serialize(m)|
    ensures Deserialize(Serialize(m)[..n]) == None
  {
    UpdateFieldsMatch(m);
    PrefixFails(UPDATE, UpdateFields(m), n);
  }
}
