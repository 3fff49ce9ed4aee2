/** `RouteUpdateMessage::serialize` and `deserialize` as loops over a buffer, proved against the codec. */
module RouteUpdateBuffer {
  import opened Bounded
  import opened ByteBuffer
  import opened Endian
  import opened Records
  import opened RouteUpdateCodec
  import opened RoutingData
  import opened Wire

  /** `data` lacks just the fields from `i` on to be `total`. */
  ghost predicate ToWrite(layout: seq<Shape>, fields: seq<Datum>, i: nat, data: Bytes, total: Bytes) {
    && |layout| == |fields| && i <= |fields|
    && Matches(layout[i..], fields[i..]) && data + Write(layout[i..], fields[i..]) == total
  }

  lemma FieldWritten(layout: seq<Shape>, fields: seq<Datum>, i: nat, before: Bytes, after: Bytes, total: Bytes)
    requires Matches(layout, fields) && i < |fields| && ToWrite(layout, fields, i, before, total)
    requires after == before + Encode(layout[i], fields[i])
    ensures ToWrite(layout, fields, i + 1, after, total)
  {
    WriteStep(layout, fields, i);
    assert before + (Encode(layout[i], fields[i]) + Write(layout[i + 1..], fields[i + 1..]))
           == before + Encode(layout[i], fields[i]) + Write(layout[i + 1..], fields[i + 1..]);
  }

  lemma ToWriteAll(layout: seq<Shape>, fields: seq<Datum>, data: Bytes, total: Bytes)
    requires Matches(layout, fields) && data + Write(layout, fields) == total
    ensures ToWrite(layout, fields, 0, data, total)
  {
    assert layout[0..] == layout && fields[0..] == fields;
  }

  lemma NothingToWrite(layout: seq<Shape>, fields: seq<Datum>, data: Bytes, total: Bytes)
    requires ToWrite(layout, fields, |fields|, data, total)
    ensures data == total
  {
    assert layout[|fields|..] == [] && fields[|fields|..] == [];
    assert Write([], []) == [];
  }

  /** The same for the items of a list. */
  ghost predicate ItemsToWrite(s: Shape, items: seq<Datum>, i: nat, data: Bytes, total: Bytes) {
    && i <= |items|
    && TypedItems(s, items[i..]) && data + EncodeItems(s, items[i..]) == total
  }

  lemma ItemWritten(s: Shape, items: seq<Datum>, i: nat, before: Bytes, after: Bytes, total: Bytes)
    requires i < |items| && ItemsToWrite(s, items, i, before, total)
    requires Typed(s, items[i]) && after == before + Encode(s, items[i])
    ensures ItemsToWrite(s, items, i + 1, after, total)
  {
    assert items[i..][1..] == items[i + 1..] && items[i..][0] == items[i];
    assert before + (Encode(s, items[i]) + EncodeItems(s, items[i + 1..]))
           == before + Encode(s, items[i]) + EncodeItems(s, items[i + 1..]);
  }

  lemma PeerBytes(p: PeerInfo)
    requires Encodable(p)
    ensures var f := PeerFields(p);
      && Matches(PEER, f)
      && Encode(PEER[0], f[0]) == PutInt(Little, 4, p.peerId)
      && Encode(PEER[1], f[1]) == PutSize(Little, |p.ipAddress|) + p.ipAddress
      && Encode(PEER[2], f[2]) == PutInt(Big, 2, p.port)
      && Encode(PEER[3], f[3]) == PutInt(HighWordFirst, 8, Millis(p.lastSeen))
      && Encode(PEER[4], f[4]) == [p.hopCount]
      && Encode(PEER[5], f[5]) == PutInt(Little, 4, p.nextHop)
      && Encode(PEER[6], f[6]) == PutInt(Little, 4, Millionths(p.reliability))
      && Encode(PEER[7], f[7]) == PutInt(HighWordFirst, 8, p.bandwidth)
  {
    PeerFieldsMatch(p);
    OneByte(p.hopCount);
  }

  method WritePeer(w: Writer, p: PeerInfo)
    requires Encodable(p)
    modifies w
    ensures w.data == old(w.data) + Encode(Chain(PEER), PeerDatum(p))
  {
    ghost var f, before := PeerFields(p), w.data;
    PeerBytes(p);
    ghost var total := w.data + Write(PEER, f);
    ToWriteAll(PEER, f, before, total);
    w.WriteUint32(p.peerId);
    FieldWritten(PEER, f, 0, before, w.data, total);
    before := w.data;
    w.WriteString(p.ipAddress);
    FieldWritten(PEER, f, 1, before, w.data, total);
    before := w.data;
    w.WritePort(p.port);
    FieldWritten(PEER, f, 2, before, w.data, total);
    before := w.data;
    var millis := Millis(p.lastSeen);
    w.WriteUint64(millis);
    FieldWritten(PEER, f, 3, before, w.data, total);
    before := w.data;
    w.WriteByte(p.hopCount);
    FieldWritten(PEER, f, 4, before, w.data, total);
    before := w.data;
    w.WriteUint32(p.nextHop);
    FieldWritten(PEER, f, 5, before, w.data, total);
    before := w.data;
    MillionthsInRange(p.reliability);
    w.WriteUint32(Millionths(p.reliability));
    FieldWritten(PEER, f, 6, before, w.data, total);
    before := w.data;
    w.WriteUint64(p.bandwidth);
    FieldWritten(PEER, f, 7, before, w.data, total);
    NothingToWrite(PEER, f, w.data, total);
  }

  lemma OneByte(value: u8)
    ensures PutInt(Little, 1, value) == [value]
  {
    assert LittleBytes(value / 0x100, 0) == [];
  }

  method SerializeUpdate(m: RouteUpdate) returns (data: Bytes)
    requires AllEncodable(m)
    ensures data == Serialize(m)
  {
    ghost var items, total := PeerData(m.updates), Serialize(m);
    UpdateLayout(m);
    var w := new Writer();
    w.WriteUint32(m.source);
    w.WriteUint32(|m.updates| % TWO_TO_THE_32);
    w.WriteUint64(m.sequence);
    w.WriteByte(m.hopCount);
    assert ItemsToWrite(Chain(PEER), items, 0, w.data, total) by {
      assert items[0..] == items;
    }
    for i := 0 to |m.updates|
      invariant fresh(w)
      invariant ItemsToWrite(Chain(PEER), items, i, w.data, total)
    {
      ghost var before := w.data;
      WritePeer(w, m.updates[i]);
      ItemWritten(Chain(PEER), items, i, before, w.data, total);
    }
    assert items[|m.updates|..] == [];
    data := w.data;
  }

  /** The bytes in the order in which the program pushes them. */
  lemma UpdateLayout(m: RouteUpdate)
    requires AllEncodable(m)
    ensures TypedItems(Chain(PEER), PeerData(m.updates))
    ensures Serialize(m) == PutInt(Little, 4, m.source) + PutSize(Little, |m.updates|)
                            + PutInt(HighWordFirst, 8, m.sequence) + [m.hopCount]
                            + EncodeItems(Chain(PEER), PeerData(m.updates))
  {
    var f, items := UpdateFields(m), PeerData(m.updates);
    ItemsTyped(Chain(PEER), items);
    UpdateFieldsMatch(m);
    HeadTyped(m);
    OneByte(m.hopCount);
    HeadBytes(m);
    WriteStep(UPDATE, f, 0);
    WriteStep(UPDATE, f, 1);
    assert UPDATE[0..] == UPDATE && f[0..] == f && UPDATE[2..] == [] && f[2..] == [];
    assert Write([], []) == [];
    assert Encode(UPDATE[1], f[1])
           == PutSize(Little, |items|) + (Encode(HEAD, HeadDatum(m)) + EncodeItems(Chain(PEER), items));
  }

  lemma HeadBytes(m: RouteUpdate)
    ensures Typed(HEAD, HeadDatum(m))
    ensures Encode(HEAD, HeadDatum(m)) == PutInt(HighWordFirst, 8, m.sequence) + [m.hopCount]
  {
    HeadTyped(m);
    OneByte(m.hopCount);
    var last, d := Then(LITTLE8, Empty), Pair(Num(m.hopCount), Unit);
    assert Typed(last, d) && Encode(last, d) == PutInt(Little, 1, m.hopCount) + [];
  }

  // ----- reading -----

  /** The fields already read, in front of what the remaining ones give. */
  function Prepend(fields: seq<Datum>, d: Datum): Datum {
    if fields == [] then d else Pair(fields[0], Prepend(fields[1..], d))
  }

  lemma {:induction false} PrependOneMore(fields: seq<Datum>, x: Datum, d: Datum)
    ensures Prepend(fields + [x], d) == Prepend(fields, Pair(x, d))
  {
    if fields != [] {
      assert (fields + [x])[1..] == fields[1..] + [x];
      PrependOneMore(fields[1..], x, d);
    }
  }

  lemma {:induction false} PrependAll(fields: seq<Datum>)
    ensures Prepend(fields, Unit) == Tuple(fields)
  {
    if fields != [] {
      PrependAll(fields[1..]);
    }
  }

  /** `whole` is what decoding comes to, given the fields already read and that `rest` is still ahead. */
  ghost predicate Reading(layout: seq<Shape>, fields: seq<Datum>, rest: Bytes, whole: Parse) {
    && |fields| <= |layout|
    && var p := Decode(Chain(layout[|fields|..]), rest);
       whole == if p.Fail? then Fail else Parsed(Prepend(fields, p.datum), p.rest)
  }

  lemma ReadingStarts(layout: seq<Shape>, b: Bytes)
    ensures Reading(layout, [], b, Decode(Chain(layout), b))
  {
    assert layout[0..] == layout;
  }

  lemma FieldRead(layout: seq<Shape>, fields: seq<Datum>, rest: Bytes, whole: Parse, x: Datum, after: Bytes)
    requires |fields| < |layout| && Reading(layout, fields, rest, whole)
    requires Decode(layout[|fields|], rest) == Parsed(x, after)
    ensures Reading(layout, fields + [x], after, whole)
  {
    DecodeStep(layout, |fields|, rest);
    var p := Decode(Chain(layout[|fields| + 1..]), after);
    if p.Parsed? {
      PrependOneMore(fields, x, p.datum);
    }
  }

  lemma FieldFails(layout: seq<Shape>, fields: seq<Datum>, rest: Bytes, whole: Parse)
    requires |fields| < |layout| && Reading(layout, fields, rest, whole)
    requires Decode(layout[|fields|], rest).Fail?
    ensures whole.Fail?
  {
    DecodeStep(layout, |fields|, rest);
  }

  lemma ReadingEnds(layout: seq<Shape>, fields: seq<Datum>, rest: Bytes, whole: Parse)
    requires |fields| == |layout| && Reading(layout, fields, rest, whole)
    ensures whole == Parsed(Tuple(fields), rest)
  {
    assert layout[|fields|..] == [];
    PrependAll(fields);
  }

  ghost predicate ReadsPeer(whole: Parse, r: Option<PeerInfo>, after: Bytes) {
    match r
    case None => whole.Fail?
    case Some(p) => whole.Parsed? && Typed(Chain(PEER), whole.datum) && p == PeerOfDatum(whole.datum) && after == whole.rest
  }

  /** The next field of the layout. */
  ghost predicate Expects(layout: seq<Shape>, fields: seq<Datum>, s: Shape) {
    |fields| < |layout| && layout[|fields|] == s
  }

  method NextByte(reader: Reader, ghost layout: seq<Shape>, ghost f: seq<Datum>, ghost whole: Parse)
    returns (r: Option<u8>)
    requires reader.Valid() && Expects(layout, f, LITTLE8) && Reading(layout, f, reader.Ahead(), whole)
    modifies reader`offset
    ensures reader.Valid()
    ensures r.None? ==> whole.Fail?
    ensures r.Some? ==> Reading(layout, f + [Num(r.value)], reader.Ahead(), whole)
  {
    ghost var b := reader.Ahead();
    r := reader.ReadByte();
    if r.None? { FieldFails(layout, f, b, whole); } else { FieldRead(layout, f, b, whole, Num(r.value), reader.Ahead()); }
  }

  method NextPort(reader: Reader, ghost layout: seq<Shape>, ghost f: seq<Datum>, ghost whole: Parse)
    returns (r: Option<u16>)
    requires reader.Valid() && Expects(layout, f, UInt(2, Big)) && Reading(layout, f, reader.Ahead(), whole)
    modifies reader`offset
    ensures reader.Valid()
    ensures r.None? ==> whole.Fail?
    ensures r.Some? ==> Reading(layout, f + [Num(r.value)], reader.Ahead(), whole)
  {
    ghost var b := reader.Ahead();
    r := reader.ReadPort();
    if r.None? { FieldFails(layout, f, b, whole); } else { FieldRead(layout, f, b, whole, Num(r.value), reader.Ahead()); }
  }

  method NextUint32(reader: Reader, ghost layout: seq<Shape>, ghost f: seq<Datum>, ghost whole: Parse)
    returns (r: Option<u32>)
    requires reader.Valid() && Expects(layout, f, LITTLE32) && Reading(layout, f, reader.Ahead(), whole)
    modifies reader`offset
    ensures reader.Valid()
    ensures r.None? ==> whole.Fail?
    ensures r.Some? ==> Reading(layout, f + [Num(r.value)], reader.Ahead(), whole)
  {
    ghost var b := reader.Ahead();
    r := reader.ReadUint32();
    if r.None? { FieldFails(layout, f, b, whole); } else { FieldRead(layout, f, b, whole, Num(r.value), reader.Ahead()); }
  }

  method NextUint64(reader: Reader, ghost layout: seq<Shape>, ghost f: seq<Datum>, ghost whole: Parse)
    returns (r: Option<u64>)
    requires reader.Valid() && Expects(layout, f, WORDS64) && Reading(layout, f, reader.Ahead(), whole)
    modifies reader`offset
    ensures reader.Valid()
    ensures r.None? ==> whole.Fail?
    ensures r.Some? ==> Reading(layout, f + [Num(r.value)], reader.Ahead(), whole)
  {
    ghost var b := reader.Ahead();
    r := reader.ReadUint64();
    if r.None? { FieldFails(layout, f, b, whole); } else { FieldRead(layout, f, b, whole, Num(r.value), reader.Ahead()); }
  }

  method NextString(reader: Reader, ghost layout: seq<Shape>, ghost f: seq<Datum>, ghost whole: Parse)
    returns (r: Option<Bytes>)
    requires reader.Valid() && Expects(layout, f, Text(Little)) && Reading(layout, f, reader.Ahead(), whole)
    modifies reader`offset
    ensures reader.Valid()
    ensures r.None? ==> whole.Fail?
    ensures r.Some? ==> Reading(layout, f + [Blob(r.value)], reader.Ahead(), whole)
  {
    ghost var b := reader.Ahead();
    r := reader.ReadString();
    if r.None? { FieldFails(layout, f, b, whole); } else { FieldRead(layout, f, b, whole, Blob(r.value), reader.Ahead()); }
  }

  /** Where the peer can be reached and when it was seen: the first half of an entry. */
  datatype Endpoint = Endpoint(peerId: u32, ipAddress: Bytes, port: u16, millis: u64)

  datatype Quality = Quality(hopCount: u8, nextHop: u32, millionths: u32, bandwidth: u64)

  function EndpointFields(e: Endpoint): seq<Datum> {
    [Num(e.peerId), Blob(e.ipAddress), Num(e.port), Num(e.millis)]
  }

  function QualityFields(q: Quality): seq<Datum> {
    [Num(q.hopCount), Num(q.nextHop), Num(q.millionths), Num(q.bandwidth)]
  }

  ghost predicate IsPeerLayout(layout: seq<Shape>) {
    && |layout| == 8
    && layout[0] == LITTLE32 && layout[1] == Text(Little) && layout[2] == UInt(2, Big) && layout[3] == WORDS64
    && layout[4] == LITTLE8 && layout[5] == LITTLE32 && layout[6] == LITTLE32 && layout[7] == WORDS64
  }

  method ReadEndpoint(reader: Reader, ghost layout: seq<Shape>, ghost whole: Parse) returns (r: Option<Endpoint>)
    requires reader.Valid() && IsPeerLayout(layout) && Reading(layout, [], reader.Ahead(), whole)
    modifies reader`offset
    ensures reader.Valid()
    ensures r.None? ==> whole.Fail?
    ensures r.Some? ==> Reading(layout, EndpointFields(r.value), reader.Ahead(), whole)
  {
    ghost var f := [];
    var peer := NextUint32(reader, layout, f, whole);
    if peer.None? { return None; }
    f := f + [Num(peer.value)];
    var ip := NextString(reader, layout, f, whole);
    if ip.None? { return None; }
    f := f + [Blob(ip.value)];
    var port := NextPort(reader, layout, f, whole);
    if port.None? { return None; }
    f := f + [Num(port.value)];
    var millis := NextUint64(reader, layout, f, whole);
    if millis.None? { return None; }
    f := f + [Num(millis.value)];
    r := Some(Endpoint(peer.value, ip.value, port.value, millis.value));
    assert f == EndpointFields(r.value);
  }

  method ReadQuality(reader: Reader, ghost layout: seq<Shape>, ghost read: seq<Datum>, ghost whole: Parse)
    returns (r: Option<Quality>)
    requires reader.Valid() && IsPeerLayout(layout) && |read| == 4 && Reading(layout, read, reader.Ahead(), whole)
    modifies reader`offset
    ensures reader.Valid()
    ensures r.None? ==> whole.Fail?
    ensures r.Some? ==> Reading(layout, read + QualityFields(r.value), reader.Ahead(), whole)
  {
    ghost var f := read;
    var hops := NextByte(reader, layout, f, whole);
    if hops.None? { return None; }
    f := f + [Num(hops.value)];
    var nextHop := NextUint32(reader, layout, f, whole);
    if nextHop.None? { return None; }
    f := f + [Num(nextHop.value)];
    var millionths := NextUint32(reader, layout, f, whole);
    if millionths.None? { return None; }
    f := f + [Num(millionths.value)];
    var bandwidth := NextUint64(reader, layout, f, whole);
    if bandwidth.None? { return None; }
    f := f + [Num(bandwidth.value)];
    r := Some(Quality(hops.value, nextHop.value, millionths.value, bandwidth.value));
    FourMore(read, r.value);
  }

  lemma FourMore(read: seq<Datum>, q: Quality)
    ensures read + [Num(q.hopCount)] + [Num(q.nextHop)] + [Num(q.millionths)] + [Num(q.bandwidth)]
            == read + QualityFields(q)
  {
  }

  function PeerFrom(e: Endpoint, q: Quality): PeerInfo {
    PeerInfo(e.peerId, e.ipAddress, e.port, e.millis * NANOS_PER_MILLI, q.hopCount, q.nextHop, Score(q.millionths),
             q.bandwidth)
  }

  lemma ReadFieldsMatch(e: Endpoint, q: Quality)
    ensures Matches(PEER, EndpointFields(e) + QualityFields(q))
    ensures PeerOf(EndpointFields(e) + QualityFields(q)) == PeerFrom(e, q)
  {
    ReadFieldsTyped(e, q);
    var f := EndpointFields(e) + QualityFields(q);
    assert f == [Num(e.peerId), Blob(e.ipAddress), Num(e.port), Num(e.millis),
                 Num(q.hopCount), Num(q.nextHop), Num(q.millionths), Num(q.bandwidth)];
  }

  lemma EndpointTyped(e: Endpoint)
    ensures Matches(PEER[..4], EndpointFields(e))
  {
    Powers();
    var f := EndpointFields(e);
    assert Typed(PEER[0], f[0]) && Typed(PEER[1], f[1]) && Typed(PEER[2], f[2]) && Typed(PEER[3], f[3]);
  }

  lemma QualityTyped(q: Quality)
    ensures Matches(PEER[4..], QualityFields(q))
  {
    Powers();
    var f := QualityFields(q);
    assert Typed(PEER[4], f[0]) && Typed(PEER[5], f[1]) && Typed(PEER[6], f[2]) && Typed(PEER[7], f[3]);
  }

  lemma ReadFieldsTyped(e: Endpoint, q: Quality)
    ensures Matches(PEER, EndpointFields(e) + QualityFields(q))
  {
    EndpointTyped(e);
    QualityTyped(q);
    var f := EndpointFields(e) + QualityFields(q);
    forall i | 0 <= i < 8 ensures Typed(PEER[i], f[i]) {
      assert if i < 4 then PEER[i] == PEER[..4][i] && f[i] == EndpointFields(e)[i]
             else PEER[i] == PEER[4..][i - 4] && f[i] == QualityFields(q)[i - 4];
    }
  }

  lemma DescribedPeer(e: Endpoint, q: Quality)
    ensures var d := Tuple(EndpointFields(e) + QualityFields(q));
      Typed(Chain(PEER), d) && PeerOfDatum(d) == PeerFrom(e, q)
  {
    ReadFieldsMatch(e, q);
    TupleMatches(PEER, EndpointFields(e) + QualityFields(q));
  }

  method ReadPeer(reader: Reader) returns (r: Option<PeerInfo>)
    requires reader.Valid()
    modifies reader`offset
    ensures reader.Valid()
    ensures ReadsPeer(Decode(Chain(PEER), old(reader.Ahead())), r, reader.Ahead())
  {
    ghost var whole := Decode(Chain(PEER), reader.Ahead());
    ReadingStarts(PEER, reader.Ahead());
    var e := ReadEndpoint(reader, PEER, whole);
    if e.None? { return None; }
    var q := ReadQuality(reader, PEER, EndpointFields(e.value), whole);
    if q.None? { return None; }
    ReadingEnds(PEER, EndpointFields(e.value) + QualityFields(q.value), reader.Ahead(), whole);
    DescribedPeer(e.value, q.value);
    r := Some(PeerFrom(e.value, q.value));
  }

  /** The items already read, in front of what the remaining `n` give. */
  ghost predicate ReadingItems(s: Shape, items: seq<Datum>, n: nat, rest: Bytes, whole: ParseItems) {
    var p := DecodeItems(s, n, rest);
    whole == if p.FailItems? then FailItems else ParsedItems(items + p.items, p.rest)
  }

  lemma ItemRead(s: Shape, items: seq<Datum>, n: nat, rest: Bytes, whole: ParseItems, x: Datum, after: Bytes)
    requires n > 0 && ReadingItems(s, items, n, rest, whole) && Decode(s, rest) == Parsed(x, after)
    ensures ReadingItems(s, items + [x], n - 1, after, whole)
  {
    var p := DecodeItems(s, n - 1, after);
    if p.ParsedItems? {
      assert items + ([x] + p.items) == items + [x] + p.items;
    }
  }

  /** The data behind the entries read so far. */
  ghost predicate Holds(updates: seq<PeerInfo>, items: seq<Datum>) {
    && |updates| == |items|
    && forall i | 0 <= i < |items| :: Typed(Chain(PEER), items[i]) && updates[i] == PeerOfDatum(items[i])
  }

  method ReadPeers(reader: Reader, count: u32) returns (r: Option<seq<PeerInfo>>)
    requires reader.Valid()
    modifies reader`offset
    ensures reader.Valid()
    ensures var whole := DecodeItems(Chain(PEER), count, old(reader.Ahead()));
      && (r.None? <==> whole.FailItems?)
      && (r.Some? ==> Holds(r.value, whole.items) && reader.Ahead() == whole.rest)
  {
    ghost var whole, items: seq<Datum> := DecodeItems(Chain(PEER), count, reader.Ahead()), [];
    var updates := [];
    for i := 0 to count
      invariant reader.Valid()
      invariant ReadingItems(Chain(PEER), items, count - i, reader.Ahead(), whole)
      invariant Holds(updates, items)
    {
      ghost var b := reader.Ahead();
      var p := ReadPeer(reader);
      if p.None? { return None; }
      ghost var x := Decode(Chain(PEER), b).datum;
      ItemRead(Chain(PEER), items, count - i, b, whole, x, reader.Ahead());
      updates, items := updates + [p.value], items + [x];
    }
    r := Some(updates);
  }

  const ENTRIES := Counted(Little, HEAD, Chain(PEER))

  lemma HeadReads(b: Bytes)
    ensures Decode(HEAD, b)
            == var p := Decode(WORDS64, b);
               if p.Fail? then Fail else
               var q := Decode(LITTLE8, p.rest);
               if q.Fail? then Fail else Parsed(Pair(p.datum, Pair(q.datum, Unit)), q.rest)
  {
    var p := Decode(WORDS64, b);
    if p.Parsed? {
      var q := Decode(LITTLE8, p.rest);
      assert Decode(Then(LITTLE8, Empty), p.rest)
             == if q.Fail? then Fail else Parsed(Pair(q.datum, Unit), q.rest);
    }
  }

  lemma UpdateReads(b: Bytes)
    ensures Decode(Chain(UPDATE), b)
            == var p := Decode(LITTLE32, b);
               if p.Fail? then Fail else
               var q := Decode(ENTRIES, p.rest);
               if q.Fail? then Fail else Parsed(Pair(p.datum, Pair(q.datum, Unit)), q.rest)
  {
    assert UPDATE[1..] == [ENTRIES] && [ENTRIES][1..] == [];
    assert Chain([ENTRIES]) == Then(ENTRIES, Empty);
    assert Chain(UPDATE) == Then(LITTLE32, Then(ENTRIES, Empty));
    var p := Decode(LITTLE32, b);
    if p.Parsed? {
      var q := Decode(ENTRIES, p.rest);
      assert Decode(Then(ENTRIES, Empty), p.rest)
             == if q.Fail? then Fail else Parsed(Pair(q.datum, Unit), q.rest);
    }
  }

  lemma UpdateRead(b: Bytes, m: RouteUpdate, items: seq<Datum>, rest: Bytes)
    requires Holds(m.updates, items)
    requires Decode(Chain(UPDATE), b) == Parsed(Pair(Num(m.source), Pair(List(HeadDatum(m), items), Unit)), rest)
    ensures Deserialize(b) == Some(m)
  {
    var f := [Num(m.source), List(HeadDatum(m), items)];
    var last := Pair(List(HeadDatum(m), items), Unit);
    assert Untuple(last) == [List(HeadDatum(m), items)];
    assert Untuple(Pair(Num(m.source), last)) == f;
    assert Read(UPDATE, b) == Some(f);
    var n := UpdateOf(f);
    assert n.updates == m.updates;
  }

  /** Everything after the source: count, sequence number, hop count, then the entries. */
  method ReadEntries(reader: Reader, source: u32) returns (r: Option<RouteUpdate>, ghost items: seq<Datum>)
    requires reader.Valid()
    modifies reader`offset
    ensures reader.Valid()
    ensures r.None? ==> Decode(ENTRIES, old(reader.Ahead())).Fail?
    ensures r.Some? ==> Holds(r.value.updates, items) && r.value.source == source
                        && Decode(ENTRIES, old(reader.Ahead())) == Parsed(List(HeadDatum(r.value), items), reader.Ahead())
  {
    ghost var c := reader.Ahead();
    items := [];
    var count := reader.ReadUint32();
    if count.None? { return None, items; }
    HeadReads(c[4..]);
    var sequence := reader.ReadUint64();
    if sequence.None? { return None, items; }
    var hops := reader.ReadByte();
    if hops.None? { return None, items; }
    ghost var whole := DecodeItems(Chain(PEER), count.value, reader.Ahead());
    var updates := ReadPeers(reader, count.value);
    if updates.None? { return None, items; }
    items := whole.items;
    r := Some(RouteUpdate(source, updates.value, sequence.value, hops.value));
  }

  method DeserializeUpdate(data: Bytes) returns (r: Option<RouteUpdate>)
    ensures r == Deserialize(data)
  {
    UpdateReads(data);
    var reader := new Reader(data);
    assert reader.Ahead() == data;
    var source := reader.ReadUint32();
    if source.None? { return None; }
    ghost var items;
    r, items := ReadEntries(reader, source.value);
    if r.Some? { UpdateRead(data, r.value, items, reader.Ahead()); }
  }
}
