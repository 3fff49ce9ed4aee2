/** How a router treats file queries. */
module QueryModel {
  import Crc32
  import opened Arithmetic
  import opened Bounded
  import opened RouterModel
  import opened RoutingData

  const QUERY_AGE: nat := 60 * 1_000_000_000
  const QUERY_LIFETIME: nat := 5 * 60 * 1_000_000_000
  const MAX_FLOODING_TARGETS := 5

  const LOCATION_LIFETIME: nat := 60 * 60 * 1_000_000_000

  datatype Query = Query(fileId: Bytes, terms: seq<Bytes>, source: u32, queryId: u32, hopCount: u8)

  /** `locations` holds, for every file, where it is known to be. */
  datatype Responder = Responder(id: u32, direct: set<u32>, cache: map<u32, nat>,
                                 locations: map<Bytes, seq<FileLocation>>)

  datatype Outcome =
    | Ignored                                                  // a duplicate
    | Answered(to: u32, response: FileQueryResponse)
    | Forwarded(query: Query, targets: seq<u32>)
    | Exhausted                                                // no hops left

  predicate SeenRecently(cache: map<u32, nat>, queryId: u32, now: nat) {
    queryId in cache && now < cache[queryId] + QUERY_AGE
  }

  /** The entries for copies that the peer itself holds, in order. */
  function Own(id: u32, locations: seq<FileLocation>): seq<FileLocation> {
    if locations == [] then [] else
    var earlier, last := Own(id, locations[..|locations| - 1]), locations[|locations| - 1];
    if last.peerId == id then earlier + [last] else earlier
  }

  function OwnCopies(r: Responder, file: Bytes): seq<FileLocation> {
    if file in r.locations then Own(r.id, r.locations[file]) else []
  }

  /** Up to five different direct peers other than the one that asked first; which ones is left to chance. */
  predicate AreTargets(direct: set<u32>, source: u32, targets: seq<u32>) {
    && Distinct(targets)
    && (forall i | 0 <= i < |targets| :: targets[i] in direct && targets[i] != source)
    && |targets| == Min(MAX_FLOODING_TARGETS, |direct - {source}|)
  }

  function OneHopFurther(q: Query): Query
    requires q.hopCount < MAX_HOP_COUNT - 1
  {
    q.(hopCount := q.hopCount + 1)
  }

  /** Everything but the cache of the router stays as it is. */
  function Judge(r: Responder, q: Query, now: nat, targets: seq<u32>): Outcome {
    if SeenRecently(r.cache, q.queryId, now) then Ignored
    else if OwnCopies(r, q.fileId) != [] then
      Answered(q.source, FileQueryResponse(q.queryId, r.id, OwnCopies(r, q.fileId)))
    else if q.hopCount < MAX_HOP_COUNT - 1 then Forwarded(OneHopFurther(q), targets)
    else Exhausted
  }

  function Remember(r: Responder, q: Query, now: nat): Responder {
    if SeenRecently(r.cache, q.queryId, now) then r else r.(cache := r.cache[q.queryId := now])
  }

  /** The file and the search terms, separated by bars. */
  function QueryString(file: Bytes, terms: seq<Bytes>): Bytes {
    if terms == [] then file else QueryString(file, terms[..|terms| - 1]) + [0x7C] + terms[|terms| - 1]
  }

  function AsBytes(text: Bytes): seq<bv8> {
    seq(|text|, i requires 0 <= i < |text| => text[i] as bv8)
  }

  /** Queries are told apart by the checksum of their string. */
  function QueryId(file: Bytes, terms: seq<Bytes>): u32 {
    Crc32.Checksum(AsBytes(QueryString(file, terms))) as int
  }

  function Asked(id: u32, file: Bytes, terms: seq<Bytes>): Query {
    Query(file, terms, id, QueryId(file, terms), 0)
  }

  function ForgetOldQueries(cache: map<u32, nat>, now: nat): map<u32, nat> {
    map q | q in cache && now <= cache[q] + QUERY_LIFETIME :: cache[q]
  }

  /** Within a cleanup: what a router would ignore from then on it still ignores, and no more; what stays is what is at most
      five minutes old. */
  lemma CleanupKeepsVerdicts(cache: map<u32, nat>, queryId: u32, now: nat)
    ensures var left := ForgetOldQueries(cache, now);
      && (queryId in left <==> queryId in cache && now <= cache[queryId] + 300_000_000_000)
      && (queryId in left ==> left[queryId] == cache[queryId])
      && forall later | later >= now :: SeenRecently(left, queryId, later) <==> SeenRecently(cache, queryId, later)
  {
  }

  function Recent(locations: seq<FileLocation>, now: nat): seq<FileLocation> {
    if locations == [] then [] else
    var earlier, last := Recent(locations[..|locations| - 1], now), locations[|locations| - 1];
    if now > last.announcedAt + LOCATION_LIFETIME then earlier else earlier + [last]
  }

  function LocationsOf(locations: map<Bytes, seq<FileLocation>>, file: Bytes): seq<FileLocation> {
    if file in locations then locations[file] else []
  }

  /** Old locations go, and files without any left go with them. */
  function ForgetOldLocations(locations: map<Bytes, seq<FileLocation>>, now: nat): map<Bytes, seq<FileLocation>> {
    map f | f in locations && Recent(locations[f], now) != [] :: Recent(locations[f], now)
  }

  /** A processed query is remembered: another one under its number is ignored for a minute, and not afterwards. */
  lemma IgnoredForAMinute(r: Responder, q: Query, now: nat, other: Query, later: nat, targets: seq<u32>)
    requires !SeenRecently(r.cache, q.queryId, now) && other.queryId == q.queryId
    ensures Judge(Remember(r, q, now), other, later, targets) == Ignored <==> later < now + 60_000_000_000
  {
  }

  /** Remembering changes nothing else. */
  lemma RemembersOnly(r: Responder, q: Query, now: nat, queryId: u32)
    ensures var s := Remember(r, q, now);
      && s.id == r.id && s.direct == r.direct && s.locations == r.locations
      && (queryId != q.queryId ==> (queryId in s.cache <==> queryId in r.cache)
                                   && (queryId in r.cache ==> s.cache[queryId] == r.cache[queryId]))
  {
  }

  function CleanedUp(r: Responder, now: nat): Responder {
    r.(cache := ForgetOldQueries(r.cache, now), locations := ForgetOldLocations(r.locations, now))
  }

  lemma {:induction false} OwnExactly(id: u32, locations: seq<FileLocation>)
    ensures forall l :: l in Own(id, locations) <==> l in locations && l.peerId == id
    decreases |locations|
  {
    if locations != [] {
      OwnExactly(id, locations[..|locations| - 1]);
      assert locations == locations[..|locations| - 1] + [locations[|locations| - 1]];
    }
  }

  /** Order and number are kept: each entry of the peer counts where it stands, and no other counts. */
  lemma {:induction false} OwnInPlace(id: u32, a: seq<FileLocation>, l: FileLocation, b: seq<FileLocation>)
    ensures Own(id, a + [l] + b) == Own(id, a) + (if l.peerId == id then [l] else []) + Own(id, b)
    decreases |b|
  {
    var all := a + [l] + b;
    if b == [] {
      assert all == a + [l] && all[..|all| - 1] == a;
    } else {
      OwnInPlace(id, a, l, b[..|b| - 1]);
      assert all[..|all| - 1] == a + [l] + b[..|b| - 1];
    }
  }

  lemma {:induction false} RecentInPlace(a: seq<FileLocation>, l: FileLocation, b: seq<FileLocation>, now: nat)
    ensures Recent(a + [l] + b, now)
            == Recent(a, now) + (if now <= l.announcedAt + 3_600_000_000_000 then [l] else []) + Recent(b, now)
    decreases |b|
  {
    var all := a + [l] + b;
    if b == [] {
      assert all == a + [l] && all[..|all| - 1] == a;
    } else {
      RecentInPlace(a, l, b[..|b| - 1], now);
      assert all[..|all| - 1] == a + [l] + b[..|b| - 1];
    }
  }

  lemma {:induction false} RecentExactly(locations: seq<FileLocation>, now: nat)
    ensures forall l :: l in Recent(locations, now) <==> l in locations && now <= l.announcedAt + 3_600_000_000_000
    decreases |locations|
  {
    if locations != [] {
      RecentExactly(locations[..|locations| - 1], now);
      assert locations == locations[..|locations| - 1] + [locations[|locations| - 1]];
    }
  }

  /** What a router answers with is what it knows of the file and holds itself. */
  lemma OwnCopiesExactly(r: Responder, file: Bytes)
    ensures forall l :: l in OwnCopies(r, file) <==> l in LocationsOf(r.locations, file) && l.peerId == r.id
  {
    if file in r.locations { OwnExactly(r.id, r.locations[file]); }
  }

  /** A cleanup takes own copies away, if they are old, and adds none. */
  lemma CleanupOnlyLoses(r: Responder, file: Bytes, now: nat)
    ensures forall l :: l in OwnCopies(CleanedUp(r, now), file) <==>
                          l in OwnCopies(r, file) && now <= l.announcedAt + 3_600_000_000_000
  {
    if file in r.locations {
      var before, after := r.locations[file], Recent(r.locations[file], now);
      RecentExactly(before, now);
      OwnExactly(r.id, before);
      OwnExactly(r.id, after);
    }
  }

  /** For every file a cleanup keeps exactly the locations announced within the hour; files without any are forgotten. */
  lemma CleanupKeepsLocations(locations: map<Bytes, seq<FileLocation>>, file: Bytes, now: nat)
    ensures var left := ForgetOldLocations(locations, now);
      && (file in left ==> left[file] != [])
      && forall l :: l in LocationsOf(left, file) <==>
                       l in LocationsOf(locations, file) && now <= l.announcedAt + 3_600_000_000_000
  {
    if file in locations { RecentExactly(locations[file], now); }
  }
}
