/** What each operation of the router does to its tables. */
module RouterModel {
  import opened Arithmetic
  import opened Bounded
  import opened RoutingData

  const MAX_HOP_COUNT := 16
  const MAX_ROUTING_ENTRIES := 10000
  const ROUTE_TIMEOUT: nat := 30 * 60 * 1_000_000_000
  const RELIABILITY_DECAY := 0.95
  const DEFAULT_BANDWIDTH: u64 := 1000000

  /** `direct` holds the peers with a connection of their own. */
  datatype Router = Router(id: u32, known: map<u32, PeerInfo>, routes: map<u32, RouteEntry>, direct: set<u32>,
                           sequence: u64)

  function BandwidthFactor(bandwidth: u64): real {
    1000000.0 / Max(1000, bandwidth) as real
  }

  function Metric(p: PeerInfo): real {
    p.hopCount as real * 0.2 + (1.0 - p.reliability) * 0.4 + BandwidthFactor(p.bandwidth) * 0.4
  }

  predicate Expired(stamp: nat, now: nat) {
    now > stamp + ROUTE_TIMEOUT
  }

  function NextSequence(sequence: u64): u64 {
    (sequence + 1) % TWO_TO_THE_64
  }

  // ----- operations -----

  function DirectPeer(peer: u32, ip: Bytes, port: u16, now: nat): PeerInfo {
    PeerInfo(peer, ip, port, now, 1, peer, 1.0, DEFAULT_BANDWIDTH)
  }

  function RouteTo(p: PeerInfo, now: nat): RouteEntry {
    RouteEntry(p.peerId, p.nextHop, p.hopCount, now, Metric(p))
  }

  function AddDirect(r: Router, peer: u32, ip: Bytes, port: u16, now: nat): Router {
    var p := DirectPeer(peer, ip, port, now);
    r.(known := r.known[peer := p], direct := r.direct + {peer}, routes := r.routes[peer := RouteTo(p, now)])
  }

  function Remove(r: Router, peer: u32): Router {
    r.(known := r.known - {peer},
       direct := r.direct - {peer},
       routes := map d | d in r.routes && d != peer && r.routes[d].nextHop != peer :: r.routes[d])
  }

  function Decayed(p: PeerInfo): PeerInfo {
    p.(reliability := p.reliability * RELIABILITY_DECAY)
  }

  /** A peer that is forgotten takes its route along; a route can also expire on its own. */
  function CleanUp(r: Router, now: nat): Router {
    r.(known := map d | d in r.known && !Expired(r.known[d].lastSeen, now) :: Decayed(r.known[d]),
       routes := map d | d in r.routes && !(d in r.known && Expired(r.known[d].lastSeen, now))
                         && !Expired(r.routes[d].lastUpdated, now) :: r.routes[d])
  }

  function Shifted(p: PeerInfo, success: bool): PeerInfo {
    p.(reliability := if success then (if p.reliability + 0.1 < 1.0 then p.reliability + 0.1 else 1.0)
                      else (if p.reliability - 0.2 > 0.0 then p.reliability - 0.2 else 0.0))
  }

  /** A successful or failed exchange with the peer; its route is measured again. */
  function UpdateReliability(r: Router, peer: u32, success: bool): Router {
    if peer !in r.known then r else
    var p := Shifted(r.known[peer], success);
    r.(known := r.known[peer := p],
       routes := if peer in r.routes then r.routes[peer := r.routes[peer].(metric := Metric(p))] else r.routes)
  }

  /** Only the peers that are one hop away keep a route, now straight to them. */
  function Rebuild(r: Router, now: nat): Router {
    r.(routes := map d | d in r.known && r.known[d].hopCount == 1 :: RouteEntry(d, d, 1, now, Metric(r.known[d])))
  }

  function NextHop(r: Router, destination: u32, now: nat): Option<u32> {
    if destination in r.routes && !Expired(r.routes[destination].lastUpdated, now)
    then Some(r.routes[destination].nextHop) else None
  }

  /** One more hop, in eight bits. */
  function OneHopMore(hops: u8): u8 {
    (hops + 1) % 0x100
  }

  /** Whether the advertised entry replaces what the router has. Metrics are compared with the hop count as advertised. */
  predicate Better(r: Router, u: PeerInfo) {
    || u.peerId !in r.known
    || (u.peerId in r.routes
        && var have := r.routes[u.peerId];
           (OneHopMore(u.hopCount) < have.hopCount
            || (OneHopMore(u.hopCount) == have.hopCount && Metric(u) < have.metric)))
  }

  predicate Accepts(r: Router, u: PeerInfo) {
    && u.peerId != r.id
    && OneHopMore(u.hopCount) < MAX_HOP_COUNT
    && Better(r, u)
    && |r.routes| < MAX_ROUTING_ENTRIES
  }

  function Learned(u: PeerInfo, source: u32): PeerInfo {
    u.(hopCount := OneHopMore(u.hopCount), nextHop := source)
  }

  function Apply(r: Router, source: u32, u: PeerInfo, now: nat): Router {
    if !Accepts(r, u) then r else
    var p := Learned(u, source);
    r.(known := r.known[u.peerId := p], routes := r.routes[u.peerId := RouteTo(p, now)])
  }

  function ApplyAll(r: Router, source: u32, updates: seq<PeerInfo>, now: nat): Router {
    if updates == [] then r
    else Apply(ApplyAll(r, source, updates[..|updates| - 1], now), source, updates[|updates| - 1], now)
  }

  predicate AcceptsAny(r: Router, source: u32, updates: seq<PeerInfo>, now: nat) {
    updates != []
    && (AcceptsAny(r, source, updates[..|updates| - 1], now)
        || Accepts(ApplyAll(r, source, updates[..|updates| - 1], now), updates[|updates| - 1]))
  }

  predicate Heeds(r: Router, m: RouteUpdate) {
    m.source != r.id && m.hopCount < MAX_HOP_COUNT
  }

  function HandleUpdate(r: Router, m: RouteUpdate, now: nat): Router {
    if !Heeds(r, m) then r else
    var s := ApplyAll(r, m.source, m.updates, now);
    if AcceptsAny(r, m.source, m.updates, now) then s.(sequence := NextSequence(s.sequence)) else s
  }

  /** The list holds the given entries of the table, each once, in any order. */
  ghost predicate Lists(known: map<u32, PeerInfo>, except: set<u32>, updates: seq<PeerInfo>) {
    && (forall i | 0 <= i < |updates| :: Listed(known, except, updates[i]))
    && (forall i, j | 0 <= i < j < |updates| :: updates[i].peerId != updates[j].peerId)
    && (forall d | d in known && d !in except :: known[d] in updates)
  }

  predicate Listed(known: map<u32, PeerInfo>, except: set<u32>, u: PeerInfo) {
    u.peerId in known && u.peerId !in except && known[u.peerId] == u
  }

  /** All that a router has on a peer. */
  predicate SameAt(r: Router, s: Router, d: u32) {
    && (d in r.known <==> d in s.known) && (d in r.known ==> s.known[d] == r.known[d])
    && (d in r.routes <==> d in s.routes) && (d in r.routes ==> s.routes[d] == r.routes[d])
  }

  // ----- the representation invariant -----

  predicate InRange(hops: u8) {
    1 <= hops < MAX_HOP_COUNT
  }

  predicate GoodPeer(known: map<u32, PeerInfo>, d: u32)
    requires d in known
  {
    known[d].peerId == d && InRange(known[d].hopCount)
  }

  predicate GoodRoute(r: Router, d: u32)
    requires d in r.routes
  {
    && d in r.known
    && r.routes[d].destination == d
    && r.routes[d].hopCount == r.known[d].hopCount
    && r.routes[d].nextHop == r.known[d].nextHop
  }

  ghost predicate Consistent(r: Router) {
    && (forall d | d in r.known :: GoodPeer(r.known, d))
    && (forall d | d in r.routes :: GoodRoute(r, d))
  }

  /** A new neighbour is known at one hop, reliable, at a megabyte in a second, with a route of its own from now on;
      nothing about any other peer changes. */
  lemma AddDirectKeeps(r: Router, peer: u32, ip: Bytes, port: u16, now: nat)
    requires Consistent(r)
    ensures var s := AddDirect(r, peer, ip, port, now);
      && Consistent(s) && s.id == r.id && s.sequence == r.sequence && s.direct == r.direct + {peer}
      && peer in s.known && s.known[peer] == PeerInfo(peer, ip, port, now, 1, peer, 1.0, 1_000_000)
      && NextHop(s, peer, now) == Some(peer) && s.routes[peer] == RouteEntry(peer, peer, 1, now, Metric(s.known[peer]))
      && forall d | d != peer :: SameAt(r, s, d)
  {
    var s := AddDirect(r, peer, ip, port, now);
    assert forall d | d in r.known && d != peer :: GoodPeer(r.known, d) && GoodPeer(s.known, d);
    assert forall d | d in r.routes && d != peer :: GoodRoute(r, d) && GoodRoute(s, d);
    assert GoodPeer(s.known, peer) && GoodRoute(s, peer);
  }

  /** After a peer is removed, no route leads to it or through it, and nothing else is lost. */
  lemma RemoveKeeps(r: Router, peer: u32)
    requires Consistent(r)
    ensures Remove(r, peer).id == r.id && Remove(r, peer).sequence == r.sequence
    ensures Remove(r, peer).direct == r.direct - {peer} && Remove(r, peer).known.Keys == r.known.Keys - {peer}
    ensures forall d | d in Remove(r, peer).known :: Remove(r, peer).known[d] == r.known[d]
    ensures Consistent(Remove(r, peer))
    ensures peer !in Remove(r, peer).known && peer !in Remove(r, peer).direct
    ensures forall d | d in Remove(r, peer).routes :: d != peer && Remove(r, peer).routes[d].nextHop != peer
    ensures forall d | d in r.routes && d != peer && r.routes[d].nextHop != peer ::
              d in Remove(r, peer).routes && Remove(r, peer).routes[d] == r.routes[d]
  {
    var s := Remove(r, peer);
    assert forall d | d in s.known :: GoodPeer(r.known, d) && GoodPeer(s.known, d);
    assert forall d | d in s.routes :: GoodRoute(r, d) && GoodRoute(s, d);
  }

  /** Nothing but the reliability changes, which loses one part in twenty. */
  predicate LosesATwentieth(before: PeerInfo, after: PeerInfo) {
    after.(reliability := before.reliability) == before && 20.0 * after.reliability == 19.0 * before.reliability
  }

  /** After a cleanup nothing expired is left, nothing else is lost, and the peers that stay only become less reliable. */
  lemma CleanUpKeeps(r: Router, now: nat)
    requires Consistent(r)
    ensures Consistent(CleanUp(r, now)) && CleanUp(r, now).id == r.id
    ensures CleanUp(r, now).direct == r.direct && CleanUp(r, now).sequence == r.sequence
    ensures forall d | d in CleanUp(r, now).known ::
              d in r.known && now <= CleanUp(r, now).known[d].lastSeen + 1_800_000_000_000
    ensures forall d | d in CleanUp(r, now).routes ::
              now <= CleanUp(r, now).routes[d].lastUpdated + 1_800_000_000_000 && NextHop(CleanUp(r, now), d, now).Some?
    ensures forall d | d in r.known && now <= r.known[d].lastSeen + 1_800_000_000_000 ::
              d in CleanUp(r, now).known && LosesATwentieth(r.known[d], CleanUp(r, now).known[d])
    ensures forall d | d in r.routes && now <= r.known[d].lastSeen + 1_800_000_000_000
                       && now <= r.routes[d].lastUpdated + 1_800_000_000_000 ::
              d in CleanUp(r, now).routes && CleanUp(r, now).routes[d] == r.routes[d]
  {
    var s := CleanUp(r, now);
    assert forall d | d in s.known :: GoodPeer(r.known, d) && GoodPeer(s.known, d);
    assert forall d | d in s.routes :: GoodRoute(r, d) && GoodRoute(s, d);
  }

  /** As long as the peer is fresh, a cleanup does not change what the router answers, since an expired route counts for
      nothing already. */
  lemma CleanUpKeepsAnswers(r: Router, d: u32, now: nat)
    requires d in r.known ==> now <= r.known[d].lastSeen + 1_800_000_000_000
    ensures NextHop(CleanUp(r, now), d, now) == NextHop(r, d, now)
    ensures NextHop(r, d, now).Some? <==> d in r.routes && now <= r.routes[d].lastUpdated + 1_800_000_000_000
  {
  }

  /** Reliability rises by a tenth up to 1 or falls by a fifth down to 0, the route is measured anew, and nothing else
      changes. */
  lemma UpdateReliabilityKeeps(r: Router, peer: u32, success: bool)
    requires Consistent(r)
    ensures var s := UpdateReliability(r, peer, success);
      && Consistent(s) && s.known.Keys == r.known.Keys && s.routes.Keys == r.routes.Keys
      && (forall d | d in r.known && d != peer :: s.known[d] == r.known[d])
      && (forall d | d in r.routes && d != peer :: s.routes[d] == r.routes[d])
      && (peer in r.known ==>
            var before, after := r.known[peer].reliability, s.known[peer].reliability;
            && s.known[peer].(reliability := before) == r.known[peer]
            && (0.0 <= before <= 1.0 ==> 0.0 <= after <= 1.0 && if success then before <= after else after <= before)
            && (0.2 <= before <= 0.9 ==> after == if success then before + 0.1 else before - 0.2)
            && (success && before >= 0.9 ==> after == 1.0) && (!success && before <= 0.2 ==> after == 0.0))
      && (peer in r.routes ==>
            s.routes[peer] == r.routes[peer].(metric := Metric(s.known[peer])))
  {
    var s := UpdateReliability(r, peer, success);
    assert s.known.Keys == r.known.Keys && s.routes.Keys == r.routes.Keys;
    assert forall d | d in s.known :: GoodPeer(r.known, d) && GoodPeer(s.known, d);
    assert forall d | d in s.routes :: GoodRoute(r, d) && GoodRoute(s, d);
  }

  /** Rebuilding keeps the tables consistent exactly when one hop always means a link to the peer itself. A peer
      advertised at no hops at all is kept at one hop through its advertiser, and breaks this. */
  lemma RebuildKeepsExactly(r: Router, now: nat)
    requires Consistent(r)
    ensures Consistent(Rebuild(r, now)) <==> forall d | d in r.known && r.known[d].hopCount == 1 :: r.known[d].nextHop == d
    ensures Rebuild(r, now).known == r.known && Rebuild(r, now).direct == r.direct
    ensures forall d {:trigger NextHop(Rebuild(r, now), d, now)} ::
              NextHop(Rebuild(r, now), d, now) == if d in r.known && r.known[d].hopCount == 1 then Some(d) else None
    ensures forall d | d in Rebuild(r, now).routes ::
              var e := Rebuild(r, now).routes[d];
              d in r.known && e.destination == d && e.hopCount == 1 && e.lastUpdated == now && e.metric == Metric(r.known[d])
  {
    var s := Rebuild(r, now);
    assert forall d | d in s.known :: GoodPeer(r.known, d) && GoodPeer(s.known, d);
    forall d | d in s.routes ensures GoodRoute(s, d) <==> r.known[d].nextHop == d {
    }
  }

  lemma ApplyKeeps(r: Router, source: u32, u: PeerInfo, now: nat)
    requires Consistent(r) && u.hopCount != 255
    ensures Consistent(Apply(r, source, u, now))
  {
    var s := Apply(r, source, u, now);
    if Accepts(r, u) {
      assert forall d | d in r.known && d != u.peerId :: GoodPeer(r.known, d) && GoodPeer(s.known, d);
      assert forall d | d in r.routes && d != u.peerId :: GoodRoute(r, d) && GoodRoute(s, d);
      assert GoodPeer(s.known, u.peerId) && GoodRoute(s, u.peerId);
    }
  }

  lemma {:induction false} ApplyAllKeeps(r: Router, source: u32, updates: seq<PeerInfo>, now: nat)
    requires Consistent(r) && forall i | 0 <= i < |updates| :: updates[i].hopCount != 255
    ensures Consistent(ApplyAll(r, source, updates, now))
  {
    if updates != [] {
      ApplyAllKeeps(r, source, updates[..|updates| - 1], now);
      ApplyKeeps(ApplyAll(r, source, updates[..|updates| - 1], now), source, updates[|updates| - 1], now);
    }
  }

  lemma HandleUpdateKeeps(r: Router, m: RouteUpdate, now: nat)
    requires Consistent(r) && forall i | 0 <= i < |m.updates| :: m.updates[i].hopCount != 255
    ensures Consistent(HandleUpdate(r, m, now))
  {
    if Heeds(r, m) {
      ApplyAllKeeps(r, m.source, m.updates, now);
      assert HandleUpdate(r, m, now).known == ApplyAll(r, m.source, m.updates, now).known;
      assert HandleUpdate(r, m, now).routes == ApplyAll(r, m.source, m.updates, now).routes;
      var a, b := ApplyAll(r, m.source, m.updates, now), HandleUpdate(r, m, now);
      assert forall d | d in b.routes :: GoodRoute(a, d) && GoodRoute(b, d);
    }
  }

  // ----- a route lost with its next hop does not come back -----

  predicate Orphaned(r: Router, d: u32) {
    d in r.known && d !in r.routes
  }

  lemma {:induction false} ApplyAllLeavesOrphans(r: Router, source: u32, updates: seq<PeerInfo>, now: nat, d: u32)
    requires Orphaned(r, d)
    ensures Orphaned(ApplyAll(r, source, updates, now), d)
    ensures ApplyAll(r, source, updates, now).known[d] == r.known[d]
  {
    if updates != [] {
      ApplyAllLeavesOrphans(r, source, updates[..|updates| - 1], now, d);
    }
  }

  /** Updates handled one after the other, each at its own time. */
  function HandleAll(r: Router, messages: seq<(RouteUpdate, nat)>): Router {
    if messages == [] then r
    else HandleUpdate(HandleAll(r, messages[..|messages| - 1]), messages[|messages| - 1].0, messages[|messages| - 1].1)
  }

  /** A peer that was reached through a removed one stays known without a route, whatever updates arrive. */
  lemma {:induction false} RemovalOrphansForGood(r: Router, peer: u32, d: u32, messages: seq<(RouteUpdate, nat)>, now: nat)
    requires Consistent(r) && d in r.routes && r.routes[d].nextHop == peer && d != peer
    ensures Orphaned(HandleAll(Remove(r, peer), messages), d)
    ensures NextHop(HandleAll(Remove(r, peer), messages), d, now) == None
    decreases |messages|
  {
    if messages == [] {
      assert GoodRoute(r, d);
    } else {
      var before, last := messages[..|messages| - 1], messages[|messages| - 1];
      RemovalOrphansForGood(r, peer, d, before, now);
      ApplyAllLeavesOrphans(HandleAll(Remove(r, peer), before), last.0.source, last.0.updates, last.1, d);
    }
  }

  // ----- the metric, and what comparing it before counting the hop does to ties -----

  lemma LearningCostsOneHop(u: PeerInfo, source: u32)
    requires u.hopCount < 255
    ensures Metric(Learned(u, source)) == Metric(u) + 0.2
  {
    assert (u.hopCount + 1) as real * 0.2 == u.hopCount as real * 0.2 + 0.2;
  }

  lemma MoreBandwidthIsCheaper(a: u64, b: u64)
    requires a <= b
    ensures BandwidthFactor(a) >= BandwidthFactor(b)
  {
    EqualProducts(BandwidthFactor(a), Max(1000, a) as real, BandwidthFactor(b), Max(1000, b) as real);
  }

  lemma WeightedSum(h: real, k: real, r: real, s: real, f: real, g: real)
    requires h <= k && r >= s && f <= g
    ensures h * 0.2 + (1.0 - r) * 0.4 + f * 0.4 <= k * 0.2 + (1.0 - s) * 0.4 + g * 0.4
    ensures h < k || r > s ==> h * 0.2 + (1.0 - r) * 0.4 + f * 0.4 < k * 0.2 + (1.0 - s) * 0.4 + g * 0.4
  {
  }

  /** Fewer hops, more reliability and more bandwidth never make the metric worse. */
  lemma MetricIsMonotone(p: PeerInfo, q: PeerInfo)
    requires p.hopCount <= q.hopCount && p.reliability >= q.reliability && p.bandwidth >= q.bandwidth
    ensures Metric(p) <= Metric(q)
    ensures p.hopCount < q.hopCount || p.reliability > q.reliability ==> Metric(p) < Metric(q)
  {
    MoreBandwidthIsCheaper(q.bandwidth, p.bandwidth);
    WeightedSum(p.hopCount as real, q.hopCount as real, p.reliability, q.reliability,
                BandwidthFactor(p.bandwidth), BandwidthFactor(q.bandwidth));
  }

  /** What a hop is worth: at equal bandwidth a peer one hop nearer is better if and only if its reliability is less than
      a half lower. */
  lemma HopIsHalfAReliability(p: PeerInfo, q: PeerInfo)
    requires p.hopCount + 1 == q.hopCount && p.bandwidth == q.bandwidth
    ensures Metric(p) < Metric(q) <==> q.reliability < p.reliability + 0.5
  {
    assert q.hopCount as real == p.hopCount as real + 1.0;
  }

  /** What bandwidth is worth: at equal hop counts a faster peer is better if and only if the difference of the times it
      takes for a megabyte, counted as at least one kilobyte in a second, outweighs that of the reliabilities. */
  lemma BandwidthWeighsAsTime(p: PeerInfo, q: PeerInfo)
    requires p.hopCount == q.hopCount
    ensures Metric(p) < Metric(q) <==>
              1000000.0 / Max(1000, p.bandwidth) as real - 1000000.0 / Max(1000, q.bandwidth) as real
                < p.reliability - q.reliability
  {
    assert BandwidthFactor(p.bandwidth) == 1000000.0 / Max(1000, p.bandwidth) as real;
  }

  /** At equal hop counts an offer wins if and only if, once learned, it is less than one hop's weight worse than the
      route it replaces. */
  lemma TiesFavourTheOffer(r: Router, u: PeerInfo, source: u32)
    requires u.peerId in r.known && u.peerId in r.routes && u.hopCount < 255
    requires u.hopCount + 1 == r.routes[u.peerId].hopCount
    ensures Better(r, u) <==> Metric(Learned(u, source)) < r.routes[u.peerId].metric + 0.2
  {
    LearningCostsOneHop(u, source);
  }

  /** So the same offer from two neighbours moves the route to whichever spoke last. */
  lemma EqualOffersFlap(r: Router, u: PeerInfo, first: u32, second: u32, now: nat, later: nat)
    requires Accepts(r, u) && u.hopCount < 255 && |Apply(r, first, u, now).routes| < MAX_ROUTING_ENTRIES
    ensures var s := Apply(Apply(r, first, u, now), second, u, later);
      s.routes[u.peerId].nextHop == second && s.routes[u.peerId].hopCount == u.hopCount + 1
  {
    TiesFavourTheOffer(Apply(r, first, u, now), u, second);
    LearningCostsOneHop(u, first);
    LearningCostsOneHop(u, second);
  }
}
