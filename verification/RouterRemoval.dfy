/** What the loss of routes at one router, by removing a peer or by expiry, does to the routes of the others. */
module RouterRemoval {
  import opened Arithmetic
  import opened Bounded
  import opened HopWrap
  import opened RouteSafety
  import opened RouterLearning
  import opened RouterModel
  import opened RouterNetwork
  import opened RoutingData

  function WithRouter(net: Network, a: u32, s: Router): Network {
    net.(routers := net.routers[a := s])
  }

  /** `b` forwards to `a` what is meant for `d`, which is further on. */
  predicate Relies(net: Network, b: u32, d: u32, a: u32) {
    b in net.routers && d in net.routers[b].routes && net.routers[b].routes[d].nextHop == a && d != a
  }

  predicate OnlyLoses(r: Router, s: Router) {
    forall d | d in s.routes :: HasRoute(r, d, s.routes[d])
  }

  lemma ReliedRouteIsLost(net: Network, a: u32, s: Router, b: u32, d: u32)
    requires Sane(net) && AllRoutesOk(net) && a in net.routers && Relies(net, b, d, a) && d !in s.routes
    ensures b != a && !RouteOk(WithRouter(net, a, s), b, d)
  {
    assert RouteOk(net, b, d);
    assert (b, a) in net.links;
  }

  lemma UnreliedRouteStays(net: Network, a: u32, s: Router, b: u32, d: u32)
    requires Sane(net) && AllRoutesOk(net) && a in net.routers && OnlyLoses(net.routers[a], s)
    requires b in net.routers && d in WithRouter(net, a, s).routers[b].routes
    requires Relies(net, b, d, a) ==> d in s.routes
    ensures RouteOk(WithRouter(net, a, s), b, d)
  {
    assert d in net.routers[b].routes && RouteOk(net, b, d);
    var e := net.routers[b].routes[d];
    assert (b, e.nextHop) in net.links;
  }

  /** When a router loses routes, all routes of the network are sound at that moment if and only if no other router relies
      on it for one of those it loses. */
  lemma LosingRoutesExactly(net: Network, a: u32, s: Router)
    requires Sane(net) && AllRoutesOk(net) && a in net.routers && OnlyLoses(net.routers[a], s)
    ensures AllRoutesOk(WithRouter(net, a, s)) <==> !exists b, d :: Relies(net, b, d, a) && d !in s.routes
  {
    var after := WithRouter(net, a, s);
    if b, d :| Relies(net, b, d, a) && d !in s.routes {
      ReliedRouteIsLost(net, a, s, b, d);
      assert b in after.routers && d in after.routers[b].routes;
    } else {
      forall b, d | b in after.routers && d in after.routers[b].routes ensures RouteOk(after, b, d) {
        UnreliedRouteStays(net, a, s, b, d);
      }
    }
  }

  lemma ReliedOnIsServed(net: Network, b: u32, d: u32, a: u32)
    requires AllRoutesOk(net) && Relies(net, b, d, a)
    ensures a in net.routers && d in net.routers[a].routes
  {
    assert RouteOk(net, b, d);
  }

  /** The routes to a peer and through it. */
  function Through(r: Router, p: u32): set<u32> {
    set d | d in r.routes && (d == p || r.routes[d].nextHop == p)
  }

  function StalePeers(r: Router, now: nat): set<u32> {
    set d | d in r.known && Expired(r.known[d].lastSeen, now)
  }

  /** The routes that have expired, or whose peers have. */
  function StaleRoutes(r: Router, now: nat): set<u32> {
    set d | d in r.routes && (Expired(r.routes[d].lastUpdated, now) || d in StalePeers(r, now))
  }

  /** At the moment of its removal from a router, the loss of a peer leaves all routes sound if and only if no other router
      relies on the remover for the peer itself or for a destination that the remover reaches through it. */
  lemma RemovalKeepsRoutesExactly(net: Network, a: u32, p: u32)
    requires Sane(net) && AllRoutesOk(net) && a in net.routers
    ensures AllRoutesOk(WithRouter(net, a, Remove(net.routers[a], p))) <==>
              !exists b, d :: Relies(net, b, d, a) && d in Through(net.routers[a], p)
  {
    var s := Remove(net.routers[a], p);
    LosingRoutesExactly(net, a, s);
    forall b, d | Relies(net, b, d, a) ensures d !in s.routes <==> d in Through(net.routers[a], p) {
      ReliedOnIsServed(net, b, d, a);
    }
  }

  /** Likewise for a cleanup and the entries that have expired. */
  lemma CleanUpKeepsRoutesExactly(net: Network, a: u32, now: nat)
    requires Sane(net) && AllRoutesOk(net) && a in net.routers
    ensures AllRoutesOk(WithRouter(net, a, CleanUp(net.routers[a], now))) <==>
              !exists b, d :: Relies(net, b, d, a) && d in StaleRoutes(net.routers[a], now)
  {
    var s := CleanUp(net.routers[a], now);
    LosingRoutesExactly(net, a, s);
    forall b, d | Relies(net, b, d, a) ensures d !in s.routes <==> d in StaleRoutes(net.routers[a], now) {
      ReliedOnIsServed(net, b, d, a);
    }
  }

  // ----- what happens next -----

  lemma {:induction false} WantedAmong(r: Router, updates: seq<PeerInfo>, peers: set<u32>)
    requires r.routes.Keys <= peers && AboutPeers(r, updates, peers)
    ensures Wanted(r, updates) <= peers
    decreases |updates|
  {
    if updates != [] { WantedAmong(r, updates[..|updates| - 1], peers); }
  }

  lemma {:induction false} EligibleIsWanted(r: Router, updates: seq<PeerInfo>, i: nat)
    requires i < |updates| && Eligible(r, updates[i])
    ensures updates[i].peerId in Wanted(r, updates)
    decreases |updates|
  {
    if i < |updates| - 1 { EligibleIsWanted(r, updates[..|updates| - 1], i); }
  }

  lemma OfferIsApplied(r: Router, source: u32, updates: seq<PeerInfo>, i: nat, peers: set<u32>, now: nat)
    requires r.routes.Keys <= peers && AboutPeers(r, updates, peers) && |peers| < MAX_ROUTING_ENTRIES
    requires i < |updates| && Eligible(r, updates[i])
    ensures updates[i].peerId in ApplyAll(r, source, updates, now).routes
  {
    TableAfter(r, source, updates, now);
    WantedAmong(r, updates, peers);
    SubsetIsSmaller(Wanted(r, updates), peers);
    EligibleIsWanted(r, updates, i);
  }

  /** A router takes the offer of a peer it does not know. */
  lemma OfferIsTaken(r: Router, m: RouteUpdate, p: u32, i: nat, peers: set<u32>, now: nat)
    requires Consistent(r) && Heeds(r, m) && p !in r.known && p !in r.routes && p != r.id
    requires Sensible(m.updates) && r.routes.Keys <= peers && AboutPeers(r, m.updates, peers)
    requires |peers| < MAX_ROUTING_ENTRIES
    requires i < |m.updates| && m.updates[i].peerId == p && m.updates[i].hopCount < 15
    ensures NextHop(HandleUpdate(r, m, now), p, now) == Some(m.source)
  {
    ApplyAllLearns(r, m.source, m.updates, now);
    OfferIsApplied(r, m.source, m.updates, i, peers, now);
    var t := ApplyAll(r, m.source, m.updates, now);
    assert OldOrLearned(r, t, m.source, m.updates, p);
    StampedNow(r, m.source, m.updates, now, p);
    HandledTables(r, m, now);
  }

  /** A route that was not there before carries the time of the update. */
  lemma {:induction false} StampedNow(r: Router, source: u32, updates: seq<PeerInfo>, now: nat, d: u32)
    requires d !in r.routes && d in ApplyAll(r, source, updates, now).routes
    ensures ApplyAll(r, source, updates, now).routes[d].lastUpdated == now
    decreases |updates|
  {
    var before := ApplyAll(r, source, updates[..|updates| - 1], now);
    if d in before.routes { StampedNow(r, source, updates[..|updates| - 1], now, d); }
  }

  lemma SizeOfOthers(net: Network, a: u32)
    requires a in net.routers
    ensures |net.routers.Keys - {a}| == |net.routers| - 1
  {
    assert |net.routers| == |net.routers.Keys|;
  }

  lemma KnownIsSensible(net: Network, a: u32, s: Router, updates: seq<PeerInfo>)
    requires Invariant(net) && a in net.routers && s.known.Keys <= net.routers[a].known.Keys
    requires forall d | d in s.known :: s.known[d] == net.routers[a].known[d]
    requires Lists(s.known, {}, updates)
    ensures Sensible(updates) && forall i | 0 <= i < |updates| :: updates[i].peerId in net.routers
  {
    assert RouterOk(net, a);
    forall i | 0 <= i < |updates| ensures updates[i].hopCount != 255 && updates[i].peerId in net.routers {
      assert Listed(s.known, {}, updates[i]);
      assert GoodPeer(net.routers[a].known, updates[i].peerId);
      assert RouteOk(net, a, updates[i].peerId);
    }
  }

  /** What a router lists, another one that does not know it learns from the list. */
  lemma ListingTeaches(net: Network, t: Router, b: u32, s: Router, d: u32, updates: seq<PeerInfo>, now: nat)
    requires Invariant(net) && |net.routers| <= MAX_ROUTING_ENTRIES && t.id in net.routers && b in net.routers
    requires Consistent(t) && t.routes.Keys <= net.routers.Keys - {t.id} && t.id != b && s.id == b
    requires d != t.id && d !in t.known && d !in t.routes
    requires s.known.Keys <= net.routers[b].known.Keys && forall e | e in s.known :: s.known[e] == net.routers[b].known[e]
    requires Lists(s.known, {}, updates) && d in s.known && s.known[d].hopCount < 15
    ensures NextHop(HandleUpdate(t, BroadcastOf(s, updates), now), d, now) == Some(b)
  {
    KnownIsSensible(net, b, s, updates);
    SizeOfOthers(net, t.id);
    assert RouterOk(net, b);
    assert GoodPeer(net.routers[b].known, d);
    assert s.known[d] in updates;
    var i :| 0 <= i < |updates| && updates[i] == s.known[d];
    OfferIsTaken(t, BroadcastOf(s, updates), d, i, net.routers.Keys - {t.id}, now);
  }

  lemma RoutesAreToOthers(net: Network, a: u32)
    requires Invariant(net) && a in net.routers
    ensures net.routers[a].routes.Keys <= net.routers.Keys - {a}
  {
    assert RouterOk(net, a);
    forall d | d in net.routers[a].routes ensures d in net.routers.Keys - {a} { assert RouteOk(net, a, d); }
  }

  /** A router that relied on the remover for the removed peer advertises it back, and the remover takes the offer: from
      then on each of the two forwards to the other. */
  lemma RemovalMakesLoop(net: Network, a: u32, b: u32, p: u32, updates: seq<PeerInfo>, now: nat)
    requires Invariant(net) && |net.routers| <= MAX_ROUTING_ENTRIES && Relies(net, b, p, a)
    requires net.routers[b].routes[p].hopCount < 15 && Lists(net.routers[b].known, {}, updates)
    ensures a in net.routers && net.routers[b].routes[p].nextHop == a
    ensures NextHop(HandleUpdate(Remove(net.routers[a], p), BroadcastOf(net.routers[b], updates), now), p, now) == Some(b)
  {
    InvariantIsSound(net);
    ReliedOnIsServed(net, b, p, a);
    RoutesAreToOthers(net, a);
    var q := net.routers[b];
    assert RouterOk(net, a) && RouterOk(net, b) && RouteOk(net, b, p);
    RemoveKeeps(net.routers[a], p);
    assert (b, a) in net.links && GoodRoute(q, p);
    assert Remove(net.routers[a], p).routes.Keys <= net.routers[a].routes.Keys;
    assert p !in Remove(net.routers[a], p).routes;
    ListingTeaches(net, Remove(net.routers[a], p), b, q, p, updates, now);
  }

  /** A destination behind the removed peer stays listed. A router that does not know it takes that offer, and forwards to
      the remover what goes no further. */
  lemma RemovalMakesDeadEnd(net: Network, a: u32, b: u32, p: u32, d: u32, updates: seq<PeerInfo>, now: nat)
    requires Invariant(net) && |net.routers| <= MAX_ROUTING_ENTRIES && a in net.routers && b in net.routers && a != b
    requires d in Through(net.routers[a], p) && d != p && net.routers[a].routes[d].hopCount < 15
    requires d != b && d !in net.routers[b].known
    requires Lists(Remove(net.routers[a], p).known, {}, updates)
    ensures var s := Remove(net.routers[a], p);
      && NextHop(HandleUpdate(net.routers[b], BroadcastOf(s, updates), now), d, now) == Some(a)
      && NextHop(s, d, now) == None
  {
    RoutesAreToOthers(net, b);
    assert RouterOk(net, a) && RouterOk(net, b) && GoodRoute(net.routers[a], d);
    ListingTeaches(net, net.routers[b], a, Remove(net.routers[a], p), d, updates, now);
  }
}
