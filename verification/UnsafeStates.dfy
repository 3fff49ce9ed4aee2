/** Every state that is not sound is unsafe: some run of the network spoils a route. */
module UnsafeStates {
  import opened Arithmetic
  import opened Bounded
  import opened HopWrap
  import opened RoundExists
  import opened RouteSafety
  import opened RouterLearning
  import opened RouterModel
  import opened RouterNetwork
  import opened RoutingData

  // ----- one router takes an offer -----

  predicate Via(r: Router, d: u32, source: u32, hops: int) {
    d in r.routes && r.routes[d].nextHop == source && r.routes[d].hopCount <= hops
  }

  lemma TakesNow(m: Router, source: u32, u: PeerInfo, now: nat)
    requires u.peerId != m.id && u.hopCount < MAX_HOP_COUNT - 1 && |m.routes| < MAX_ROUTING_ENTRIES
    requires Better(m, u) || Via(m, u.peerId, source, u.hopCount + 1)
    ensures Via(Apply(m, source, u, now), u.peerId, source, u.hopCount + 1)
  {
  }

  lemma KeepsVia(m: Router, source: u32, u: PeerInfo, now: nat, d: u32, hops: int)
    requires Consistent(m) && u.hopCount != 255 && Via(m, d, source, hops)
    ensures Via(Apply(m, source, u, now), d, source, hops)
  {
    ApplyLearns(m, source, u, now);
  }

  /** What was better before the update is better when its turn comes, unless the sender has offered as much already. */
  lemma BetterInTurn(r: Router, m: Router, source: u32, updates: seq<PeerInfo>, u: PeerInfo)
    requires Consistent(r) && SameOrphans(r, m) && Consistent(m) && !Orphaned(r, u.peerId)
    requires u.peerId in m.routes ==> OldOrLearned(r, m, source, updates, u.peerId)
    requires Better(r, u) && u.hopCount < 15
    ensures Better(m, u) || Via(m, u.peerId, source, u.hopCount + 1)
  {
    assert Orphaned(r, u.peerId) <==> Orphaned(m, u.peerId);
    if u.peerId in m.routes { assert GoodRoute(m, u.peerId); }
    if u.peerId in r.routes { assert GoodRoute(r, u.peerId); }
  }

  lemma TakesLast(r: Router, source: u32, before: seq<PeerInfo>, u: PeerInfo, now: nat, peers: set<u32>)
    requires Consistent(r) && Sensible(before) && HasRoom(r, peers) && AboutPeers(r, before, peers)
    requires u.peerId != r.id && u.hopCount < 15 && Better(r, u) && !Orphaned(r, u.peerId)
    ensures Via(Apply(ApplyAll(r, source, before, now), source, u, now), u.peerId, source, u.hopCount + 1)
  {
    var m := ApplyAll(r, source, before, now);
    ApplyAllLearns(r, source, before, now);
    TableAfter(r, source, before, now);
    BetterInTurn(r, m, source, before, u);
    ApplyAllKeepsRoom(r, source, before, now, peers);
    assert |m.routes| == |m.routes.Keys|;
    SubsetIsSmaller(m.routes.Keys, peers);
    TakesNow(m, source, u, now);
  }

  /** A better offer from a packet is taken, or another of the sender's that is as good. */
  lemma {:induction false} TakesOffer(r: Router, source: u32, updates: seq<PeerInfo>, now: nat, peers: set<u32>, i: nat)
    requires Consistent(r) && Sensible(updates) && HasRoom(r, peers) && AboutPeers(r, updates, peers)
    requires i < |updates| && updates[i].peerId != r.id && updates[i].hopCount < 15
    requires Better(r, updates[i]) && !Orphaned(r, updates[i].peerId)
    ensures Via(ApplyAll(r, source, updates, now), updates[i].peerId, source, updates[i].hopCount + 1)
    decreases |updates|
  {
    var n := |updates| - 1;
    var before := updates[..n];
    if i < n {
      TakesOffer(r, source, before, now, peers, i);
      ApplyAllKeeps(r, source, before, now);
      KeepsVia(ApplyAll(r, source, before, now), source, updates[n], now, updates[i].peerId, updates[i].hopCount + 1);
    } else {
      TakesLast(r, source, before, updates[n], now, peers);
    }
  }

  /** The offer with a reliability that beats any route of the same length. */
  function Tempting(r: Router, u: PeerInfo): PeerInfo {
    if u.peerId in r.routes then
      u.(reliability := 2.0 + (u.hopCount as real * 0.2 + BandwidthFactor(u.bandwidth) * 0.4
                               - r.routes[u.peerId].metric) / 0.4)
    else u
  }

  lemma TemptingIsBetter(r: Router, u: PeerInfo)
    requires Consistent(r) && u.peerId != r.id && u.hopCount < 15 && !Declines(r, u.peerId, u.hopCount)
    ensures Better(r, Tempting(r, u))
  {
    if u.peerId in r.routes {
      var metric := r.routes[u.peerId].metric;
      var rest := u.hopCount as real * 0.2 + BandwidthFactor(u.bandwidth) * 0.4;
      assert (rest - metric) / 0.4 * 0.4 == rest - metric;
      assert Metric(Tempting(r, u)) == rest + (1.0 - Tempting(r, u).reliability) * 0.4;
    }
  }

  // ----- a bad offer arrives -----

  /** Neither served by the sender nor declined by the receiver. */
  predicate BadOffer(net: Network, p: Packet, i: nat)
    requires i < |p.update.updates| && p.to in net.routers
  {
    var u := p.update.updates[i];
    !Serves(net, p.from, u.peerId, u.hopCount) && !Declines(net.routers[p.to], u.peerId, u.hopCount)
  }

  lemma OthersHaveRoom(net: Network, a: u32)
    requires Sane(net) && a in net.routers && |net.routers| <= MAX_ROUTING_ENTRIES
    ensures HasRoom(net.routers[a], net.routers.Keys - {a})
  {
    assert SaneRouter(net, a);
    forall d | d in net.routers[a].routes ensures d in net.routers.Keys - {a} { assert GoodRoute(net.routers[a], d); }
    assert |net.routers| == |net.routers.Keys|;
  }

  function Tempted(net: Network, p: Packet, i: nat): RouteUpdate
    requires i < |p.update.updates| && p.to in net.routers
  {
    p.update.(updates := p.update.updates[i := Tempting(net.routers[p.to], p.update.updates[i])])
  }

  lemma BadOfferIsTaken(net: Network, p: Packet, i: nat, now: nat)
    requires Sane(net) && |net.routers| <= MAX_ROUTING_ENTRIES && SanePacket(net, p)
    requires i < |p.update.updates| && p.to in net.routers && BadOffer(net, p, i)
    ensures SameRoutes(p.update, Tempted(net, p, i))
    ensures var u := p.update.updates[i];
      Via(HandleUpdate(net.routers[p.to], Tempted(net, p, i), now), u.peerId, p.from, u.hopCount + 1)
  {
    var r, seen := net.routers[p.to], Tempted(net, p, i);
    assert SaneRouter(net, p.to) && p.from != p.to;
    SeenOffers(net, p, seen);
    OthersHaveRoom(net, p.to);
    TemptingIsBetter(r, p.update.updates[i]);
    TakesOffer(r, seen.source, seen.updates, now, net.routers.Keys - {p.to}, i);
    HandledTables(r, seen, now);
  }

  /** A route to `d` of at most `hops + 1` hops through a router that does not serve it in `hops` is not sound. */
  lemma NotServedNotOk(after: Network, a: u32, d: u32, n: u32, hops: u8)
    requires a in after.routers && Via(after.routers[a], d, n, hops + 1) && !Serves(after, n, d, hops)
    requires n == d ==> after.routers[a].routes[d].hopCount != 1
    ensures !RouteOk(after, a, d)
  {
  }

  /** The sender's own address is never one hop away through an offer. */
  lemma OfferedIsFurther(net: Network, p: Packet, seen: RouteUpdate, i: nat, now: nat)
    requires Sane(net) && AllRoutesOk(net) && p.to in net.routers && SanePacket(net, p) && SameRoutes(p.update, seen)
    requires i < |p.update.updates| && BadOffer(net, p, i) && p.update.updates[i].peerId == p.from
    requires p.from in HandleUpdate(net.routers[p.to], seen, now).routes
    requires HandleUpdate(net.routers[p.to], seen, now).routes[p.from].nextHop == p.from
    ensures HandleUpdate(net.routers[p.to], seen, now).routes[p.from].hopCount != 1
  {
    var r := net.routers[p.to];
    var t := HandleUpdate(r, seen, now);
    assert SaneRouter(net, p.to) && InRange(p.update.updates[i].hopCount);
    SeenOffers(net, p, seen);
    HandledRouter(r, seen, now);
    assert OldOrLearned(r, t, seen.source, seen.updates, p.from);
  }

  /** Delivered with that reliability, a bad offer spoils a route. */
  lemma BadDelivery(net: Network, p: Packet, i: nat, now: nat)
    requires Sane(net) && AllRoutesOk(net) && |net.routers| <= MAX_ROUTING_ENTRIES && p in net.sent
    requires i < |p.update.updates| && p.to in net.routers && BadOffer(net, p, i)
    ensures Enabled(net, Deliver(p, Tempted(net, p, i), now))
    ensures !AllRoutesOk(Next(net, Deliver(p, Tempted(net, p, i), now)))
  {
    assert SanePacket(net, p);
    BadOfferIsTaken(net, p, i, now);
    var after := Next(net, Deliver(p, Tempted(net, p, i), now));
    var u := p.update.updates[i];
    if u.peerId == p.from { OfferedIsFurther(net, p, Tempted(net, p, i), i, now); }
    assert p.from != p.to && !Serves(after, p.from, u.peerId, u.hopCount);
    NotServedNotOk(after, p.to, u.peerId, p.from, u.hopCount);
  }

  // ----- runs from an unsafe state -----

  lemma OneStep(net: Network, s: Step)
    requires StaysOk(net) && Enabled(net, s)
    ensures StaysOk(Next(net, s))
  {
    forall steps | IsRun(Next(net, s), steps) ensures AllRoutesOk(Run(Next(net, s), steps)) {
      StepFirst(net, s, steps);
    }
  }

  lemma {:induction false} StepFirst(net: Network, s: Step, steps: seq<Step>)
    requires Enabled(net, s) && IsRun(Next(net, s), steps)
    ensures IsRun(net, [s] + steps) && Run(net, [s] + steps) == Run(Next(net, s), steps)
    decreases |steps|
  {
    if steps == [] {
      ExtendRun(net, [], s);
      assert [s] + steps == [] + [s];
    } else {
      var before, last := steps[..|steps| - 1], steps[|steps| - 1];
      StepFirst(net, s, before);
      ExtendRun(net, [s] + before, last);
      assert [s] + steps == [s] + before + [last];
    }
  }

  lemma StaysOkNow(net: Network)
    requires StaysOk(net)
    ensures AllRoutesOk(net)
  {
    assert IsRun(net, []) && Run(net, []) == net;
  }

  lemma PacketsMustBeHarmless(net: Network, p: Packet)
    requires Sane(net) && |net.routers| <= MAX_ROUTING_ENTRIES && StaysOk(net) && p in net.sent
    ensures HarmlessPacket(net, p)
  {
    assert SanePacket(net, p);
    StaysOkNow(net);
    forall i | 0 <= i < |p.update.updates|
      ensures || Serves(net, p.from, p.update.updates[i].peerId, p.update.updates[i].hopCount)
              || Declines(net.routers[p.to], p.update.updates[i].peerId, p.update.updates[i].hopCount)
    {
      if BadOffer(net, p, i) {
        BadDelivery(net, p, i, 0);
        OneStep(net, Deliver(p, Tempted(net, p, i), 0));
        StaysOkNow(Next(net, Deliver(p, Tempted(net, p, i), 0)));
      }
    }
  }

  /** A router can list all it knows to any other. */
  lemma CanReply(net: Network, a: u32, b: u32) returns (updates: seq<PeerInfo>)
    requires Sane(net) && a in net.routers && (a, b) in net.links
    ensures Enabled(net, Reply(a, b, updates))
  {
    var r := net.routers[a];
    assert SaneRouter(net, a);
    assert forall d | d in r.known :: GoodPeer(r.known, d);
    updates := ListingExists(r.known, r.known.Keys - {b});
    assert forall i | 0 <= i < |updates| :: Listed(r.known, {b}, updates[i]);
  }

  /** `a` connects to `b` and lists what it knows. */
  lemma ListsOrphan(net: Network, a: u32, b: u32, d: u32) returns (connect: Step, reply: Step)
    requires Sane(net) && a in net.routers && b in net.routers && a != b && d != b && Orphaned(net.routers[a], d)
    ensures Enabled(net, connect) && Enabled(Next(net, connect), reply)
    ensures var after := Next(Next(net, connect), reply);
      && Sane(after) && after.routers.Keys == net.routers.Keys && after.routers[b] == net.routers[b]
      && Orphaned(after.routers[a], d)
      && exists p, i: nat :: p in after.sent && p.from == a && p.to == b && i < |p.update.updates|
                             && p.update.updates[i] == net.routers[a].known[d]
  {
    connect := Connect(a, b, [], 0, 0);
    StepMoves(net, connect);
    var linked := Next(net, connect);
    assert linked.routers[a].known[d] == net.routers[a].known[d];
    var updates := CanReply(linked, a, b);
    reply := Reply(a, b, updates);
    StepMoves(linked, reply);
    var p := Packet(a, b, RouteUpdate(a, updates, linked.routers[a].sequence, 0));
    assert p in Next(linked, reply).sent;
    assert linked.routers[a].known[d] in updates;
    var i :| 0 <= i < |updates| && updates[i] == linked.routers[a].known[d];
    assert p.update.updates[i] == net.routers[a].known[d];
  }

  lemma OrphansMustBeHarmless(net: Network, a: u32, d: u32, b: u32)
    requires Sane(net) && |net.routers| <= MAX_ROUTING_ENTRIES && StaysOk(net)
    requires a in net.routers && b in net.routers && a != b && Orphaned(net.routers[a], d)
    ensures HarmlessOrphan(net, a, d, b)
  {
    assert SaneRouter(net, a) && SaneRouter(net, b);
    assert GoodPeer(net.routers[a].known, d);
    if d != b {
      var connect, reply := ListsOrphan(net, a, b, d);
      OneStep(net, connect);
      OneStep(Next(net, connect), reply);
      var after := Next(Next(net, connect), reply);
      assert |after.routers| == |after.routers.Keys| == |net.routers.Keys| == |net.routers|;
      var p, i: nat :| p in after.sent && p.from == a && p.to == b && i < |p.update.updates|
                       && p.update.updates[i] == net.routers[a].known[d];
      PacketsMustBeHarmless(after, p);
      assert !Serves(after, a, d, net.routers[a].known[d].hopCount);
    }
  }

  /** In a network of at most 10000 routers, a state is safe, whatever steps follow, if and only if every route is sound
      and there is no bad offer, be it on the way or still to be made. */
  lemma SafeExactly(net: Network)
    requires Sane(net) && |net.routers| <= MAX_ROUTING_ENTRIES
    ensures StaysOk(net) <==> AllRoutesOk(net) && NoBadOffers(net)
  {
    if AllRoutesOk(net) && NoBadOffers(net) { SoundStaysOk(net); }
    if StaysOk(net) {
      StaysOkNow(net);
      forall p | p in net.sent ensures HarmlessPacket(net, p) { PacketsMustBeHarmless(net, p); }
      forall a, d, b | a in net.routers && b in net.routers && a != b && Orphaned(net.routers[a], d)
        ensures HarmlessOrphan(net, a, d, b)
      {
        OrphansMustBeHarmless(net, a, d, b);
      }
    }
  }
}
