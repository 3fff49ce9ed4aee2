/** States of the network in which every route is sound and no offer that is about can spoil one, although routers may
    have lost routes, and that nothing but a further loss leads out of them. */
module RouteSafety {
  import opened Bounded
  import opened HopWrap
  import opened RouterLearning
  import opened RouterModel
  import opened RouterNetwork
  import opened RoutingData

  /** What makes forwarding free of loops and dead ends. */
  ghost predicate AllRoutesOk(net: Network) {
    forall a, d {:trigger RouteOk(net, a, d)} | a in net.routers && d in net.routers[a].routes :: RouteOk(net, a, d)
  }

  /** Whatever steps follow, all routes are sound. */
  ghost predicate StaysOk(net: Network) {
    forall steps | IsRun(net, steps) :: AllRoutesOk(Run(net, steps))
  }

  // ----- what holds in every state -----

  ghost predicate SaneRouter(net: Network, a: u32)
    requires a in net.routers
  {
    var r := net.routers[a];
    && r.id == a && Consistent(r) && a !in r.known && r.known.Keys <= net.routers.Keys
    && forall p | p in r.direct :: (a, p) in net.links
  }

  ghost predicate SanePacket(net: Network, p: Packet) {
    && p.update.source == p.from && p.update.hopCount == 0 && (p.from, p.to) in net.links
    && forall i | 0 <= i < |p.update.updates| ::
         InRange(p.update.updates[i].hopCount) && p.update.updates[i].peerId in net.routers
  }

  /** Tables and packets make sense one by one. */
  ghost predicate Sane(net: Network) {
    && LinksOk(net)
    && (forall a {:trigger SaneRouter(net, a)} | a in net.routers :: SaneRouter(net, a))
    && (forall p {:trigger SanePacket(net, p)} | p in net.sent :: SanePacket(net, p))
  }

  // ----- offers -----

  /** The router takes no offer of the destination at that many hops, now or later. */
  predicate Declines(r: Router, d: u32, hops: u8) {
    d == r.id || hops >= MAX_HOP_COUNT - 1 || (d in r.routes && r.routes[d].hopCount <= hops) || Orphaned(r, d)
  }

  /** What the packet offers, its sender serves or its receiver declines. */
  ghost predicate HarmlessPacket(net: Network, p: Packet) {
    p.to in net.routers
    && forall i | 0 <= i < |p.update.updates| ::
         || Serves(net, p.from, p.update.updates[i].peerId, p.update.updates[i].hopCount)
         || Declines(net.routers[p.to], p.update.updates[i].peerId, p.update.updates[i].hopCount)
  }

  /** What `a` knows without a route and may still list, `b` declines. */
  ghost predicate HarmlessOrphan(net: Network, a: u32, d: u32, b: u32)
    requires a in net.routers && Orphaned(net.routers[a], d)
  {
    b in net.routers && Declines(net.routers[b], d, net.routers[a].known[d].hopCount)
  }

  ghost predicate NoBadOffers(net: Network) {
    && (forall p {:trigger HarmlessPacket(net, p)} | p in net.sent :: HarmlessPacket(net, p))
    && (forall a, d, b {:trigger HarmlessOrphan(net, a, d, b)} |
          a in net.routers && b in net.routers && a != b && Orphaned(net.routers[a], d) :: HarmlessOrphan(net, a, d, b))
  }

  ghost predicate Sound(net: Network) {
    Sane(net) && AllRoutesOk(net) && NoBadOffers(net)
  }

  /** Where every known peer has a route and every offer is served, all this holds. */
  lemma InvariantIsSound(net: Network)
    requires Invariant(net)
    ensures Sound(net)
  {
    forall a | a in net.routers ensures SaneRouter(net, a) {
      assert RouterOk(net, a);
      forall d | d in net.routers[a].known ensures d in net.routers { assert RouteOk(net, a, d); }
    }
    forall p | p in net.sent ensures SanePacket(net, p) && HarmlessPacket(net, p) {
      assert PacketOk(net, p);
      forall i | 0 <= i < |p.update.updates| ensures p.update.updates[i].peerId in net.routers {
        assert RouteOk(net, p.from, p.update.updates[i].peerId);
      }
    }
    forall a, d | a in net.routers ensures !Orphaned(net.routers[a], d) { assert RouterOk(net, a); }
  }

  // ----- steps -----

  /** Between these two states of a router, no route was lost or got longer, and what it knows without a route stays so
      unless the peer connects. */
  ghost predicate Advances(r: Router, s: Router) {
    && NotWorse(r, s)
    && (forall d | Orphaned(r, d) :: Orphaned(s, d) || (d in s.routes && s.routes[d].hopCount == 1))
    && (forall d | Orphaned(s, d) :: Orphaned(r, d) && s.known[d].hopCount == r.known[d].hopCount)
  }

  lemma DeclinesOn(r: Router, s: Router, d: u32, hops: u8)
    requires Advances(r, s) && Declines(r, d, hops) && hops >= 1
    ensures Declines(s, d, hops)
  {
  }

  lemma HandledAdvances(r: Router, m: RouteUpdate, now: nat)
    requires Consistent(r) && Sensible(m.updates)
    ensures Advances(r, HandleUpdate(r, m, now))
  {
    HandledRouter(r, m, now);
    if Heeds(r, m) {
      TableAfter(r, m.source, m.updates, now);
      HandledTables(r, m, now);
      forall d | Orphaned(r, d) ensures HandleUpdate(r, m, now).known[d] == r.known[d] {
        ApplyAllLeavesOrphans(r, m.source, m.updates, now, d);
      }
    }
  }

  /** From one state to a later one. */
  ghost predicate Moves(net: Network, after: Network) {
    && Grows(net, after) && Sane(after)
    && forall a | a in net.routers :: Advances(net.routers[a], after.routers[a])
  }

  /** A step changes one router, and adds links and packets. */
  lemma OneMoves(net: Network, after: Network, a: u32)
    requires Sane(net) && a in net.routers && a in after.routers && after.routers == net.routers[a := after.routers[a]]
    requires Advances(net.routers[a], after.routers[a]) && net.links <= after.links && net.sent <= after.sent
    requires LinksOk(after) && SaneRouter(after, a)
    requires forall p | p in after.sent && p !in net.sent :: SanePacket(after, p)
    ensures Moves(net, after)
  {
    forall b | b in after.routers ensures SaneRouter(after, b) {
      if b != a { assert SaneRouter(net, b); }
    }
    forall p | p in after.sent ensures SanePacket(after, p) {
      if p in net.sent { assert SanePacket(net, p); }
    }
  }

  lemma ConnectMoves(net: Network, s: Step)
    requires Sane(net) && s.Connect? && Enabled(net, s)
    ensures Moves(net, Next(net, s))
    ensures forall d | d in Next(net, s).routers[s.router].routes && d != s.peer ::
              HasRoute(net.routers[s.router], d, Next(net, s).routers[s.router].routes[d])
  {
    var after := Next(net, s);
    assert SaneRouter(net, s.router);
    DirectIsNotWorse(net.routers[s.router], s.peer, s.ip, s.port, s.now);
    assert LinksOk(after) && SaneRouter(after, s.router);
    OneMoves(net, after, s.router);
  }

  lemma ListedIsSane(net: Network, a: u32, except: set<u32>, updates: seq<PeerInfo>)
    requires Sane(net) && a in net.routers && Lists(net.routers[a].known, except, updates)
    ensures forall i | 0 <= i < |updates| :: InRange(updates[i].hopCount) && updates[i].peerId in net.routers
  {
    assert SaneRouter(net, a);
    forall i | 0 <= i < |updates| ensures InRange(updates[i].hopCount) && updates[i].peerId in net.routers {
      assert Listed(net.routers[a].known, except, updates[i]);
      assert GoodPeer(net.routers[a].known, updates[i].peerId);
    }
  }

  lemma BroadcastMoves(net: Network, s: Step)
    requires Sane(net) && s.Broadcast? && Enabled(net, s)
    ensures Moves(net, Next(net, s))
  {
    var after := Next(net, s);
    var r := net.routers[s.router];
    assert SaneRouter(net, s.router);
    SameTables(r, NextSequence(r.sequence));
    assert SaneRouter(after, s.router);
    ListedIsSane(net, s.router, {}, s.updates);
    forall p | p in after.sent && p !in net.sent ensures SanePacket(after, p) {
      assert p.to in r.direct && p.update == BroadcastOf(r, s.updates);
    }
    OneMoves(net, after, s.router);
  }

  lemma ReplyMoves(net: Network, s: Step)
    requires Sane(net) && s.Reply? && Enabled(net, s)
    ensures Moves(net, Next(net, s))
  {
    var after := Next(net, s);
    assert SaneRouter(net, s.router) && SaneRouter(after, s.router);
    ListedIsSane(net, s.router, {s.requester}, s.updates);
    OneMoves(net, after, s.router);
  }

  lemma MaintainMoves(net: Network, s: Step)
    requires Sane(net) && s.Maintain? && Enabled(net, s)
    ensures Moves(net, Next(net, s)) && Next(net, s).routers[s.router].routes == net.routers[s.router].routes
  {
    var after := Next(net, s);
    assert SaneRouter(net, s.router);
    UneventfulCleanUp(net.routers[s.router], s.now);
    assert SaneRouter(after, s.router);
    OneMoves(net, after, s.router);
  }

  lemma SeenOffers(net: Network, p: Packet, seen: RouteUpdate)
    requires SanePacket(net, p) && SameRoutes(p.update, seen)
    ensures Sensible(seen.updates)
    ensures forall i | 0 <= i < |seen.updates| ::
              InRange(seen.updates[i].hopCount) && seen.updates[i].peerId in net.routers
  {
    forall i | 0 <= i < |seen.updates| ensures InRange(seen.updates[i].hopCount) && seen.updates[i].peerId in net.routers {
      assert InRange(p.update.updates[i].hopCount);
    }
  }

  lemma DeliverMoves(net: Network, s: Step)
    requires Sane(net) && s.Deliver? && Enabled(net, s)
    ensures Moves(net, Next(net, s))
  {
    var after, a := Next(net, s), s.packet.to;
    var r, t := net.routers[a], after.routers[a];
    assert SaneRouter(net, a) && SanePacket(net, s.packet);
    SeenOffers(net, s.packet, s.seen);
    HandledRouter(r, s.seen, s.now);
    HandledAdvances(r, s.seen, s.now);
    forall d | d in t.known ensures d in net.routers && d != a {
      if d in t.routes {
        assert OldOrLearned(r, t, s.seen.source, s.seen.updates, d);
      } else {
        assert Orphaned(t, d);
      }
    }
    assert SaneRouter(after, a);
    OneMoves(net, after, a);
  }

  lemma StepMoves(net: Network, s: Step)
    requires Sane(net) && Enabled(net, s)
    ensures Moves(net, Next(net, s))
  {
    match s
    case Connect(_, _, _, _, _) => ConnectMoves(net, s);
    case Broadcast(_, _) => BroadcastMoves(net, s);
    case Reply(_, _, _) => ReplyMoves(net, s);
    case Deliver(_, _, _) => DeliverMoves(net, s);
    case Maintain(_, _) => MaintainMoves(net, s);
  }

  // ----- soundness is kept -----

  lemma PacketStaysHarmless(net: Network, after: Network, p: Packet)
    requires Moves(net, after) && SanePacket(net, p) && HarmlessPacket(net, p)
    ensures HarmlessPacket(after, p)
  {
    forall i | 0 <= i < |p.update.updates|
      ensures || Serves(after, p.from, p.update.updates[i].peerId, p.update.updates[i].hopCount)
              || Declines(after.routers[p.to], p.update.updates[i].peerId, p.update.updates[i].hopCount)
    {
      var u := p.update.updates[i];
      OfferStaysHarmless(net, after, p.from, p.to, u.peerId, u.hopCount);
    }
  }

  lemma OrphanStaysHarmless(net: Network, after: Network, a: u32, d: u32, b: u32)
    requires Sound(net) && Moves(net, after) && a in after.routers && b in after.routers && a != b
    requires Orphaned(after.routers[a], d)
    ensures HarmlessOrphan(after, a, d, b)
  {
    assert Orphaned(net.routers[a], d) && HarmlessOrphan(net, a, d, b);
    assert SaneRouter(net, a);
    assert GoodPeer(net.routers[a].known, d);
    DeclinesOn(net.routers[b], after.routers[b], d, net.routers[a].known[d].hopCount);
  }

  /** What has to be shown is about the new routes and packets. */
  lemma NewIsEnough(net: Network, after: Network)
    requires Sound(net) && Moves(net, after)
    requires forall a, d {:trigger RouteOk(after, a, d)} |
               a in after.routers && d in after.routers[a].routes
               && !HasRoute(net.routers[a], d, after.routers[a].routes[d]) :: RouteOk(after, a, d)
    requires forall p | p in after.sent && p !in net.sent :: HarmlessPacket(after, p)
    ensures Sound(after)
  {
    forall a, d | a in after.routers && d in after.routers[a].routes ensures RouteOk(after, a, d) {
      if HasRoute(net.routers[a], d, after.routers[a].routes[d]) {
        assert RouteOk(net, a, d);
        RoutePersists(net, after, a, d);
      }
    }
    forall p | p in after.sent ensures HarmlessPacket(after, p) {
      if p in net.sent {
        assert SanePacket(net, p) && HarmlessPacket(net, p);
        PacketStaysHarmless(net, after, p);
      }
    }
    forall a, d, b | a in after.routers && b in after.routers && a != b && Orphaned(after.routers[a], d)
      ensures HarmlessOrphan(after, a, d, b)
    {
      OrphanStaysHarmless(net, after, a, d, b);
    }
  }

  lemma KnownIsHarmless(net: Network, a: u32, d: u32, b: u32)
    requires Sound(net) && a in net.routers && b in net.routers && a != b && d in net.routers[a].known
    ensures Serves(net, a, d, net.routers[a].known[d].hopCount)
            || Declines(net.routers[b], d, net.routers[a].known[d].hopCount)
    ensures net.routers[a].known[d].hopCount >= 1
  {
    assert SaneRouter(net, a);
    assert GoodPeer(net.routers[a].known, d);
    if d in net.routers[a].routes {
      assert GoodRoute(net.routers[a], d);
    } else {
      assert HarmlessOrphan(net, a, d, b);
    }
  }

  /** What a router lists is served by it or declined by everyone else. */
  lemma ListedIsHarmless(net: Network, after: Network, p: Packet, except: set<u32>)
    requires Sound(net) && Moves(net, after) && p.from in net.routers && p.to in net.routers && p.from != p.to
    requires Lists(net.routers[p.from].known, except, p.update.updates)
    ensures HarmlessPacket(after, p)
  {
    var known := net.routers[p.from].known;
    forall i | 0 <= i < |p.update.updates|
      ensures || Serves(after, p.from, p.update.updates[i].peerId, p.update.updates[i].hopCount)
              || Declines(after.routers[p.to], p.update.updates[i].peerId, p.update.updates[i].hopCount)
    {
      var u := p.update.updates[i];
      assert Listed(known, except, u);
      KnownIsHarmless(net, p.from, u.peerId, p.to);
      OfferStaysHarmless(net, after, p.from, p.to, u.peerId, u.hopCount);
    }
  }

  lemma OfferStaysHarmless(net: Network, after: Network, a: u32, b: u32, d: u32, hops: u8)
    requires Moves(net, after) && b in net.routers && hops >= 1
    requires Serves(net, a, d, hops) || Declines(net.routers[b], d, hops)
    ensures b in after.routers && (Serves(after, a, d, hops) || Declines(after.routers[b], d, hops))
  {
    if Serves(net, a, d, hops) {
      ServesPersists(net, after, a, d, hops);
    } else {
      DeclinesOn(net.routers[b], after.routers[b], d, hops);
    }
  }

  lemma NotDeclined(r: Router, t: Router, source: u32, u: PeerInfo, d: u32)
    requires Advances(r, t) && d in t.routes && d != r.id && LearnedFrom(t.routes[d], d, source, u) && u.hopCount >= 1
    ensures !Declines(r, d, u.hopCount) && t.routes[d].hopCount == u.hopCount + 1
  {
  }

  /** A route that was learned was offered by a router that serves it. */
  lemma LearnedWasServed(net: Network, p: Packet, seen: RouteUpdate, t: Router, d: u32)
    requires p.to in net.routers && SanePacket(net, p) && HarmlessPacket(net, p) && SameRoutes(p.update, seen)
    requires Advances(net.routers[p.to], t) && d in t.routes && !HasRoute(net.routers[p.to], d, t.routes[d])
    requires OldOrLearned(net.routers[p.to], t, seen.source, seen.updates, d)
    ensures t.routes[d].nextHop == p.from && Serves(net, p.from, d, t.routes[d].hopCount - 1)
  {
    var r := net.routers[p.to];
    var i :| 0 <= i < |seen.updates| && LearnedFrom(t.routes[d], d, seen.source, seen.updates[i]);
    var u := p.update.updates[i];
    assert InRange(u.hopCount) && u.peerId == d && u.hopCount == seen.updates[i].hopCount;
    NotDeclined(r, t, seen.source, seen.updates[i], d);
  }

  lemma LearnedIsOk(net: Network, s: Step, d: u32)
    requires Sound(net) && s.Deliver? && Enabled(net, s) && Moves(net, Next(net, s))
    requires d in Next(net, s).routers[s.packet.to].routes
    requires !HasRoute(net.routers[s.packet.to], d, Next(net, s).routers[s.packet.to].routes[d])
    ensures RouteOk(Next(net, s), s.packet.to, d)
  {
    var after, p := Next(net, s), s.packet;
    assert SaneRouter(net, p.to) && SanePacket(net, p);
    SeenOffers(net, p, s.seen);
    HandledRouter(net.routers[p.to], s.seen, s.now);
    assert HarmlessPacket(net, p);
    LearnedWasServed(net, p, s.seen, after.routers[p.to], d);
    LearnedLeadsOn(net, after, p.to, p.from, d);
  }

  lemma LearnedLeadsOn(net: Network, after: Network, a: u32, n: u32, d: u32)
    requires Sane(net) && Moves(net, after) && (n, a) in net.links && a in after.routers && d in after.routers[a].routes
    requires after.routers[a].routes[d].nextHop == n && Serves(net, n, d, after.routers[a].routes[d].hopCount - 1)
    ensures RouteOk(after, a, d)
  {
    assert SaneRouter(net, n);
    assert GoodRoute(net.routers[n], d);
    ServesPersists(net, after, n, d, after.routers[a].routes[d].hopCount - 1);
  }

  lemma ConnectKeepsSound(net: Network, s: Step)
    requires Sound(net) && s.Connect? && Enabled(net, s)
    ensures Sound(Next(net, s))
  {
    ConnectMoves(net, s);
    assert RouteOk(Next(net, s), s.router, s.peer);
    NewIsEnough(net, Next(net, s));
  }

  lemma BroadcastKeepsSound(net: Network, s: Step)
    requires Sound(net) && s.Broadcast? && Enabled(net, s)
    ensures Sound(Next(net, s))
  {
    var after := Next(net, s);
    BroadcastMoves(net, s);
    forall p | p in after.sent && p !in net.sent ensures HarmlessPacket(after, p) {
      assert SanePacket(after, p) && p.from == s.router && p.update.updates == s.updates;
      ListedIsHarmless(net, after, p, {});
    }
    NewIsEnough(net, after);
  }

  lemma ReplyKeepsSound(net: Network, s: Step)
    requires Sound(net) && s.Reply? && Enabled(net, s)
    ensures Sound(Next(net, s))
  {
    var after := Next(net, s);
    ReplyMoves(net, s);
    forall p | p in after.sent && p !in net.sent ensures HarmlessPacket(after, p) {
      assert SanePacket(after, p);
      ListedIsHarmless(net, after, p, {s.requester});
    }
    NewIsEnough(net, after);
  }

  lemma DeliverKeepsSound(net: Network, s: Step)
    requires Sound(net) && s.Deliver? && Enabled(net, s)
    ensures Sound(Next(net, s))
  {
    var after, a := Next(net, s), s.packet.to;
    DeliverMoves(net, s);
    forall d | d in after.routers[a].routes && !HasRoute(net.routers[a], d, after.routers[a].routes[d])
      ensures RouteOk(after, a, d)
    {
      LearnedIsOk(net, s, d);
    }
    NewIsEnough(net, after);
  }

  lemma MaintainKeepsSound(net: Network, s: Step)
    requires Sound(net) && s.Maintain? && Enabled(net, s)
    ensures Sound(Next(net, s))
  {
    MaintainMoves(net, s);
    NewIsEnough(net, Next(net, s));
  }

  lemma SoundStepKeeps(net: Network, s: Step)
    requires Sound(net) && Enabled(net, s)
    ensures Sound(Next(net, s))
  {
    match s
    case Connect(_, _, _, _, _) => ConnectKeepsSound(net, s);
    case Broadcast(_, _) => BroadcastKeepsSound(net, s);
    case Reply(_, _, _) => ReplyKeepsSound(net, s);
    case Deliver(_, _, _) => DeliverKeepsSound(net, s);
    case Maintain(_, _) => MaintainKeepsSound(net, s);
  }

  lemma {:induction false} SoundRunKeeps(net: Network, steps: seq<Step>)
    requires Sound(net) && IsRun(net, steps)
    ensures Sound(Run(net, steps))
    decreases |steps|
  {
    if steps != [] {
      SoundRunKeeps(net, steps[..|steps| - 1]);
      SoundStepKeeps(Run(net, steps[..|steps| - 1]), steps[|steps| - 1]);
    }
  }

  lemma SoundStaysOk(net: Network)
    requires Sound(net)
    ensures StaysOk(net)
  {
    forall steps | IsRun(net, steps) ensures AllRoutesOk(Run(net, steps)) { SoundRunKeeps(net, steps); }
  }
}
