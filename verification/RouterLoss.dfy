/** When the loss of routes at one router, by removing a peer or by expiry, leaves the network safe for good. */
module RouterLoss {
  import opened Bounded
  import opened RouteSafety
  import opened RouterModel
  import opened RouterNetwork
  import opened RouterRemoval
  import opened UnsafeStates

  /** What is left of a router: it has lost routes, and forgotten peers or not. */
  ghost predicate Loses(r: Router, s: Router) {
    && s.id == r.id && s.direct <= r.direct && Consistent(s) && OnlyLoses(r, s)
    && forall d | d in s.known :: d in r.known && s.known[d].hopCount == r.known[d].hopCount
  }

  function Lost(r: Router, s: Router): set<u32> {
    r.routes.Keys - s.routes.Keys
  }

  function Forgotten(r: Router, s: Router): set<u32> {
    r.known.Keys - s.known.Keys
  }

  // ----- the condition -----

  ghost predicate NobodyRelies(net: Network, a: u32, lost: set<u32>) {
    !exists b, d :: Relies(net, b, d, a) && d in lost
  }

  /** What `a` has offered in the packet but has lost, the receiver declines; what another offers in it and `a` has
      forgotten, the sender serves, or it is too far. */
  ghost predicate PacketSurvives(net: Network, a: u32, lost: set<u32>, forgotten: set<u32>, p: Packet) {
    p.to in net.routers
    && forall i | 0 <= i < |p.update.updates| ::
      OfferSurvives(net, a, lost, forgotten, p.from, p.to, p.update.updates[i].peerId, p.update.updates[i].hopCount)
  }

  predicate OfferSurvives(net: Network, a: u32, lost: set<u32>, forgotten: set<u32>, from: u32, to: u32, d: u32, hops: u8)
    requires to in net.routers
  {
    && (from == a && d in lost ==> Declines(net.routers[to], d, hops))
    && (to == a && d in forgotten ==> Serves(net, from, d, hops) || hops >= 15)
  }

  /** Every other router `b` declines what `a` has lost but still lists, and what `b` itself knows without a route and `a`
      has forgotten is too far. */
  predicate OrphanSurvives(net: Network, a: u32, lost: set<u32>, forgotten: set<u32>, d: u32, b: u32)
    requires a in net.routers && b in net.routers
  {
    && (d in lost && d !in forgotten && d in net.routers[a].known ==>
          Declines(net.routers[b], d, net.routers[a].known[d].hopCount))
    && (d in forgotten && Orphaned(net.routers[b], d) ==> net.routers[b].known[d].hopCount >= 15)
  }

  ghost predicate HarmlessLoss(net: Network, a: u32, lost: set<u32>, forgotten: set<u32>)
    requires a in net.routers
  {
    && NobodyRelies(net, a, lost)
    && (forall p {:trigger PacketSurvives(net, a, lost, forgotten, p)} | p in net.sent ::
          PacketSurvives(net, a, lost, forgotten, p))
    && (forall b, d {:trigger OrphanSurvives(net, a, lost, forgotten, d, b)} | b in net.routers && b != a ::
          OrphanSurvives(net, a, lost, forgotten, d, b))
  }

  // ----- it is exact -----

  lemma LossKeepsSane(net: Network, a: u32, s: Router)
    requires Sane(net) && a in net.routers && Loses(net.routers[a], s)
    ensures Sane(WithRouter(net, a, s))
  {
    var after := WithRouter(net, a, s);
    assert SaneRouter(net, a);
    forall b | b in after.routers ensures SaneRouter(after, b) {
      if b != a { assert SaneRouter(net, b); }
    }
    forall p | p in after.sent ensures SanePacket(after, p) { assert SanePacket(net, p); }
  }

  lemma DeclinesAfterLoss(r: Router, s: Router, d: u32, hops: u8)
    requires Consistent(r) && r.id !in r.known && Loses(r, s)
    ensures d in Forgotten(r, s) ==> (Declines(s, d, hops) <==> hops >= 15)
    ensures d !in Forgotten(r, s) && Declines(r, d, hops) ==> Declines(s, d, hops)
  {
    if d in r.routes { assert GoodRoute(r, d); }
    if d in s.routes { assert GoodRoute(s, d); }
  }

  lemma OfferAfterLoss(net: Network, a: u32, s: Router, from: u32, to: u32, d: u32, hops: u8)
    requires Sane(net) && a in net.routers && Loses(net.routers[a], s) && to in net.routers && from != to
    requires Serves(net, from, d, hops) || Declines(net.routers[to], d, hops)
    ensures var after := WithRouter(net, a, s);
      (Serves(after, from, d, hops) || Declines(after.routers[to], d, hops)) <==>
        OfferSurvives(net, a, Lost(net.routers[a], s), Forgotten(net.routers[a], s), from, to, d, hops)
  {
    assert SaneRouter(net, a);
    DeclinesAfterLoss(net.routers[a], s, d, hops);
  }

  lemma PacketAfterLoss(net: Network, a: u32, s: Router, p: Packet)
    requires Sane(net) && a in net.routers && Loses(net.routers[a], s) && SanePacket(net, p) && HarmlessPacket(net, p)
    ensures HarmlessPacket(WithRouter(net, a, s), p) <==>
              PacketSurvives(net, a, Lost(net.routers[a], s), Forgotten(net.routers[a], s), p)
  {
    var after := WithRouter(net, a, s);
    forall i | 0 <= i < |p.update.updates|
      ensures var u := p.update.updates[i];
        (Serves(after, p.from, u.peerId, u.hopCount) || Declines(after.routers[p.to], u.peerId, u.hopCount)) <==>
          OfferSurvives(net, a, Lost(net.routers[a], s), Forgotten(net.routers[a], s), p.from, p.to, u.peerId, u.hopCount)
    {
      OfferAfterLoss(net, a, s, p.from, p.to, p.update.updates[i].peerId, p.update.updates[i].hopCount);
    }
  }

  /** What routers other than `a` know without a route, and what `a` knew so before, concern `a` only if it forgets. */
  lemma OldOrphanAfterLoss(net: Network, a: u32, s: Router, c: u32, d: u32, b: u32)
    requires Sound(net) && a in net.routers && Loses(net.routers[a], s)
    requires c in net.routers && b in net.routers && b != c && Orphaned(net.routers[c], d)
    requires c == a ==> Orphaned(s, d)
    requires b == a ==> OrphanSurvives(net, a, Lost(net.routers[a], s), Forgotten(net.routers[a], s), d, c)
    ensures HarmlessOrphan(WithRouter(net, a, s), c, d, b)
  {
    assert SaneRouter(net, a) && HarmlessOrphan(net, c, d, b);
    DeclinesAfterLoss(net.routers[a], s, d, net.routers[c].known[d].hopCount);
  }

  lemma OrphansAfterLoss(net: Network, a: u32, s: Router)
    requires Sound(net) && a in net.routers && Loses(net.routers[a], s)
    requires HarmlessLoss(net, a, Lost(net.routers[a], s), Forgotten(net.routers[a], s))
    ensures var after := WithRouter(net, a, s);
      forall c, d, b {:trigger HarmlessOrphan(after, c, d, b)} |
        c in after.routers && b in after.routers && c != b && Orphaned(after.routers[c], d) ::
        HarmlessOrphan(after, c, d, b)
  {
    var after := WithRouter(net, a, s);
    var lost, forgotten := Lost(net.routers[a], s), Forgotten(net.routers[a], s);
    forall c, d, b | c in after.routers && b in after.routers && c != b && Orphaned(after.routers[c], d)
      ensures HarmlessOrphan(after, c, d, b)
    {
      if c == a && d in lost {
        assert OrphanSurvives(net, a, lost, forgotten, d, b);
      } else {
        if b == a { assert OrphanSurvives(net, a, lost, forgotten, d, c); }
        OldOrphanAfterLoss(net, a, s, c, d, b);
      }
    }
  }

  lemma OrphansMustSurvive(net: Network, a: u32, s: Router, d: u32, b: u32)
    requires Sound(net) && a in net.routers && Loses(net.routers[a], s) && b in net.routers && b != a
    requires NoBadOffers(WithRouter(net, a, s))
    ensures OrphanSurvives(net, a, Lost(net.routers[a], s), Forgotten(net.routers[a], s), d, b)
  {
    var after, r := WithRouter(net, a, s), net.routers[a];
    assert SaneRouter(net, a);
    if d in Lost(r, s) && d !in Forgotten(r, s) && d in r.known {
      assert Orphaned(after.routers[a], d) && HarmlessOrphan(after, a, d, b);
    }
    if d in Forgotten(r, s) && Orphaned(net.routers[b], d) {
      assert Orphaned(after.routers[b], d) && HarmlessOrphan(after, b, d, a);
      DeclinesAfterLoss(r, s, d, net.routers[b].known[d].hopCount);
    }
  }

  /** A loss leaves a sound state sound if and only if it is harmless. */
  lemma LossKeepsSoundExactly(net: Network, a: u32, s: Router)
    requires Sound(net) && a in net.routers && Loses(net.routers[a], s)
    ensures Sane(WithRouter(net, a, s))
    ensures Sound(WithRouter(net, a, s)) <==> HarmlessLoss(net, a, Lost(net.routers[a], s), Forgotten(net.routers[a], s))
  {
    var after := WithRouter(net, a, s);
    var lost, forgotten := Lost(net.routers[a], s), Forgotten(net.routers[a], s);
    LossKeepsSane(net, a, s);
    LosingRoutesExactly(net, a, s);
    forall b, d | Relies(net, b, d, a) ensures d !in s.routes <==> d in lost { ReliedOnIsServed(net, b, d, a); }
    forall p | p in net.sent ensures HarmlessPacket(after, p) <==> PacketSurvives(net, a, lost, forgotten, p) {
      assert SanePacket(net, p) && HarmlessPacket(net, p);
      PacketAfterLoss(net, a, s, p);
    }
    if HarmlessLoss(net, a, lost, forgotten) {
      OrphansAfterLoss(net, a, s);
    }
    if Sound(after) {
      forall b, d | b in net.routers && b != a ensures OrphanSurvives(net, a, lost, forgotten, d, b) {
        OrphansMustSurvive(net, a, s, d, b);
      }
    }
  }

  /** So a loss is safe, whatever follows it, if and only if it is harmless. */
  lemma LossIsSafeExactly(net: Network, a: u32, s: Router)
    requires Sound(net) && |net.routers| <= MAX_ROUTING_ENTRIES && a in net.routers && Loses(net.routers[a], s)
    ensures StaysOk(WithRouter(net, a, s)) <==>
              HarmlessLoss(net, a, Lost(net.routers[a], s), Forgotten(net.routers[a], s))
  {
    LossKeepsSoundExactly(net, a, s);
    assert |WithRouter(net, a, s).routers.Keys| == |net.routers.Keys|;
    SafeExactly(WithRouter(net, a, s));
  }

  // ----- removals and expiry -----

  lemma RemovalLoses(r: Router, p: u32)
    requires Consistent(r)
    ensures Loses(r, Remove(r, p)) && Lost(r, Remove(r, p)) == Through(r, p)
    ensures Forgotten(r, Remove(r, p)) == {p} * r.known.Keys
  {
    RemoveKeeps(r, p);
  }

  lemma CleanUpLoses(r: Router, now: nat)
    requires Consistent(r)
    ensures Loses(r, CleanUp(r, now)) && Lost(r, CleanUp(r, now)) == StaleRoutes(r, now)
    ensures Forgotten(r, CleanUp(r, now)) == StalePeers(r, now)
  {
    CleanUpKeeps(r, now);
  }

  ghost predicate HarmlessRemoval(net: Network, a: u32, p: u32)
    requires a in net.routers
  {
    HarmlessLoss(net, a, Through(net.routers[a], p), {p} * net.routers[a].known.Keys)
  }

  ghost predicate HarmlessExpiry(net: Network, a: u32, now: nat)
    requires a in net.routers
  {
    HarmlessLoss(net, a, StaleRoutes(net.routers[a], now), StalePeers(net.routers[a], now))
  }

  /** Removing a peer is safe, whatever steps follow, if and only if nobody relies on a route that goes and every offer of
      one, in a packet of the remover or still to be made by it, will be declined. */
  lemma RemovalIsSafeExactly(net: Network, a: u32, p: u32)
    requires Sound(net) && |net.routers| <= MAX_ROUTING_ENTRIES && a in net.routers
    ensures StaysOk(WithRouter(net, a, Remove(net.routers[a], p))) <==> HarmlessRemoval(net, a, p)
  {
    assert SaneRouter(net, a);
    RemovalLoses(net.routers[a], p);
    LossIsSafeExactly(net, a, Remove(net.routers[a], p));
  }

  lemma CleanUpIsSafeExactly(net: Network, a: u32, now: nat)
    requires Sound(net) && |net.routers| <= MAX_ROUTING_ENTRIES && a in net.routers
    ensures StaysOk(WithRouter(net, a, CleanUp(net.routers[a], now))) <==> HarmlessExpiry(net, a, now)
  {
    assert SaneRouter(net, a);
    CleanUpLoses(net.routers[a], now);
    LossIsSafeExactly(net, a, CleanUp(net.routers[a], now));
  }

  // ----- the first loss -----

  predicate Offers(p: Packet, d: u32) {
    exists i :: 0 <= i < |p.update.updates| && p.update.updates[i].peerId == d
  }

  ghost predicate NotOffered(net: Network, a: u32, lost: set<u32>) {
    forall p, d | p in net.sent && p.from == a && d in lost :: !Offers(p, d)
  }

  lemma ServedUntilLost(net: Network, a: u32, s: Router, p: Packet)
    requires a in net.routers && OnlyLoses(net.routers[a], s) && PacketOk(net, p)
    requires p.from == a ==> forall d | d in Lost(net.routers[a], s) :: !Offers(p, d)
    ensures PacketOk(WithRouter(net, a, s), p)
  {
    var after := WithRouter(net, a, s);
    forall i | 0 <= i < |p.update.updates|
      ensures Serves(after, p.from, p.update.updates[i].peerId, p.update.updates[i].hopCount)
    {
      assert Offers(p, p.update.updates[i].peerId);
    }
  }

  lemma OfferedMustBeServed(net: Network, a: u32, s: Router, p: Packet, d: u32)
    requires a in net.routers && p.from == a && d in Lost(net.routers[a], s) && Offers(p, d)
    ensures !PacketOk(WithRouter(net, a, s), p)
  {
    var i :| 0 <= i < |p.update.updates| && p.update.updates[i].peerId == d;
    assert !Serves(WithRouter(net, a, s), a, p.update.updates[i].peerId, p.update.updates[i].hopCount);
  }

  /** A loss keeps the invariant of the network, and with it all that the runs of the network guarantee, if and only if
      nobody relies on what is lost, all of it is forgotten, no neighbour is lost, and no packet offers it. */
  lemma LossKeepsInvariantExactly(net: Network, a: u32, s: Router)
    requires Invariant(net) && a in net.routers && Loses(net.routers[a], s)
    ensures Invariant(WithRouter(net, a, s)) <==>
              var lost := Lost(net.routers[a], s);
              && NobodyRelies(net, a, lost) && NotOffered(net, a, lost)
              && lost == Forgotten(net.routers[a], s) && s.direct !! lost
  {
    var after, lost := WithRouter(net, a, s), Lost(net.routers[a], s);
    InvariantIsSound(net);
    LosingRoutesExactly(net, a, s);
    forall b, d | Relies(net, b, d, a) ensures d !in s.routes <==> d in lost { ReliedOnIsServed(net, b, d, a); }
    OthersStayOk(net, a, s);
    if NotOffered(net, a, lost) {
      forall p | p in net.sent ensures PacketOk(after, p) {
        assert PacketOk(net, p);
        ServedUntilLost(net, a, s, p);
      }
    } else {
      var p, d :| p in net.sent && p.from == a && d in lost && Offers(p, d);
      OfferedMustBeServed(net, a, s, p, d);
      assert p in after.sent;
    }
  }

  lemma OthersStayOk(net: Network, a: u32, s: Router)
    requires Invariant(net) && a in net.routers && Loses(net.routers[a], s)
    ensures var after := WithRouter(net, a, s);
      && LinksOk(after)
      && ((forall b {:trigger RouterOk(after, b)} | b in after.routers :: RouterOk(after, b)) <==>
            Lost(net.routers[a], s) == Forgotten(net.routers[a], s) && s.direct !! Lost(net.routers[a], s))
  {
    var after, r := WithRouter(net, a, s), net.routers[a];
    assert RouterOk(net, a);
    forall b | b in after.routers && b != a ensures RouterOk(after, b) { assert RouterOk(net, b); }
    assert r.known.Keys == r.routes.Keys;
    assert s.known.Keys == s.routes.Keys <==> Lost(r, s) == Forgotten(r, s) by {
      assert s.known.Keys == r.known.Keys - Forgotten(r, s) && s.routes.Keys == r.routes.Keys - Lost(r, s);
      assert Forgotten(r, s) == r.known.Keys - s.known.Keys && Lost(r, s) == r.routes.Keys - s.routes.Keys;
    }
    forall p | p in s.direct ensures p in s.routes <==> p !in Lost(r, s) { assert p in r.direct; }
    assert RouterOk(after, a) <==> Lost(r, s) == Forgotten(r, s) && s.direct !! Lost(r, s) by {
      if s.direct !! Lost(r, s) {
        forall p | p in s.direct ensures p in s.routes && s.routes[p].hopCount == 1 { assert p in r.direct; }
      }
      if RouterOk(after, a) {
        forall p | p in s.direct ensures p !in Lost(r, s) { assert p in s.routes; }
      }
    }
  }

  lemma RemovalKeepsInvariantExactly(net: Network, a: u32, p: u32)
    requires Invariant(net) && a in net.routers
    ensures Invariant(WithRouter(net, a, Remove(net.routers[a], p))) <==>
              var lost := Through(net.routers[a], p);
              lost <= {p} && NobodyRelies(net, a, lost) && NotOffered(net, a, lost)
  {
    var r := net.routers[a];
    assert RouterOk(net, a);
    RemovalLoses(r, p);
    LossKeepsInvariantExactly(net, a, Remove(r, p));
    assert Through(r, p) <= {p} <==> Through(r, p) == {p} * r.known.Keys;
  }

  lemma CleanUpKeepsInvariantExactly(net: Network, a: u32, now: nat)
    requires Invariant(net) && a in net.routers
    ensures Invariant(WithRouter(net, a, CleanUp(net.routers[a], now))) <==>
              var lost := StaleRoutes(net.routers[a], now);
              && lost == StalePeers(net.routers[a], now) && net.routers[a].direct !! lost
              && NobodyRelies(net, a, lost) && NotOffered(net, a, lost)
  {
    assert RouterOk(net, a);
    CleanUpLoses(net.routers[a], now);
    LossKeepsInvariantExactly(net, a, CleanUp(net.routers[a], now));
  }

  /** From such a state the condition for safety is about the tables of the others and the packets of the loser alone. */
  lemma FirstLossIsSafeExactly(net: Network, a: u32, s: Router)
    requires Invariant(net) && |net.routers| <= MAX_ROUTING_ENTRIES && a in net.routers && Loses(net.routers[a], s)
    ensures StaysOk(WithRouter(net, a, s)) <==>
              var r, lost := net.routers[a], Lost(net.routers[a], s);
              && NobodyRelies(net, a, lost)
              && (forall p, i | p in net.sent && p.from == a && 0 <= i < |p.update.updates|
                                && p.update.updates[i].peerId in lost ::
                    p.to in net.routers
                    && Declines(net.routers[p.to], p.update.updates[i].peerId, p.update.updates[i].hopCount))
              && (forall b, d | b in net.routers && b != a && d in lost - Forgotten(r, s) ::
                    Declines(net.routers[b], d, r.routes[d].hopCount))
  {
    InvariantIsSound(net);
    LossIsSafeExactly(net, a, s);
    var r, lost, forgotten := net.routers[a], Lost(net.routers[a], s), Forgotten(net.routers[a], s);
    forall p | p in net.sent
      ensures PacketSurvives(net, a, lost, forgotten, p) <==>
                p.from == a ==>
                  forall i | 0 <= i < |p.update.updates| && p.update.updates[i].peerId in lost ::
                    p.to in net.routers
                    && Declines(net.routers[p.to], p.update.updates[i].peerId, p.update.updates[i].hopCount)
    {
      assert PacketOk(net, p);
    }
    forall b, d | b in net.routers && b != a
      ensures OrphanSurvives(net, a, lost, forgotten, d, b) <==>
                d in lost - forgotten ==> Declines(net.routers[b], d, r.routes[d].hopCount)
    {
      assert RouterOk(net, a) && RouterOk(net, b);
      if d in r.routes { assert GoodRoute(r, d); }
    }
  }
}
