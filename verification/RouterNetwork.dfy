/** Routers exchanging route updates. Packets stay in `sent`, so that they can arrive late, repeatedly, in any order or
    never. Nothing is removed and nothing expires. */
module RouterNetwork {
  import opened Bounded
  import opened RouterLearning
  import opened RouterModel
  import opened RoutingData

  datatype Packet = Packet(from: u32, to: u32, update: RouteUpdate)

  /** `links` is symmetric. */
  datatype Network = Network(routers: map<u32, Router>, links: set<(u32, u32)>, sent: set<Packet>)

  datatype Step =
    | Connect(router: u32, peer: u32, ip: Bytes, port: u16, now: nat)      // one end adds the other
    | Broadcast(router: u32, updates: seq<PeerInfo>)
    | Reply(router: u32, requester: u32, updates: seq<PeerInfo>)           // to a topology sync
    | Deliver(packet: Packet, seen: RouteUpdate, now: nat)
    | Maintain(router: u32, now: nat)

  /** What arrives names the same peers at the same hop counts; encoding may have touched the rest. */
  ghost predicate SameRoutes(m: RouteUpdate, seen: RouteUpdate) {
    && seen.source == m.source && seen.hopCount == m.hopCount && |seen.updates| == |m.updates|
    && forall i | 0 <= i < |m.updates| ::
         seen.updates[i].peerId == m.updates[i].peerId && seen.updates[i].hopCount == m.updates[i].hopCount
  }

  ghost predicate NothingExpired(r: Router, now: nat) {
    && (forall d | d in r.known :: !Expired(r.known[d].lastSeen, now))
    && (forall d | d in r.routes :: !Expired(r.routes[d].lastUpdated, now))
  }

  ghost predicate Enabled(net: Network, s: Step) {
    match s
    case Connect(a, b, _, _, _) => a in net.routers && b in net.routers && a != b
    case Broadcast(a, updates) =>
      a in net.routers && net.routers[a].known != map[] && Lists(net.routers[a].known, {}, updates)
    case Reply(a, b, updates) =>
      a in net.routers && (a, b) in net.links && Lists(net.routers[a].known, {b}, updates)
    case Deliver(p, seen, _) => p in net.sent && p.to in net.routers && SameRoutes(p.update, seen)
    case Maintain(a, now) => a in net.routers && NothingExpired(net.routers[a], now)
  }

  function BroadcastOf(r: Router, updates: seq<PeerInfo>): RouteUpdate {
    RouteUpdate(r.id, updates, NextSequence(r.sequence), 0)
  }

  function Copies(from: u32, targets: set<u32>, m: RouteUpdate): set<Packet> {
    set t | t in targets :: Packet(from, t, m)
  }

  function Next(net: Network, s: Step): Network
    requires Enabled(net, s)
  {
    match s
    case Connect(a, b, ip, port, now) =>
      net.(routers := net.routers[a := AddDirect(net.routers[a], b, ip, port, now)],
           links := net.links + {(a, b), (b, a)})
    case Broadcast(a, updates) =>
      var r := net.routers[a];
      net.(routers := net.routers[a := r.(sequence := NextSequence(r.sequence))],
           sent := net.sent + Copies(a, r.direct, BroadcastOf(r, updates)))
    case Reply(a, b, updates) =>
      var r := net.routers[a];
      net.(sent := net.sent + {Packet(a, b, RouteUpdate(a, updates, r.sequence, 0))})
    case Deliver(p, seen, now) =>
      net.(routers := net.routers[p.to := HandleUpdate(net.routers[p.to], seen, now)])
    case Maintain(a, now) => net.(routers := net.routers[a := CleanUp(net.routers[a], now)])
  }

  ghost predicate Initial(net: Network) {
    && net.links == {} && net.sent == {}
    && forall a | a in net.routers :: net.routers[a] == Router(a, map[], map[], {}, 0)
  }

  ghost predicate IsRun(start: Network, steps: seq<Step>)
    decreases |steps|, 0
  {
    steps == []
    || (IsRun(start, steps[..|steps| - 1]) && Enabled(Run(start, steps[..|steps| - 1]), steps[|steps| - 1]))
  }

  ghost function Run(start: Network, steps: seq<Step>): Network
    requires IsRun(start, steps)
    decreases |steps|, 1
  {
    if steps == [] then start else Next(Run(start, steps[..|steps| - 1]), steps[|steps| - 1])
  }

  // ----- the invariant -----

  /** The router has a route to `d` of at most `hops` hops. */
  predicate Serves(net: Network, n: u32, d: u32, hops: int) {
    n in net.routers && d in net.routers[n].routes && net.routers[n].routes[d].hopCount <= hops
  }

  ghost predicate RouterOk(net: Network, a: u32)
    requires a in net.routers
  {
    var r := net.routers[a];
    && r.id == a && Consistent(r) && Complete(r)
    && forall p | p in r.direct :: (a, p) in net.links && p in r.routes && r.routes[p].hopCount == 1
  }

  /** A route is a link to its destination, or leads over a link to a router that is strictly closer. */
  ghost predicate RouteOk(net: Network, a: u32, d: u32)
    requires a in net.routers && d in net.routers[a].routes
  {
    var e := net.routers[a].routes[d];
    && d in net.routers && (a, e.nextHop) in net.links
    && if e.nextHop == d then e.hopCount == 1 else Serves(net, e.nextHop, d, e.hopCount - 1)
  }

  ghost predicate PacketOk(net: Network, p: Packet) {
    && p.update.source == p.from && p.update.hopCount == 0 && (p.from, p.to) in net.links
    && forall i | 0 <= i < |p.update.updates| ::
         InRange(p.update.updates[i].hopCount)
         && Serves(net, p.from, p.update.updates[i].peerId, p.update.updates[i].hopCount)
  }

  ghost predicate LinksOk(net: Network) {
    forall l | l in net.links :: l.0 in net.routers && l.1 in net.routers && l.0 != l.1 && (l.1, l.0) in net.links
  }

  ghost predicate Invariant(net: Network) {
    && LinksOk(net)
    && (forall a {:trigger RouterOk(net, a)} | a in net.routers :: RouterOk(net, a))
    && (forall a, d {:trigger RouteOk(net, a, d)} | a in net.routers && d in net.routers[a].routes :: RouteOk(net, a, d))
    && (forall p {:trigger PacketOk(net, p)} | p in net.sent :: PacketOk(net, p))
  }

  /** No router, link, packet or route is lost, and no route gets longer. */
  ghost predicate Grows(net: Network, after: Network) {
    && after.routers.Keys == net.routers.Keys && net.links <= after.links && net.sent <= after.sent
    && forall a | a in net.routers :: NotWorse(net.routers[a], after.routers[a])
  }

  lemma ServesPersists(net: Network, after: Network, n: u32, d: u32, hops: int)
    requires Grows(net, after) && Serves(net, n, d, hops)
    ensures Serves(after, n, d, hops)
  {
    assert NotWorse(net.routers[n], after.routers[n]);
  }

  lemma RoutePersists(net: Network, after: Network, a: u32, d: u32)
    requires Grows(net, after) && a in net.routers && d in net.routers[a].routes && RouteOk(net, a, d)
    requires a in after.routers && d in after.routers[a].routes && after.routers[a].routes[d] == net.routers[a].routes[d]
    ensures RouteOk(after, a, d)
  {
    var e := net.routers[a].routes[d];
    if e.nextHop != d { ServesPersists(net, after, e.nextHop, d, e.hopCount - 1); }
  }

  lemma PacketPersists(net: Network, after: Network, p: Packet)
    requires Grows(net, after) && PacketOk(net, p)
    ensures PacketOk(after, p)
  {
    forall i | 0 <= i < |p.update.updates|
      ensures Serves(after, p.from, p.update.updates[i].peerId, p.update.updates[i].hopCount)
    {
      ServesPersists(net, after, p.from, p.update.updates[i].peerId, p.update.updates[i].hopCount);
    }
  }

  lemma GrowsAt(net: Network, after: Network, a: u32)
    requires a in net.routers && a in after.routers && after.routers == net.routers[a := after.routers[a]]
    requires NotWorse(net.routers[a], after.routers[a]) && net.links <= after.links && net.sent == after.sent
    ensures Grows(net, after)
  {
    forall b | b in net.routers ensures NotWorse(net.routers[b], after.routers[b]) {
    }
  }

  predicate HasRoute(r: Router, d: u32, e: RouteEntry) {
    d in r.routes && r.routes[d] == e
  }

  /** When one router changes, what has to be shown is about its new routes. */
  lemma OneChanged(net: Network, after: Network, a: u32)
    requires Invariant(net) && a in net.routers && a in after.routers
    requires after.routers == net.routers[a := after.routers[a]]
    requires NotWorse(net.routers[a], after.routers[a]) && net.links <= after.links && net.sent == after.sent
    requires LinksOk(after) && RouterOk(after, a)
    requires forall d | d in after.routers[a].routes && !HasRoute(net.routers[a], d, after.routers[a].routes[d]) ::
               RouteOk(after, a, d)
    ensures Grows(net, after) && Invariant(after)
  {
    GrowsAt(net, after, a);
    forall b | b in after.routers ensures RouterOk(after, b) {
      if b != a { assert RouterOk(net, b); }
    }
    forall b, d | b in after.routers && d in after.routers[b].routes ensures RouteOk(after, b, d) {
      if b != a || HasRoute(net.routers[a], d, after.routers[a].routes[d]) {
        assert RouteOk(net, b, d);
        RoutePersists(net, after, b, d);
      }
    }
    forall p | p in after.sent ensures PacketOk(after, p) {
      PacketPersists(net, after, p);
    }
  }

  // ----- every step keeps it -----

  lemma DirectIsNotWorse(r: Router, b: u32, ip: Bytes, port: u16, now: nat)
    requires Consistent(r) && b != r.id
    ensures var s := AddDirect(r, b, ip, port, now);
      && Consistent(s) && (Complete(r) ==> Complete(s)) && NotWorse(r, s) && s.direct == r.direct + {b}
      && s.routes[b].hopCount == 1 && s.routes[b].nextHop == b
      && forall d | d in s.routes && d != b :: HasRoute(r, d, s.routes[d])
  {
    AddDirectKeeps(r, b, ip, port, now);
    var s := AddDirect(r, b, ip, port, now);
    forall d | d in r.routes ensures d in s.routes && s.routes[d].hopCount <= r.routes[d].hopCount {
      assert GoodRoute(r, d) && GoodPeer(r.known, d);
    }
  }

  lemma ConnectKeeps(net: Network, a: u32, b: u32, ip: Bytes, port: u16, now: nat)
    requires Invariant(net) && Enabled(net, Connect(a, b, ip, port, now))
    ensures Grows(net, Next(net, Connect(a, b, ip, port, now)))
    ensures Invariant(Next(net, Connect(a, b, ip, port, now)))
  {
    var after := Next(net, Connect(a, b, ip, port, now));
    assert RouterOk(net, a);
    DirectIsNotWorse(net.routers[a], b, ip, port, now);
    assert LinksOk(after) && RouterOk(after, a);
    assert RouteOk(after, a, b);
    OneChanged(net, after, a);
  }

  lemma SequenceKeeps(net: Network, a: u32, sequence: u64)
    requires Invariant(net) && a in net.routers
    ensures var after := net.(routers := net.routers[a := net.routers[a].(sequence := sequence)]);
      Grows(net, after) && Invariant(after)
  {
    var after := net.(routers := net.routers[a := net.routers[a].(sequence := sequence)]);
    assert RouterOk(net, a);
    SameTables(net.routers[a], sequence);
    assert RouterOk(after, a);
    OneChanged(net, after, a);
  }

  lemma SameTables(r: Router, sequence: u64)
    requires Consistent(r)
    ensures var s := r.(sequence := sequence);
      && Consistent(s) && (Complete(r) ==> Complete(s)) && NotWorse(r, s)
      && forall d | d in s.routes :: HasRoute(r, d, s.routes[d])
  {
    var s := r.(sequence := sequence);
    assert forall d | d in r.routes :: GoodRoute(r, d) && GoodRoute(s, d);
  }

  /** What a router lists, it serves. */
  lemma ListedPacketIsOk(net: Network, p: Packet, except: set<u32>)
    requires Invariant(net) && p.from in net.routers && (p.from, p.to) in net.links
    requires p.update.source == p.from && p.update.hopCount == 0
    requires Lists(net.routers[p.from].known, except, p.update.updates)
    ensures PacketOk(net, p)
  {
    var r := net.routers[p.from];
    assert RouterOk(net, p.from);
    forall i | 0 <= i < |p.update.updates|
      ensures InRange(p.update.updates[i].hopCount)
      ensures Serves(net, p.from, p.update.updates[i].peerId, p.update.updates[i].hopCount)
    {
      var u := p.update.updates[i];
      assert Listed(r.known, except, u);
      assert GoodPeer(r.known, u.peerId);
      assert u.peerId in r.routes && GoodRoute(r, u.peerId);
    }
  }

  /** Broadcasts are numbered one after the other, and answers carry the number that is current. */
  lemma SendsAreNumbered(net: Network, s: Step, p: Packet)
    requires (s.Broadcast? || s.Reply?) && Enabled(net, s) && p in Next(net, s).sent && p !in net.sent
    ensures p.from == s.router && p.update.updates == s.updates && p.update.hopCount == 0
    ensures p.update.sequence == Next(net, s).routers[s.router].sequence
            == (net.routers[s.router].sequence + if s.Broadcast? then 1 else 0) % 0x1_0000_0000_0000_0000
  {
  }

  lemma SendKeeps(net: Network, packets: set<Packet>)
    requires Invariant(net) && forall p | p in packets :: PacketOk(net, p)
    ensures Grows(net, net.(sent := net.sent + packets)) && Invariant(net.(sent := net.sent + packets))
  {
    var after := net.(sent := net.sent + packets);
    forall a | a in after.routers ensures RouterOk(after, a) { assert RouterOk(net, a); }
    forall a, d | a in after.routers && d in after.routers[a].routes ensures RouteOk(after, a, d) {
      assert RouteOk(net, a, d);
      RoutePersists(net, after, a, d);
    }
    forall p | p in after.sent ensures PacketOk(after, p) { PacketPersists(net, after, p); }
  }

  lemma GrowsIsTransitive(a: Network, b: Network, c: Network)
    requires Grows(a, b) && Grows(b, c)
    ensures Grows(a, c)
  {
    forall n | n in a.routers ensures NotWorse(a.routers[n], c.routers[n]) {
      NotWorseIsTransitive(a.routers[n], b.routers[n], c.routers[n]);
    }
  }

  lemma BroadcastKeeps(net: Network, a: u32, updates: seq<PeerInfo>)
    requires Invariant(net) && Enabled(net, Broadcast(a, updates))
    ensures Grows(net, Next(net, Broadcast(a, updates))) && Invariant(Next(net, Broadcast(a, updates)))
  {
    var r := net.routers[a];
    var counted := net.(routers := net.routers[a := r.(sequence := NextSequence(r.sequence))]);
    SequenceKeeps(net, a, NextSequence(r.sequence));
    assert RouterOk(net, a);
    var packets := Copies(a, r.direct, BroadcastOf(r, updates));
    forall p | p in packets ensures PacketOk(counted, p) { ListedPacketIsOk(counted, p, {}); }
    SendKeeps(counted, packets);
    GrowsIsTransitive(net, counted, Next(net, Broadcast(a, updates)));
  }

  lemma ReplyKeeps(net: Network, a: u32, b: u32, updates: seq<PeerInfo>)
    requires Invariant(net) && Enabled(net, Reply(a, b, updates))
    ensures Grows(net, Next(net, Reply(a, b, updates))) && Invariant(Next(net, Reply(a, b, updates)))
  {
    var p := Packet(a, b, RouteUpdate(a, updates, net.routers[a].sequence, 0));
    ListedPacketIsOk(net, p, {b});
    SendKeeps(net, {p});
  }

  lemma UneventfulCleanUp(r: Router, now: nat)
    requires Consistent(r) && NothingExpired(r, now)
    ensures var s := CleanUp(r, now);
      && Consistent(s) && (Complete(r) ==> Complete(s)) && NotWorse(r, s)
      && s.routes == r.routes && s.direct == r.direct && s.id == r.id
  {
    CleanUpKeeps(r, now);
    assert CleanUp(r, now).known.Keys == r.known.Keys;
  }

  lemma MaintainKeeps(net: Network, a: u32, now: nat)
    requires Invariant(net) && Enabled(net, Maintain(a, now))
    ensures Grows(net, Next(net, Maintain(a, now))) && Invariant(Next(net, Maintain(a, now)))
  {
    var after := Next(net, Maintain(a, now));
    assert RouterOk(net, a);
    UneventfulCleanUp(net.routers[a], now);
    assert RouterOk(after, a);
    OneChanged(net, after, a);
  }

  /** The tables after an update, whether or not the sequence number has moved on. */
  lemma HandledTables(r: Router, m: RouteUpdate, now: nat)
    requires Heeds(r, m)
    ensures var s, t := HandleUpdate(r, m, now), ApplyAll(r, m.source, m.updates, now);
      s.(sequence := t.sequence) == t
  {
  }

  lemma SeenIsSensible(net: Network, p: Packet, seen: RouteUpdate)
    requires PacketOk(net, p) && SameRoutes(p.update, seen)
    ensures Sensible(seen.updates)
  {
    forall i | 0 <= i < |seen.updates| ensures seen.updates[i].hopCount != 255 {
      assert InRange(p.update.updates[i].hopCount);
    }
  }

  lemma HandledRouter(r: Router, m: RouteUpdate, now: nat)
    requires Consistent(r) && Sensible(m.updates)
    ensures var s := HandleUpdate(r, m, now);
      && Consistent(s) && (Complete(r) ==> Complete(s)) && NotWorse(r, s) && s.direct == r.direct
      && forall d | d in s.routes :: OldOrLearned(r, s, m.source, m.updates, d)
  {
    if Heeds(r, m) {
      ApplyAllLearns(r, m.source, m.updates, now);
      HandleUpdateKeeps(r, m, now);
      HandledTables(r, m, now);
      var s, t := HandleUpdate(r, m, now), ApplyAll(r, m.source, m.updates, now);
      forall d | d in s.routes ensures OldOrLearned(r, s, m.source, m.updates, d) {
        assert OldOrLearned(r, t, m.source, m.updates, d);
      }
    }
  }

  lemma LearnedRouteIsOk(net: Network, after: Network, p: Packet, seen: RouteUpdate, d: u32, i: nat)
    requires Invariant(net) && Grows(net, after) && PacketOk(net, p) && SameRoutes(p.update, seen)
    requires p.to in after.routers && d in after.routers[p.to].routes && d != p.to && i < |seen.updates|
    requires LearnedFrom(after.routers[p.to].routes[d], d, seen.source, seen.updates[i])
    ensures RouteOk(after, p.to, d)
  {
    var u := p.update.updates[i];
    assert Serves(net, p.from, d, u.hopCount) && RouterOk(net, p.from);
    assert RouteOk(net, p.from, d);
    ServesPersists(net, after, p.from, d, u.hopCount);
  }

  lemma DeliverKeeps(net: Network, p: Packet, seen: RouteUpdate, now: nat)
    requires Invariant(net) && Enabled(net, Deliver(p, seen, now))
    ensures Grows(net, Next(net, Deliver(p, seen, now))) && Invariant(Next(net, Deliver(p, seen, now)))
  {
    var after := Next(net, Deliver(p, seen, now));
    var r, s := net.routers[p.to], after.routers[p.to];
    assert RouterOk(net, p.to) && PacketOk(net, p);
    SeenIsSensible(net, p, seen);
    HandledRouter(r, seen, now);
    assert RouterOk(after, p.to);
    GrowsAt(net, after, p.to);
    forall d | d in s.routes && !HasRoute(r, d, s.routes[d]) ensures RouteOk(after, p.to, d) {
      assert OldOrLearned(r, s, seen.source, seen.updates, d);
      var i :| 0 <= i < |seen.updates| && LearnedFrom(s.routes[d], d, seen.source, seen.updates[i]);
      LearnedRouteIsOk(net, after, p, seen, d, i);
    }
    OneChanged(net, after, p.to);
  }

  lemma StepKeeps(net: Network, s: Step)
    requires Invariant(net) && Enabled(net, s)
    ensures Grows(net, Next(net, s)) && Invariant(Next(net, s))
  {
    match s
    case Connect(a, b, ip, port, now) => ConnectKeeps(net, a, b, ip, port, now);
    case Broadcast(a, updates) => BroadcastKeeps(net, a, updates);
    case Reply(a, b, updates) => ReplyKeeps(net, a, b, updates);
    case Deliver(p, seen, now) => DeliverKeeps(net, p, seen, now);
    case Maintain(a, now) => MaintainKeeps(net, a, now);
  }

  lemma {:induction false} RunKeeps(start: Network, steps: seq<Step>)
    requires Invariant(start) && IsRun(start, steps)
    ensures Grows(start, Run(start, steps)) && Invariant(Run(start, steps))
    decreases |steps|
  {
    if steps != [] {
      var before := steps[..|steps| - 1];
      RunKeeps(start, before);
      StepKeeps(Run(start, before), steps[|steps| - 1]);
      GrowsIsTransitive(start, Run(start, before), Run(start, steps));
    }
  }

  lemma InitialIsOk(start: Network)
    requires Initial(start)
    ensures Invariant(start)
  {
    forall a | a in start.routers ensures RouterOk(start, a) {
      assert start.routers[a] == Router(a, map[], map[], {}, 0);
    }
  }
}
