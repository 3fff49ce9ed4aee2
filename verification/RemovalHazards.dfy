/** What removals spoil does happen: for any routers there are runs from a fresh start that lead to a loop, to an orphan
    that is passed on, and to a packet that comes too late. */
module RemovalHazards {
  import opened Bounded
  import opened RoundExists
  import opened RouteConvergence
  import opened RouteSafety
  import opened RouterLearning
  import opened RouterLoss
  import opened RouterModel
  import opened RouterNetwork
  import opened RouterRemoval
  import opened RoutingData

  /** Routers that know nothing. */
  function Fresh(ids: set<u32>): Network {
    Network(map r | r in ids :: Router(r, map[], map[], {}, 0), {}, {})
  }

  function Up(a: u32, b: u32): Step {
    Connect(a, b, [], 0, 0)
  }

  /** Nobody has learned anything from another yet. */
  predicate Isolated(r: Router) {
    r.known.Keys <= r.direct
  }

  predicate Silent(net: Network) {
    net.sent == {} && forall a | a in net.routers :: Isolated(net.routers[a])
  }

  predicate OnlyUps(steps: seq<Step>) {
    forall i | 0 <= i < |steps| :: steps[i].Connect?
  }

  lemma {:induction false} UpsAreSilent(start: Network, steps: seq<Step>)
    requires Silent(start) && IsRun(start, steps) && OnlyUps(steps)
    ensures Silent(Run(start, steps))
    decreases |steps|
  {
    if steps != [] {
      UpsAreSilent(start, steps[..|steps| - 1]);
      UpIsSilent(Run(start, steps[..|steps| - 1]), steps[|steps| - 1]);
    }
  }

  lemma UpIsSilent(net: Network, s: Step)
    requires Silent(net) && s.Connect? && Enabled(net, s)
    ensures Silent(Next(net, s))
  {
    assert Isolated(net.routers[s.router]);
  }

  lemma UpAdds(net: Network, a: u32, b: u32)
    requires Invariant(net) && a in net.routers && b in net.routers && a != b
    ensures Enabled(net, Up(a, b))
    ensures var after := Next(net, Up(a, b));
      && Invariant(after) && Grows(net, after)
      && after.links == net.links + {(a, b), (b, a)} && b in after.routers[a].direct
  {
    StepKeeps(net, Up(a, b));
  }

  lemma DirectStays(net: Network, after: Network, a: u32, b: u32)
    requires Grows(net, after) && a in net.routers && b in net.routers[a].direct
    ensures a in after.routers && b in after.routers[a].direct
  {
    assert NotWorse(net.routers[a], after.routers[a]);
  }

  /** Both ends of a link come up. */
  lemma LinkComesUp(start: Network, steps: seq<Step>, a: u32, b: u32) returns (more: seq<Step>)
    requires IsRun(start, steps) && Invariant(Run(start, steps)) && a != b
    requires a in Run(start, steps).routers && b in Run(start, steps).routers
    ensures IsRun(start, more)
    ensures var net, after := Run(start, steps), Run(start, more);
      && Invariant(after) && Grows(net, after) && after.links == net.links + {(a, b), (b, a)}
      && BothUp(after, a, b)
    ensures OnlyUps(steps) ==> OnlyUps(more)
  {
    var net := Run(start, steps);
    TwoUps(net, a, b);
    more := ExtendTwice(start, steps, Up(a, b), Up(b, a));
  }

  lemma TwoUps(net: Network, a: u32, b: u32)
    requires Invariant(net) && a in net.routers && b in net.routers && a != b
    ensures Enabled(net, Up(a, b)) && Enabled(Next(net, Up(a, b)), Up(b, a))
    ensures var after := Next(Next(net, Up(a, b)), Up(b, a));
      Invariant(after) && Grows(net, after) && after.links == net.links + {(a, b), (b, a)} && BothUp(after, a, b)
  {
    UpAdds(net, a, b);
    var half := Next(net, Up(a, b));
    UpAdds(half, b, a);
    var after := Next(half, Up(b, a));
    DirectStays(half, after, a, b);
    GrowsIsTransitive(net, half, after);
  }

  lemma FreshIsOk(ids: set<u32>)
    ensures Initial(Fresh(ids)) && Invariant(Fresh(ids)) && Silent(Fresh(ids)) && Fresh(ids).routers.Keys == ids
  {
    assert Fresh(ids).routers.Keys == ids;
    InitialIsOk(Fresh(ids));
  }

  ghost predicate BothUp(net: Network, a: u32, b: u32) {
    && a in net.routers && b in net.routers
    && b in net.routers[a].direct && a in net.routers[b].direct
  }

  /** Both ends of the links between `a` and each of `b` and `p` come up. */
  lemma RowComesUp(start: Network, a: u32, b: u32, p: u32) returns (steps: seq<Step>)
    requires a != b && b != p && a != p
    requires Invariant(start) && Silent(start) && start.links == {} && {a, b, p} <= start.routers.Keys
    requires |start.routers| <= MAX_ROUTING_ENTRIES
    ensures IsRun(start, steps) && Settled(Run(start, steps)) && Grows(start, Run(start, steps))
    ensures Silent(Run(start, steps)) && Run(start, steps).links == {(a, b), (b, a), (a, p), (p, a)}
  {
    var first := LinkComesUp(start, [], a, b);
    var one := Run(start, first);
    assert one.links == {(a, b), (b, a)} && one.routers.Keys == start.routers.Keys;
    assert |one.routers| == |one.routers.Keys| == |start.routers.Keys| == |start.routers|;
    steps := LinkComesUp(start, first, a, p);
    LaterLink(one, Run(start, steps), a, b, p);
    GrowsIsTransitive(start, one, Run(start, steps));
    UpsAreSilent(start, steps);
  }

  lemma LaterLink(one: Network, two: Network, a: u32, b: u32, p: u32)
    requires BothUp(one, a, b) && BothUp(two, a, p) && Grows(one, two) && Invariant(two)
    requires |one.routers| <= MAX_ROUTING_ENTRIES
    requires one.links == {(a, b), (b, a)} && two.links == one.links + {(a, p), (p, a)}
    ensures Settled(two) && two.links == {(a, b), (b, a), (a, p), (p, a)}
  {
    DirectStays(one, two, a, b);
    DirectStays(one, two, b, a);
    assert |one.routers| == |one.routers.Keys| == |two.routers.Keys| == |two.routers|;
    RowIsSettled(two, a, b, p);
  }

  lemma RowIsSettled(net: Network, a: u32, b: u32, p: u32)
    requires Invariant(net) && BothUp(net, a, b) && BothUp(net, a, p) && |net.routers| <= MAX_ROUTING_ENTRIES
    requires net.links == {(a, b), (b, a), (a, p), (p, a)}
    ensures Settled(net)
  {
    forall x, y | Linked(net, x, y) ensures x in net.routers && y in net.routers[x].direct {
      assert (x, y) == (a, b) || (x, y) == (b, a) || (x, y) == (a, p) || (x, y) == (p, a);
    }
  }

  /** One more exchange from `a` to `b` passes on the route to a neighbour of `a`. */
  lemma OneExchange(net: Network, a: u32, b: u32, p: u32) returns (send: Step, receive: Step)
    requires Settled(net) && Linked(net, a, b) && Linked(net, a, p) && b != p
    ensures Enabled(net, send) && Enabled(Next(net, send), receive)
    ensures var after := Next(Next(net, send), receive);
      Invariant(after) && Serves(after, b, p, 2) && after.links == net.links
    ensures send.Broadcast? && receive.Deliver? && receive.packet.to == b
  {
    var updates := CanBroadcast(net, a, b);
    var packet := Packet(a, b, BroadcastOf(net.routers[a], updates));
    send, receive := Broadcast(a, updates), Deliver(packet, packet.update, 0);
    CanDeliver(net, a, b, updates, packet);
    LinkIsRoute(net, a, p);
    var i := BroadcastLists(net, a, updates, p, 1);
    StepKeeps(net, send);
    QuietStepKeepsGraph(net, send);
    var sent := Next(net, send);
    assert |net.routers| == |net.routers.Keys| && |sent.routers| == |sent.routers.Keys|;
    DeliveryTeaches(sent, packet, packet.update, 0, i, 1);
    StepKeeps(sent, receive);
  }

  /** An exchange changes the tables of the receiver only. */
  lemma OthersLearnNothing(net: Network, send: Step, receive: Step)
    requires Invariant(net) && send.Broadcast? && receive.Deliver? && Enabled(net, send) && Enabled(Next(net, send), receive)
    ensures var after := Next(Next(net, send), receive);
      && after.routers.Keys == net.routers.Keys
      && forall c | c in net.routers && c != receive.packet.to ::
           after.routers[c].known == net.routers[c].known && after.routers[c].direct == net.routers[c].direct
  {
  }

  /** Where `b` has no neighbour but `a`, every route of `b` further on leads through `a`. */
  lemma OnlyWay(net: Network, a: u32, b: u32, p: u32)
    requires Invariant(net) && net.links == {(a, b), (b, a), (a, p), (p, a)} && a != b && b != p && a != p
    requires Serves(net, b, p, 2)
    ensures Relies(net, b, p, a) && net.routers[b].routes[p].hopCount == 2
  {
    assert RouteOk(net, b, p) && RouterOk(net, b);
    assert GoodRoute(net.routers[b], p) && GoodPeer(net.routers[b].known, p);
    var e := net.routers[b].routes[p];
    assert (b, e.nextHop) in net.links;
    HopsAreAtLeastOne(net, a, p, e.hopCount - 1);
  }

  lemma HopsAreAtLeastOne(net: Network, a: u32, d: u32, hops: int)
    requires Invariant(net) && Serves(net, a, d, hops)
    ensures hops >= 1
  {
    assert RouterOk(net, a);
    assert GoodRoute(net.routers[a], d) && GoodPeer(net.routers[a].known, d);
  }

  lemma {:induction false} FewRouters(ids: set<u32>, names: seq<u32>)
    requires forall d | d in ids :: d in names
    ensures |Fresh(ids).routers| == |ids| <= |names|
    decreases |names|
  {
    assert Fresh(ids).routers.Keys == ids;
    assert |Fresh(ids).routers| == |Fresh(ids).routers.Keys|;
    if names == [] {
      assert ids == {};
    } else {
      FewRouters(ids - {names[0]}, names[1..]);
    }
  }

  /** For any three routers there is a run after which `b` relies on `a` for `p`. */
  lemma RelianceHappens(a: u32, b: u32, p: u32) returns (steps: seq<Step>)
    requires a != b && b != p && a != p
    ensures Initial(Fresh({a, b, p})) && IsRun(Fresh({a, b, p}), steps)
    ensures var net := Run(Fresh({a, b, p}), steps);
      Invariant(net) && Relies(net, b, p, a) && net.routers[b].routes[p].hopCount == 2
  {
    var start := Fresh({a, b, p});
    FreshIsOk({a, b, p});
    FewRouters({a, b, p}, [a, b, p]);
    var up := RowComesUp(start, a, b, p);
    var row := Run(start, up);
    var send, receive := OneExchange(row, a, b, p);
    steps := ExtendTwice(start, up, send, receive);
    OnlyWay(Next(Next(row, send), receive), a, b, p);
  }

  /** A router that knows only its neighbours relies on nobody. */
  lemma IsolatedReliesOnNobody(net: Network, a: u32, d: u32, b: u32)
    requires Invariant(net) && a in net.routers && Isolated(net.routers[a])
    ensures !Relies(net, a, d, b)
  {
    assert RouterOk(net, a);
    if Relies(net, a, d, b) {
      assert RouteOk(net, a, d) && GoodRoute(net.routers[a], d);
      HopsAreAtLeastOne(net, b, d, 0);
    }
  }

  lemma NobodyReliesOnItself(net: Network, a: u32, d: u32)
    requires Invariant(net) && a in net.routers
    ensures !Relies(net, a, d, a)
  {
    if d in net.routers[a].routes { assert RouteOk(net, a, d); }
  }

  /** So a router that is the only one to have learned anything can lose routes without harm at that moment. */
  lemma OthersRelyOnNobody(net: Network, a: u32, s: Router)
    requires Invariant(net) && a in net.routers && OnlyLoses(net.routers[a], s)
    requires forall b | b in net.routers && b != a :: Isolated(net.routers[b])
    ensures AllRoutesOk(WithRouter(net, a, s))
  {
    InvariantIsSound(net);
    LosingRoutesExactly(net, a, s);
    forall b, d ensures !Relies(net, b, d, a) {
      if b in net.routers && b != a {
        IsolatedReliesOnNobody(net, b, d, a);
      } else {
        NobodyReliesOnItself(net, a, d);
      }
    }
  }

  /** For any four routers there is a run after which `a` can remove `p` without harm at that moment, and yet not safely:
      `d` lies behind `p`, and `b` does not know it. */
  lemma OrphanIsPassedOn(a: u32, b: u32, p: u32, d: u32) returns (steps: seq<Step>)
    requires a != b && a != p && a != d && b != p && b != d && p != d
    ensures Initial(Fresh({a, b, p, d})) && IsRun(Fresh({a, b, p, d}), steps)
    ensures var net := Run(Fresh({a, b, p, d}), steps);
      && Invariant(net) && a in net.routers && b in net.routers
      && d in Through(net.routers[a], p) && d !in net.routers[b].known
      && AllRoutesOk(WithRouter(net, a, Remove(net.routers[a], p)))
      && !StaysOk(WithRouter(net, a, Remove(net.routers[a], p)))
  {
    var start := Fresh({a, b, p, d});
    FreshIsOk({a, b, p, d});
    FewRouters({a, b, p, d}, [a, b, p, d]);
    var up := RowComesUp(start, p, a, d);
    var row := Run(start, up);
    var send, receive := LearnBehind(row, a, b, p, d);
    steps := ExtendTwice(start, up, send, receive);
  }

  /** `a` learns from `p` what lies behind it. */
  lemma LearnBehind(row: Network, a: u32, b: u32, p: u32, d: u32) returns (send: Step, receive: Step)
    requires Settled(row) && Silent(row) && {a, b, p, d} <= row.routers.Keys && row.links == {(p, a), (a, p), (p, d), (d, p)}
    requires a != b && a != p && a != d && b != p && b != d && p != d
    ensures Enabled(row, send) && Enabled(Next(row, send), receive)
    ensures var net := Next(Next(row, send), receive);
      && Invariant(net) && a in net.routers && b in net.routers
      && d in Through(net.routers[a], p) && d !in net.routers[b].known
      && AllRoutesOk(WithRouter(net, a, Remove(net.routers[a], p)))
      && !StaysOk(WithRouter(net, a, Remove(net.routers[a], p)))
  {
    assert Linked(row, p, a) && Linked(row, p, d);
    send, receive := OneExchange(row, p, a, d);
    OthersLearnNothing(row, send, receive);
    LearnedBehind(row, Next(Next(row, send), receive), a, b, p, d);
  }

  lemma LearnedBehind(row: Network, net: Network, a: u32, b: u32, p: u32, d: u32)
    requires Settled(row) && Silent(row) && {a, b, p, d} <= row.routers.Keys == net.routers.Keys
    requires a != b && a != p && a != d && b != p && b != d && p != d
    requires Invariant(net) && Serves(net, a, d, 2) && net.links == {(p, a), (a, p), (p, d), (d, p)}
    requires forall c | c in net.routers && c != a ::
               net.routers[c].known == row.routers[c].known && net.routers[c].direct == row.routers[c].direct
    ensures d in Through(net.routers[a], p) && d !in net.routers[b].known
    ensures AllRoutesOk(WithRouter(net, a, Remove(net.routers[a], p)))
    ensures !StaysOk(WithRouter(net, a, Remove(net.routers[a], p)))
  {
    OnlyWay(net, p, a, d);
    assert |row.routers| == |row.routers.Keys|;
    assert forall c | c in net.routers && c != a :: Isolated(row.routers[c]) && Isolated(net.routers[c]);
    IgnorantOfOrphan(net, a, b, p, d);
  }

  lemma IgnorantOfOrphan(net: Network, a: u32, b: u32, p: u32, d: u32)
    requires Invariant(net) && |net.routers.Keys| <= MAX_ROUTING_ENTRIES && Relies(net, a, d, p)
    requires a in net.routers && b in net.routers && a != b && b != d && net.routers[a].routes[d].hopCount == 2
    requires forall c | c in net.routers && c != a :: Isolated(net.routers[c])
    requires (b, d) !in net.links
    ensures d in Through(net.routers[a], p) && d !in net.routers[b].known
    ensures AllRoutesOk(WithRouter(net, a, Remove(net.routers[a], p)))
    ensures !StaysOk(WithRouter(net, a, Remove(net.routers[a], p)))
  {
    var r := net.routers[a];
    assert RouterOk(net, a) && RouterOk(net, b) && GoodRoute(r, d);
    OthersRelyOnNobody(net, a, Remove(r, p));
    InvariantIsSound(net);
    assert |net.routers| == |net.routers.Keys|;
    RemovalIsSafeExactly(net, a, p);
    assert !OrphanSurvives(net, a, Through(r, p), {p} * r.known.Keys, d, b);
  }

  /** For any three routers in a row there is a run after which the one in the middle can remove `p` without harm at that
      moment, and yet not safely: it knows nothing through `p`, but a packet that offers `p` has not arrived at `b`. */
  lemma PacketComesTooLate(a: u32, b: u32, p: u32) returns (steps: seq<Step>)
    requires a != b && b != p && a != p
    ensures Initial(Fresh({a, b, p})) && IsRun(Fresh({a, b, p}), steps)
    ensures var net := Run(Fresh({a, b, p}), steps);
      && Invariant(net) && a in net.routers && Through(net.routers[a], p) == {p}
      && AllRoutesOk(WithRouter(net, a, Remove(net.routers[a], p)))
      && !StaysOk(WithRouter(net, a, Remove(net.routers[a], p)))
  {
    var start := Fresh({a, b, p});
    FreshIsOk({a, b, p});
    FewRouters({a, b, p}, [a, b, p]);
    var up := RowComesUp(start, a, b, p);
    var row := Run(start, up);
    var send := OfferOnTheWay(row, a, b, p);
    ExtendRun(start, up, send);
    steps := up + [send];
  }

  /** `a` offers `p` to `b`. */
  lemma OfferOnTheWay(row: Network, a: u32, b: u32, p: u32) returns (send: Step)
    requires Settled(row) && Silent(row) && {a, b, p} <= row.routers.Keys && row.links == {(a, b), (b, a), (a, p), (p, a)}
    requires a != b && b != p && a != p
    ensures Enabled(row, send)
    ensures var net := Next(row, send);
      && Invariant(net) && a in net.routers && Through(net.routers[a], p) == {p}
      && AllRoutesOk(WithRouter(net, a, Remove(net.routers[a], p)))
      && !StaysOk(WithRouter(net, a, Remove(net.routers[a], p)))
  {
    assert Linked(row, a, b) && Linked(row, a, p);
    var updates, i := CanOffer(row, a, b, p);
    send := Broadcast(a, updates);
    BroadcastKeeps(row, a, updates);
    OfferSent(row, a, b, p, updates, i);
  }

  lemma CanOffer(row: Network, a: u32, b: u32, p: u32) returns (updates: seq<PeerInfo>, i: nat)
    requires Settled(row) && Linked(row, a, b) && Linked(row, a, p)
    ensures Enabled(row, Broadcast(a, updates)) && b in row.routers[a].direct && p in row.routers[a].routes
    ensures i < |updates| && updates[i].peerId == p && updates[i].hopCount <= 1
  {
    updates := CanBroadcast(row, a, b);
    LinkIsRoute(row, a, p);
    i := BroadcastLists(row, a, updates, p, 1);
  }

  lemma OfferSent(row: Network, a: u32, b: u32, p: u32, updates: seq<PeerInfo>, i: nat)
    requires Silent(row) && |row.routers| <= MAX_ROUTING_ENTRIES && row.links == {(a, b), (b, a), (a, p), (p, a)}
    requires a != b && b != p && a != p
    requires Enabled(row, Broadcast(a, updates)) && b in row.routers[a].direct && p in row.routers[a].routes
    requires i < |updates| && updates[i].peerId == p && updates[i].hopCount <= 1
    requires Invariant(Next(row, Broadcast(a, updates)))
    ensures var net := Next(row, Broadcast(a, updates));
      && a in net.routers && Through(net.routers[a], p) == {p}
      && AllRoutesOk(WithRouter(net, a, Remove(net.routers[a], p)))
      && !StaysOk(WithRouter(net, a, Remove(net.routers[a], p)))
  {
    SentByBroadcast(row, a, b, updates);
    StillSilent(row, Broadcast(a, updates));
    var packet := Packet(a, b, BroadcastOf(row.routers[a], updates));
    OfferOutlivesRoute(Next(row, Broadcast(a, updates)), a, p, packet, i);
  }

  lemma SentByBroadcast(net: Network, a: u32, b: u32, updates: seq<PeerInfo>)
    requires Enabled(net, Broadcast(a, updates)) && b in net.routers[a].direct
    ensures Packet(a, b, BroadcastOf(net.routers[a], updates)) in Next(net, Broadcast(a, updates)).sent
  {
  }

  lemma StillSilent(net: Network, s: Step)
    requires Silent(net) && s.Broadcast? && Enabled(net, s)
    ensures |Next(net, s).routers.Keys| == |net.routers| && Next(net, s).links == net.links
    ensures forall c | c in Next(net, s).routers :: Isolated(Next(net, s).routers[c])
    ensures forall c | c in net.routers :: c in Next(net, s).routers
    ensures Next(net, s).routers[s.router].routes == net.routers[s.router].routes
  {
    var after := Next(net, s);
    assert |net.routers| == |net.routers.Keys| && after.routers.Keys == net.routers.Keys;
    assert forall c | c in after.routers :: Isolated(net.routers[c]) && Isolated(after.routers[c]);
  }

  lemma OfferOutlivesRoute(net: Network, a: u32, p: u32, packet: Packet, i: nat)
    requires Invariant(net) && |net.routers.Keys| <= MAX_ROUTING_ENTRIES && a in net.routers && p in net.routers[a].routes
    requires forall c | c in net.routers :: Isolated(net.routers[c])
    requires packet in net.sent && packet.from == a && i < |packet.update.updates|
    requires packet.update.updates[i].peerId == p && packet.update.updates[i].hopCount < 15
    requires packet.to != p && (packet.to, p) !in net.links
    ensures Through(net.routers[a], p) == {p}
    ensures AllRoutesOk(WithRouter(net, a, Remove(net.routers[a], p)))
    ensures !StaysOk(WithRouter(net, a, Remove(net.routers[a], p)))
  {
    var r := net.routers[a];
    assert PacketOk(net, packet) && RouterOk(net, a) && RouterOk(net, packet.to);
    forall d | d in Through(r, p) ensures d == p { IsolatedReliesOnNobody(net, a, d, p); }
    OthersRelyOnNobody(net, a, Remove(r, p));
    InvariantIsSound(net);
    assert |net.routers| == |net.routers.Keys|;
    RemovalIsSafeExactly(net, a, p);
    assert !OfferSurvives(net, a, Through(r, p), {p} * r.known.Keys, a, packet.to, p, packet.update.updates[i].hopCount);
    assert !PacketSurvives(net, a, Through(r, p), {p} * r.known.Keys, packet);
  }

  lemma ExtendTwice(start: Network, steps: seq<Step>, first: Step, second: Step) returns (more: seq<Step>)
    requires IsRun(start, steps) && Enabled(Run(start, steps), first) && Enabled(Next(Run(start, steps), first), second)
    ensures IsRun(start, more) && Run(start, more) == Next(Next(Run(start, steps), first), second)
    ensures OnlyUps(steps) && first.Connect? && second.Connect? ==> OnlyUps(more)
  {
    ExtendRun(start, steps, first);
    ExtendRun(start, steps + [first], second);
    more := steps + [first] + [second];
  }
}
