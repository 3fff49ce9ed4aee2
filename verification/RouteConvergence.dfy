/** On a graph that has stopped changing, hop counts become the true distances, one more hop per round. */
module RouteConvergence {
  import opened Bounded
  import opened LoopFreedom
  import opened RouterLearning
  import opened RouterModel
  import opened RouterNetwork
  import opened RoutingData

  predicate Quiet(s: Step) {
    !s.Connect?
  }

  ghost predicate AllQuiet(steps: seq<Step>) {
    forall i | 0 <= i < |steps| :: Quiet(steps[i])
  }

  predicate Linked(net: Network, a: u32, b: u32) {
    (a, b) in net.links
  }

  /** Both ends of every link have added each other. */
  ghost predicate Established(net: Network) {
    forall a, b {:trigger Linked(net, a, b)} | Linked(net, a, b) :: a in net.routers && b in net.routers[a].direct
  }

  /** A reachable state in which the links are up, with few enough routers for every routing table. */
  ghost predicate Settled(net: Network) {
    Invariant(net) && Established(net) && |net.routers| <= MAX_ROUTING_ENTRIES
  }

  // ----- runs and their prefixes -----

  lemma {:induction false} PrefixOfRun(start: Network, steps: seq<Step>, n: nat)
    requires Invariant(start) && IsRun(start, steps) && n <= |steps|
    ensures IsRun(start, steps[..n]) && Invariant(Run(start, steps[..n]))
    ensures Grows(Run(start, steps[..n]), Run(start, steps))
    decreases |steps|
  {
    if n == |steps| {
      assert steps[..n] == steps;
      RunKeeps(start, steps);
    } else {
      var before := steps[..|steps| - 1];
      PrefixOfRun(start, before, n);
      assert before[..n] == steps[..n];
      RunKeeps(start, before);
      StepKeeps(Run(start, before), steps[|steps| - 1]);
      GrowsIsTransitive(Run(start, steps[..n]), Run(start, before), Run(start, steps));
    }
  }

  lemma NthStep(start: Network, steps: seq<Step>, n: nat)
    requires Invariant(start) && IsRun(start, steps) && n < |steps|
    ensures IsRun(start, steps[..n]) && Enabled(Run(start, steps[..n]), steps[n])
    ensures IsRun(start, steps[..n + 1]) && Run(start, steps[..n + 1]) == Next(Run(start, steps[..n]), steps[n])
  {
    PrefixOfRun(start, steps, n);
    PrefixOfRun(start, steps, n + 1);
    assert steps[..n + 1][..n] == steps[..n];
  }

  lemma QuietStepKeepsGraph(net: Network, s: Step)
    requires Invariant(net) && Enabled(net, s) && Quiet(s) && Established(net)
    ensures Next(net, s).links == net.links && Established(Next(net, s))
  {
    var after := Next(net, s);
    StepKeeps(net, s);
    forall a, b | Linked(after, a, b) ensures a in after.routers && b in after.routers[a].direct {
      assert Linked(net, a, b) && NotWorse(net.routers[a], after.routers[a]);
    }
  }

  lemma {:induction false} QuietRunKeepsGraph(start: Network, steps: seq<Step>)
    requires Settled(start) && IsRun(start, steps) && AllQuiet(steps)
    ensures Settled(Run(start, steps)) && Run(start, steps).links == start.links
    ensures Run(start, steps).routers.Keys == start.routers.Keys
    decreases |steps|
  {
    RunKeeps(start, steps);
    assert |start.routers| == |start.routers.Keys| && |Run(start, steps).routers| == |Run(start, steps).routers.Keys|;
    if steps != [] {
      var before := steps[..|steps| - 1];
      QuietRunKeepsGraph(start, before);
      QuietStepKeepsGraph(Run(start, before), steps[|steps| - 1]);
    }
  }

  // ----- one round -----

  /** `from` broadcasts at step `s`, and `to` processes that broadcast at the later step `t`. */
  ghost predicate ExchangedAt(start: Network, steps: seq<Step>, from: u32, to: u32, s: nat, t: nat) {
    && s < t < |steps| && IsRun(start, steps[..s])
    && steps[s].Broadcast? && steps[s].router == from && from in Run(start, steps[..s]).routers
    && steps[t].Deliver?
    && steps[t].packet == Packet(from, to, BroadcastOf(Run(start, steps[..s]).routers[from], steps[s].updates))
  }

  /** Every router broadcasts and every neighbour processes it; other steps may happen in between. */
  ghost predicate FullRound(start: Network, steps: seq<Step>) {
    && IsRun(start, steps) && AllQuiet(steps)
    && forall a, b {:trigger Linked(start, a, b)} | Linked(start, a, b) ::
         exists s: nat, t: nat :: ExchangedAt(start, steps, a, b, s, t)
  }

  /** Every router within that distance is known at its true distance or closer. */
  ghost predicate Reached(net: Network, hops: nat) {
    forall a, d, i: nat {:trigger Serves(net, a, d, i)} |
      a in net.routers && a != d && i <= hops && Within(net.links, a, d, i) :: Serves(net, a, d, i)
  }

  lemma ReachedPersists(net: Network, after: Network, hops: nat)
    requires Reached(net, hops) && Grows(net, after) && after.links == net.links
    ensures Reached(after, hops)
  {
    forall a, d, i: nat | a in after.routers && a != d && i <= hops && Within(after.links, a, d, i)
      ensures Serves(after, a, d, i)
    {
      ServesPersists(net, after, a, d, i);
    }
  }

  lemma LinkIsRoute(net: Network, a: u32, d: u32)
    requires Settled(net) && (a, d) in net.links
    ensures Serves(net, a, d, 1)
  {
    assert Linked(net, a, d);
    assert RouterOk(net, a);
  }

  lemma FirstHop(net: Network)
    requires Settled(net)
    ensures Reached(net, 1)
  {
    forall a, d, i: nat | a in net.routers && a != d && i <= 1 && Within(net.links, a, d, i) ensures Serves(net, a, d, i) {
      var b: u32 :| (a, b) in net.links && Within(net.links, b, d, i - 1);
      LinkIsRoute(net, a, d);
    }
  }

  /** The peers a router can have routes to. */
  function Others(net: Network, a: u32): set<u32> {
    net.routers.Keys - {a}
  }

  lemma TableHasRoom(net: Network, a: u32)
    requires Settled(net) && a in net.routers
    ensures HasRoom(net.routers[a], Others(net, a))
  {
    var r := net.routers[a];
    assert RouterOk(net, a);
    forall d | d in r.routes ensures d in Others(net, a) { assert RouteOk(net, a, d); }
    assert |net.routers| == |net.routers.Keys|;
    assert |net.routers.Keys - {a}| == |net.routers.Keys| - 1;
  }

  lemma SeenIsAboutRouters(net: Network, p: Packet, seen: RouteUpdate)
    requires Invariant(net) && p in net.sent && p.to in net.routers && SameRoutes(p.update, seen)
    ensures AboutPeers(net.routers[p.to], seen.updates, Others(net, p.to))
  {
    assert PacketOk(net, p) && RouterOk(net, p.to);
    forall i | 0 <= i < |seen.updates|
      ensures seen.updates[i].peerId == p.to || seen.updates[i].peerId in Others(net, p.to)
    {
      assert Serves(net, p.from, p.update.updates[i].peerId, p.update.updates[i].hopCount);
      assert RouteOk(net, p.from, p.update.updates[i].peerId);
    }
  }

  /** What a delivered packet lists with few enough hops is known one hop further at the receiver. */
  lemma DeliveryTeaches(net: Network, p: Packet, seen: RouteUpdate, now: nat, i: nat, hops: nat)
    requires Settled(net) && Enabled(net, Deliver(p, seen, now)) && p.update.hopCount < MAX_HOP_COUNT
    requires i < |p.update.updates| && p.update.updates[i].peerId != p.to && p.update.updates[i].hopCount <= hops < 15
    ensures Serves(Next(net, Deliver(p, seen, now)), p.to, p.update.updates[i].peerId, hops + 1)
  {
    var r := net.routers[p.to];
    assert PacketOk(net, p) && RouterOk(net, p.to);
    assert (p.from, p.to) in net.links;
    SeenIsSensible(net, p, seen);
    SeenIsAboutRouters(net, p, seen);
    TableHasRoom(net, p.to);
    ApplyAllCovers(r, seen.source, seen.updates, now, Others(net, p.to), i);
    HandledTables(r, seen, now);
  }

  /** A broadcast lists every known peer, at most as far away as the router serves it. */
  lemma BroadcastLists(net: Network, b: u32, updates: seq<PeerInfo>, d: u32, hops: nat) returns (i: nat)
    requires Invariant(net) && Enabled(net, Broadcast(b, updates)) && Serves(net, b, d, hops)
    ensures i < |updates| && updates[i].peerId == d && updates[i].hopCount <= hops
  {
    var r := net.routers[b];
    assert RouterOk(net, b);
    assert GoodRoute(r, d) && GoodPeer(r.known, d);
    i :| 0 <= i < |updates| && updates[i] == r.known[d];
  }

  lemma SentLists(start: Network, steps: seq<Step>, a: u32, b: u32, d: u32, hops: nat, s: nat, t: nat) returns (i: nat)
    requires Settled(start) && IsRun(start, steps) && ExchangedAt(start, steps, b, a, s, t)
    requires Serves(start, b, d, hops)
    ensures var m := steps[t].packet.update;
      m.hopCount == 0 && i < |m.updates| && m.updates[i].peerId == d && m.updates[i].hopCount <= hops
  {
    NthStep(start, steps, s);
    PrefixOfRun(start, steps, s);
    RunKeeps(start, steps[..s]);
    var atSend := Run(start, steps[..s]);
    ServesPersists(start, atSend, b, d, hops);
    i := BroadcastLists(atSend, b, steps[s].updates, d, hops);
  }

  lemma PrefixIsSettled(start: Network, steps: seq<Step>, n: nat)
    requires Settled(start) && IsRun(start, steps) && AllQuiet(steps) && n <= |steps|
    ensures IsRun(start, steps[..n]) && Settled(Run(start, steps[..n]))
  {
    PrefixOfRun(start, steps, n);
    assert forall i | 0 <= i < n :: steps[..n][i] == steps[i];
    QuietRunKeepsGraph(start, steps[..n]);
  }

  /** A neighbour's neighbours are learned in one exchange. */
  lemma ExchangeTeaches(start: Network, steps: seq<Step>, a: u32, b: u32, d: u32, hops: nat, s: nat, t: nat)
    requires Settled(start) && IsRun(start, steps) && AllQuiet(steps) && ExchangedAt(start, steps, b, a, s, t)
    requires Serves(start, b, d, hops) && hops < 15 && a != d
    ensures Serves(Run(start, steps), a, d, hops + 1)
  {
    var i := SentLists(start, steps, a, b, d, hops, s, t);
    NthStep(start, steps, t);
    PrefixIsSettled(start, steps, t);
    DeliveryTeaches(Run(start, steps[..t]), steps[t].packet, steps[t].seen, steps[t].now, i, hops);
    PrefixOfRun(start, steps, t + 1);
    ServesPersists(Run(start, steps[..t + 1]), Run(start, steps), a, d, hops + 1);
  }

  lemma RoundTeaches(start: Network, steps: seq<Step>, a: u32, d: u32, hops: nat)
    requires Settled(start) && FullRound(start, steps) && Reached(start, hops) && 1 <= hops < 15
    requires a in start.routers && a != d && Within(start.links, a, d, hops + 1)
    ensures Serves(Run(start, steps), a, d, hops + 1)
  {
    var b: u32 :| (a, b) in start.links && Within(start.links, b, d, hops);
    RunKeeps(start, steps);
    assert b in start.routers && (b != d ==> Serves(start, b, d, hops));
    if b == d {
      LinkIsRoute(start, a, d);
      ServesPersists(start, Run(start, steps), a, d, 1);
    } else {
      assert Linked(start, b, a);
      var s: nat, t: nat :| ExchangedAt(start, steps, b, a, s, t);
      ExchangeTeaches(start, steps, a, b, d, hops, s, t);
    }
  }

  lemma RoundServes(start: Network, steps: seq<Step>, a: u32, d: u32, hops: nat, i: nat)
    requires Settled(start) && FullRound(start, steps) && Reached(start, hops) && 1 <= hops < 15
    requires a in start.routers && a != d && i <= hops + 1 && Within(start.links, a, d, i)
    ensures Serves(Run(start, steps), a, d, i)
  {
    if i == hops + 1 {
      RoundTeaches(start, steps, a, d, hops);
    } else {
      assert Serves(start, a, d, i);
      RunKeeps(start, steps);
      ServesPersists(start, Run(start, steps), a, d, i);
    }
  }

  lemma RoundReachesFurther(start: Network, steps: seq<Step>, hops: nat)
    requires Settled(start) && FullRound(start, steps) && Reached(start, hops) && 1 <= hops < 15
    ensures Reached(Run(start, steps), hops + 1)
  {
    var after := Run(start, steps);
    assert after.links == start.links && after.routers.Keys == start.routers.Keys by {
      QuietRunKeepsGraph(start, steps);
    }
    forall a, d, i: nat | a in after.routers && a != d && i <= hops + 1 && Within(after.links, a, d, i)
      ensures Serves(after, a, d, i)
    {
      RoundServes(start, steps, a, d, hops, i);
    }
  }

  // ----- rounds -----

  ghost predicate AreRounds(net: Network, rounds: seq<seq<Step>>)
    decreases |rounds|, 0
  {
    rounds == []
    || (AreRounds(net, rounds[..|rounds| - 1])
        && FullRound(AfterRounds(net, rounds[..|rounds| - 1]), rounds[|rounds| - 1]))
  }

  ghost function AfterRounds(net: Network, rounds: seq<seq<Step>>): Network
    requires AreRounds(net, rounds)
    decreases |rounds|, 1
  {
    if rounds == [] then net else Run(AfterRounds(net, rounds[..|rounds| - 1]), rounds[|rounds| - 1])
  }

  function Horizon(rounds: nat): nat {
    if rounds + 1 <= 15 then rounds + 1 else 15
  }

  lemma {:induction false} RoundsReach(net: Network, rounds: seq<seq<Step>>)
    requires Settled(net) && AreRounds(net, rounds)
    ensures var after := AfterRounds(net, rounds);
      && Settled(after) && after.links == net.links && after.routers.Keys == net.routers.Keys
      && Reached(after, Horizon(|rounds|))
    decreases |rounds|
  {
    if rounds == [] {
      FirstHop(net);
    } else {
      var before, steps := rounds[..|rounds| - 1], rounds[|rounds| - 1];
      RoundsReach(net, before);
      var middle := AfterRounds(net, before);
      QuietRunKeepsGraph(middle, steps);
      if Horizon(|before|) < 15 {
        RoundReachesFurther(middle, steps, Horizon(|before|));
      } else {
        RunKeeps(middle, steps);
        ReachedPersists(middle, Run(middle, steps), 15);
      }
    }
  }

  /** After k rounds, every router at distance at most min(k + 1, 15) is routed to with exactly its distance. */
  lemma HopCountsConverge(net: Network, rounds: seq<seq<Step>>, a: u32, d: u32, distance: nat)
    requires Settled(net) && AreRounds(net, rounds)
    requires a in net.routers && a != d && IsDistance(net.links, a, d, distance) && distance <= Horizon(|rounds|)
    ensures var r := AfterRounds(net, rounds).routers;
      a in r && d in r[a].routes && r[a].routes[d].hopCount == distance
  {
    RoundsReach(net, rounds);
    var after := AfterRounds(net, rounds);
    assert Serves(after, a, d, distance);
    var hops := after.routers[a].routes[d].hopCount;
    RouteIsWalk(after, a, d, hops);
    if hops < distance {
      WithinMore(net.links, a, d, hops, distance - 1);
    }
  }

  /** The states the theorem speaks of are those reached from a fresh network once both ends of every link are up. */
  lemma ReachableIsSettled(start: Network, steps: seq<Step>)
    requires Initial(start) && IsRun(start, steps) && |start.routers| <= MAX_ROUTING_ENTRIES
    ensures Settled(Run(start, steps)) <==> Established(Run(start, steps))
  {
    RunIsOk(start, steps);
    assert |start.routers| == |start.routers.Keys| && |Run(start, steps).routers| == |Run(start, steps).routers.Keys|;
  }
}
