/** A full round can be carried out in every settled network, so the convergence theorem speaks of runs that exist. */
module RoundExists {
  import opened Bounded
  import opened RouteConvergence
  import opened RouterModel
  import opened RouterNetwork
  import opened RoutingData

  lemma {:induction false} ListingExists(known: map<u32, PeerInfo>, keys: set<u32>) returns (updates: seq<PeerInfo>)
    requires keys <= known.Keys && forall d | d in known :: known[d].peerId == d
    ensures forall i | 0 <= i < |updates| :: updates[i].peerId in keys && updates[i] == known[updates[i].peerId]
    ensures forall i, j | 0 <= i < j < |updates| :: updates[i].peerId != updates[j].peerId
    ensures forall d | d in keys :: known[d] in updates
    decreases |keys|
  {
    updates := [];
    if keys != {} {
      var d :| d in keys;
      var others := ListingExists(known, keys - {d});
      updates := others + [known[d]];
    }
  }

  lemma ExtendRun(start: Network, steps: seq<Step>, s: Step)
    requires IsRun(start, steps) && Enabled(Run(start, steps), s)
    ensures IsRun(start, steps + [s]) && Run(start, steps + [s]) == Next(Run(start, steps), s)
  {
    assert (steps + [s])[..|steps|] == steps;
  }

  lemma CanBroadcast(net: Network, a: u32, b: u32) returns (updates: seq<PeerInfo>)
    requires Settled(net) && Linked(net, a, b)
    ensures Enabled(net, Broadcast(a, updates)) && b in net.routers[a].direct
  {
    var r := net.routers[a];
    assert RouterOk(net, a);
    assert forall d | d in r.known :: GoodPeer(r.known, d);
    updates := ListingExists(r.known, r.known.Keys);
    assert b in r.known;
    assert forall i | 0 <= i < |updates| :: Listed(r.known, {}, updates[i]);
  }

  lemma CanDeliver(net: Network, a: u32, b: u32, updates: seq<PeerInfo>, p: Packet)
    requires Invariant(net) && Enabled(net, Broadcast(a, updates)) && b in net.routers[a].direct
    requires p == Packet(a, b, BroadcastOf(net.routers[a], updates))
    ensures Enabled(Next(net, Broadcast(a, updates)), Deliver(p, p.update, 0))
  {
    assert RouterOk(net, a);
    assert (a, b) in net.links;
    assert p in Copies(a, net.routers[a].direct, p.update);
  }

  lemma Exchange(start: Network, steps: seq<Step>, a: u32, b: u32) returns (more: seq<Step>)
    requires Settled(start) && IsRun(start, steps) && AllQuiet(steps) && Linked(start, a, b)
    ensures steps <= more && IsRun(start, more) && AllQuiet(more)
    ensures exists s: nat, t: nat :: ExchangedAt(start, more, a, b, s, t)
  {
    QuietRunKeepsGraph(start, steps);
    var net := Run(start, steps);
    var updates := CanBroadcast(net, a, b);
    var p := Packet(a, b, BroadcastOf(net.routers[a], updates));
    CanDeliver(net, a, b, updates, p);
    more := TwoMore(start, steps, Broadcast(a, updates), Deliver(p, p.update, 0));
    assert steps[..|steps|] == steps && more[..|steps|] == steps;
    assert ExchangedAt(start, more, a, b, |steps|, |steps| + 1);
  }

  lemma TwoMore(start: Network, steps: seq<Step>, first: Step, second: Step) returns (more: seq<Step>)
    requires IsRun(start, steps) && AllQuiet(steps) && Quiet(first) && Quiet(second)
    requires Enabled(Run(start, steps), first) && Enabled(Next(Run(start, steps), first), second)
    ensures more == steps + [first, second] && IsRun(start, more) && AllQuiet(more)
  {
    ExtendRun(start, steps, first);
    ExtendRun(start, steps + [first], second);
    more := steps + [first, second];
    assert more == (steps + [first]) + [second];
  }

  lemma ExchangePersists(start: Network, steps: seq<Step>, more: seq<Step>, a: u32, b: u32, s: nat, t: nat)
    requires ExchangedAt(start, steps, a, b, s, t) && steps <= more
    ensures ExchangedAt(start, more, a, b, s, t)
  {
    assert more[..s] == steps[..s];
  }

  ghost predicate Exchanged(start: Network, steps: seq<Step>, a: u32, b: u32) {
    exists s: nat, t: nat :: ExchangedAt(start, steps, a, b, s, t)
  }

  lemma {:induction false} RoundFor(start: Network, links: set<(u32, u32)>) returns (steps: seq<Step>)
    requires Settled(start) && links <= start.links
    ensures IsRun(start, steps) && AllQuiet(steps)
    ensures forall a, b | (a, b) in links :: Exchanged(start, steps, a, b)
    decreases |links|
  {
    if links == {} {
      steps := [];
    } else {
      var l :| l in links;
      var before := RoundFor(start, links - {l});
      steps := Exchange(start, before, l.0, l.1);
      forall a, b | (a, b) in links ensures Exchanged(start, steps, a, b) {
        if (a, b) != l {
          assert Exchanged(start, before, a, b);
          var s: nat, t: nat :| ExchangedAt(start, before, a, b, s, t);
          ExchangePersists(start, before, steps, a, b, s, t);
        }
      }
    }
  }

  lemma RoundCanBeRun(start: Network)
    requires Settled(start)
    ensures exists steps :: FullRound(start, steps)
  {
    var steps := RoundFor(start, start.links);
    forall a, b | Linked(start, a, b) ensures exists s: nat, t: nat :: ExchangedAt(start, steps, a, b, s, t) {
      assert Exchanged(start, steps, a, b);
    }
    assert FullRound(start, steps);
  }
}
