/** What the network's invariant gives over every run: forwarding never loops, and hop counts are never too small. */
module LoopFreedom {
  import opened Bounded
  import opened RouteSafety
  import opened RouterModel
  import opened RouterNetwork

  lemma RunIsOk(start: Network, steps: seq<Step>)
    requires Initial(start) && IsRun(start, steps)
    ensures Invariant(Run(start, steps)) && Run(start, steps).routers.Keys == start.routers.Keys
  {
    InitialIsOk(start);
    RunKeeps(start, steps);
  }

  /** In any interleaving, a route goes straight to its destination or through a router that is strictly closer to it. */
  lemma NextHopIsCloser(start: Network, steps: seq<Step>, a: u32, d: u32)
    requires Initial(start) && IsRun(start, steps)
    requires a in Run(start, steps).routers && d in Run(start, steps).routers[a].routes
    ensures var net := Run(start, steps);
      var e := net.routers[a].routes[d];
      && d != a && d in net.routers && InRange(e.hopCount) && (a, e.nextHop) in net.links
      && (e.nextHop == d
          || (e.nextHop in net.routers && d in net.routers[e.nextHop].routes
              && net.routers[e.nextHop].routes[d].hopCount < e.hopCount))
  {
    RunIsOk(start, steps);
    var net := Run(start, steps);
    assert RouteOk(net, a, d) && RouterOk(net, a);
    assert GoodRoute(net.routers[a], d) && GoodPeer(net.routers[a].known, d);
  }

  /** Where a message for `d` is after that many forwards; `None` if a router on the way has no route. */
  function Follow(net: Network, now: nat, a: u32, d: u32, forwards: nat): Option<u32>
    decreases forwards
  {
    if a == d || forwards == 0 then Some(a)
    else if a !in net.routers then None
    else match NextHop(net.routers[a], d, now)
      case None => None
      case Some(n) => Follow(net, now, n, d, forwards - 1)
  }

  /** No router has let its route to `d` expire. */
  predicate Fresh(net: Network, now: nat, d: u32) {
    forall a | a in net.routers && d in net.routers[a].routes :: !Expired(net.routers[a].routes[d].lastUpdated, now)
  }

  lemma {:induction false} Reaches(net: Network, now: nat, a: u32, d: u32, forwards: nat)
    requires Sound(net) && Fresh(net, now, d) && Serves(net, a, d, forwards)
    ensures Follow(net, now, a, d, forwards) == Some(d)
    decreases forwards
  {
    var e := net.routers[a].routes[d];
    assert RouteOk(net, a, d) && SaneRouter(net, a);
    assert GoodRoute(net.routers[a], d) && GoodPeer(net.routers[a].known, d);
    if a != d && e.nextHop != d {
      Reaches(net, now, e.nextHop, d, forwards - 1);
    }
  }

  /** Following next hops reaches the destination within the advertised number of forwards, at most fifteen. */
  lemma ForwardingReaches(start: Network, steps: seq<Step>, now: nat, a: u32, d: u32)
    requires Initial(start) && IsRun(start, steps)
    requires a in Run(start, steps).routers && d in Run(start, steps).routers[a].routes
    requires Fresh(Run(start, steps), now, d)
    ensures Follow(Run(start, steps), now, a, d, Run(start, steps).routers[a].routes[d].hopCount) == Some(d)
    ensures Run(start, steps).routers[a].routes[d].hopCount <= 15
  {
    RunIsOk(start, steps);
    NextHopIsCloser(start, steps, a, d);
    InvariantIsSound(Run(start, steps));
    Reaches(Run(start, steps), now, a, d, Run(start, steps).routers[a].routes[d].hopCount);
  }

  // ----- distances -----

  /** `d` can be reached from `a` over at most `hops` links. */
  ghost predicate Within(links: set<(u32, u32)>, a: u32, d: u32, hops: nat)
    decreases hops
  {
    a == d || (hops > 0 && exists b: u32 :: (a, b) in links && Within(links, b, d, hops - 1))
  }

  lemma {:induction false} WithinMore(links: set<(u32, u32)>, a: u32, d: u32, hops: nat, more: nat)
    requires Within(links, a, d, hops) && hops <= more
    ensures Within(links, a, d, more)
    decreases hops
  {
    if a != d {
      var b: u32 :| (a, b) in links && Within(links, b, d, hops - 1);
      WithinMore(links, b, d, hops - 1, more - 1);
    }
  }

  /** The true distance. */
  ghost predicate IsDistance(links: set<(u32, u32)>, a: u32, d: u32, hops: nat) {
    Within(links, a, d, hops) && (hops > 0 ==> !Within(links, a, d, hops - 1))
  }

  lemma {:induction false} RouteIsWalk(net: Network, a: u32, d: u32, hops: nat)
    requires Invariant(net) && Serves(net, a, d, hops)
    ensures Within(net.links, a, d, hops)
    decreases hops
  {
    var e := net.routers[a].routes[d];
    assert RouteOk(net, a, d) && RouterOk(net, a);
    assert GoodRoute(net.routers[a], d) && GoodPeer(net.routers[a].known, d);
    if e.nextHop == d {
      assert (a, d) in net.links && Within(net.links, d, d, hops - 1);
    } else {
      RouteIsWalk(net, e.nextHop, d, hops - 1);
    }
  }

  /** At no time is a hop count below the true distance. */
  lemma HopsNeverBelowDistance(start: Network, steps: seq<Step>, a: u32, d: u32, distance: nat)
    requires Initial(start) && IsRun(start, steps)
    requires a in Run(start, steps).routers && d in Run(start, steps).routers[a].routes
    requires IsDistance(Run(start, steps).links, a, d, distance)
    ensures distance <= Run(start, steps).routers[a].routes[d].hopCount
  {
    RunIsOk(start, steps);
    var net := Run(start, steps);
    var hops := net.routers[a].routes[d].hopCount;
    RouteIsWalk(net, a, d, hops);
    if hops < distance {
      WithinMore(net.links, a, d, hops, distance - 1);
    }
  }
}
