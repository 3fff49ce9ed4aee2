/** Runs in which peers are removed and entries expire. */
module LossyRuns {
  import opened Bounded
  import opened LoopFreedom
  import opened RouteSafety
  import opened RouterLoss
  import opened RouterModel
  import opened RouterNetwork
  import opened RouterRemoval
  import opened UnsafeStates

  datatype Event =
    | Ordinary(step: Step)
    | RemovePeer(router: u32, peer: u32)
    | Expire(router: u32, now: nat)

  ghost predicate Possible(net: Network, e: Event) {
    match e
    case Ordinary(s) => Enabled(net, s)
    case RemovePeer(a, _) => a in net.routers
    case Expire(a, _) => a in net.routers
  }

  function After(net: Network, e: Event): Network
    requires Possible(net, e)
  {
    match e
    case Ordinary(s) => Next(net, s)
    case RemovePeer(a, p) => WithRouter(net, a, Remove(net.routers[a], p))
    case Expire(a, now) => WithRouter(net, a, CleanUp(net.routers[a], now))
  }

  ghost predicate Harmless(net: Network, e: Event)
    requires Possible(net, e)
  {
    match e
    case Ordinary(_) => true
    case RemovePeer(a, p) => HarmlessRemoval(net, a, p)
    case Expire(a, now) => HarmlessExpiry(net, a, now)
  }

  ghost predicate IsHistory(start: Network, events: seq<Event>)
    decreases |events|, 0
  {
    events == []
    || (IsHistory(start, events[..|events| - 1]) && Possible(Outcome(start, events[..|events| - 1]), events[|events| - 1]))
  }

  ghost function Outcome(start: Network, events: seq<Event>): Network
    requires IsHistory(start, events)
    decreases |events|, 1
  {
    if events == [] then start else After(Outcome(start, events[..|events| - 1]), events[|events| - 1])
  }

  /** Every loss in the history meets the condition in the state in which it happens. */
  ghost predicate AllHarmless(start: Network, events: seq<Event>)
    requires IsHistory(start, events)
    decreases |events|
  {
    events == []
    || (AllHarmless(start, events[..|events| - 1])
        && Harmless(Outcome(start, events[..|events| - 1]), events[|events| - 1]))
  }

  /** At no point of the history could ordinary steps spoil a route. */
  ghost predicate AlwaysSafe(start: Network, events: seq<Event>)
    requires IsHistory(start, events)
    decreases |events|
  {
    StaysOk(Outcome(start, events)) && (events == [] || AlwaysSafe(start, events[..|events| - 1]))
  }

  lemma SameSize(net: Network, after: Network)
    requires net.routers.Keys == after.routers.Keys
    ensures |net.routers| == |after.routers|
  {
    assert |net.routers| == |net.routers.Keys| == |after.routers.Keys| == |after.routers|;
  }

  lemma EventKeepsSane(net: Network, e: Event)
    requires Sane(net) && Possible(net, e)
    ensures Sane(After(net, e)) && |After(net, e).routers| == |net.routers|
  {
    match e
    case Ordinary(s) => StepMoves(net, s);
    case RemovePeer(a, p) =>
      assert SaneRouter(net, a);
      RemovalLoses(net.routers[a], p);
      LossKeepsSane(net, a, Remove(net.routers[a], p));
    case Expire(a, now) =>
      assert SaneRouter(net, a);
      CleanUpLoses(net.routers[a], now);
      LossKeepsSane(net, a, CleanUp(net.routers[a], now));
    SameSize(net, After(net, e));
  }

  lemma EventKeepsSoundExactly(net: Network, e: Event)
    requires Sound(net) && Possible(net, e)
    ensures Sound(After(net, e)) <==> Harmless(net, e)
  {
    match e
    case Ordinary(s) => SoundStepKeeps(net, s);
    case RemovePeer(a, p) =>
      assert SaneRouter(net, a);
      RemovalLoses(net.routers[a], p);
      LossKeepsSoundExactly(net, a, Remove(net.routers[a], p));
    case Expire(a, now) =>
      assert SaneRouter(net, a);
      CleanUpLoses(net.routers[a], now);
      LossKeepsSoundExactly(net, a, CleanUp(net.routers[a], now));
  }

  lemma {:induction false} HistoryKeepsSound(start: Network, events: seq<Event>)
    requires Sound(start) && IsHistory(start, events) && AllHarmless(start, events)
    ensures Sound(Outcome(start, events))
    decreases |events|
  {
    if events != [] {
      HistoryKeepsSound(start, events[..|events| - 1]);
      EventKeepsSoundExactly(Outcome(start, events[..|events| - 1]), events[|events| - 1]);
    }
  }

  /** Any number of removals and expiries, in any interleaving with everything else: the network is safe throughout if and
      only if each of them was harmless when it happened. */
  lemma {:induction false} SafeExactlyWhenHarmless(start: Network, events: seq<Event>)
    requires Sound(start) && |start.routers| <= MAX_ROUTING_ENTRIES && IsHistory(start, events)
    ensures AlwaysSafe(start, events) <==> AllHarmless(start, events)
    ensures Sane(Outcome(start, events)) && |Outcome(start, events).routers| == |start.routers|
    decreases |events|
  {
    if events == [] {
      SafeExactly(start);
    } else {
      var before, e := events[..|events| - 1], events[|events| - 1];
      var net := Outcome(start, before);
      SafeExactlyWhenHarmless(start, before);
      EventKeepsSane(net, e);
      SafeExactly(After(net, e));
      if AllHarmless(start, before) {
        HistoryKeepsSound(start, before);
        EventKeepsSoundExactly(net, e);
      }
    }
  }

  /** After harmless losses, following fresh next hops still reaches the destination within the hop count. */
  lemma ForwardingReachesAfterLosses(start: Network, events: seq<Event>, now: nat, a: u32, d: u32)
    requires Initial(start) && IsHistory(start, events) && AllHarmless(start, events)
    requires a in Outcome(start, events).routers && d in Outcome(start, events).routers[a].routes
    requires Fresh(Outcome(start, events), now, d)
    ensures Follow(Outcome(start, events), now, a, d, Outcome(start, events).routers[a].routes[d].hopCount) == Some(d)
    ensures Outcome(start, events).routers[a].routes[d].hopCount <= 15
  {
    InitialIsOk(start);
    InvariantIsSound(start);
    HistoryKeepsSound(start, events);
    var net := Outcome(start, events);
    assert SaneRouter(net, a);
    assert GoodRoute(net.routers[a], d) && GoodPeer(net.routers[a].known, d);
    Reaches(net, now, a, d, net.routers[a].routes[d].hopCount);
  }
}
