/** One file query flooding a network of routers, within the time for which they remember it. Copies may be delayed and
    reordered, but each arrives at most once. Routers clean up at any time. */
module QueryFlood {
  import opened Arithmetic
  import opened Bounded
  import opened QueryModel
  import opened RouterModel

  datatype Copy = Copy(to: u32, query: Query)

  /** `outcomes` holds what each router did that has processed the query, `processings` counts the arrivals that were not
      ignored, and `sends` the copies ever sent. */
  datatype Flood = Flood(routers: map<u32, Responder>, inFlight: multiset<Copy>, sends: nat, outcomes: map<u32, Outcome>,
                         processings: nat)

  datatype Event =
    | Arrival(copy: Copy, now: nat, targets: seq<u32>)
    | Cleanup(router: u32, now: nat)

  function CopiesTo(q: Query, targets: seq<u32>): multiset<Copy> {
    if targets == [] then multiset{}
    else CopiesTo(q, targets[..|targets| - 1]) + multiset{Copy(targets[|targets| - 1], q)}
  }

  lemma {:induction false} CopiesToFacts(q: Query, targets: seq<u32>)
    ensures |CopiesTo(q, targets)| == |targets|
    ensures forall c | c in CopiesTo(q, targets) :: c.query == q && c.to in targets
  {
    if targets != [] {
      CopiesToFacts(q, targets[..|targets| - 1]);
    }
  }

  /** The routers know only routers of the network, and not themselves. */
  predicate ConnectedInside(routers: map<u32, Responder>, a: u32)
    requires a in routers
  {
    routers[a].id == a && a !in routers[a].direct && routers[a].direct <= routers.Keys
  }

  ghost predicate WellConnected(routers: map<u32, Responder>) {
    forall a {:trigger ConnectedInside(routers, a)} | a in routers :: ConnectedInside(routers, a)
  }

  /** The origin has just broadcast the query to all its direct peers. */
  ghost predicate Started(f: Flood, q: Query, start: nat, broadcast: seq<u32>) {
    var origin := q.source;
    && WellConnected(f.routers) && origin in f.routers && q.hopCount == 0
    && q.queryId in f.routers[origin].cache && f.routers[origin].cache[q.queryId] == start
    && (forall a | a in f.routers && a != q.source && q.queryId in f.routers[a].cache ::
          f.routers[a].cache[q.queryId] < start)
    && Distinct(broadcast) && (forall t :: t in broadcast <==> t in f.routers[origin].direct)
    && f.inFlight == CopiesTo(q, broadcast) && f.sends == |broadcast|
    && f.outcomes == map[] && f.processings == 0
  }

  ghost predicate CanHappen(f: Flood, e: Event, start: nat) {
    && start <= e.now < start + QUERY_AGE
    && match e
       case Arrival(copy, _, targets) =>
         && copy in f.inFlight && copy.to in f.routers
         && AreTargets(f.routers[copy.to].direct, copy.query.source, targets)
       case Cleanup(a, _) => a in f.routers
  }

  ghost predicate CanArrive(f: Flood, e: Event, start: nat) {
    e.Arrival? && CanHappen(f, e, start)
  }

  function Step(f: Flood, e: Event): Flood
    requires match e case Arrival(copy, _, _) => copy in f.inFlight && copy.to in f.routers
                     case Cleanup(a, _) => a in f.routers
  {
    match e
    case Arrival(_, _, _) => Arrive(f, e)
    case Cleanup(a, now) => f.(routers := f.routers[a := CleanedUp(f.routers[a], now)])
  }

  function Arrive(f: Flood, e: Event): Flood
    requires e.Arrival? && e.copy in f.inFlight && e.copy.to in f.routers
  {
    match Judge(f.routers[e.copy.to], e.copy.query, e.now, e.targets)
    case Ignored => f.(inFlight := f.inFlight - multiset{e.copy})
    case Forwarded(q, targets) => WithCopies(f, e, CopiesTo(q, targets))
    case _ => WithCopies(f, e, multiset{})
  }

  /** The flood once the copy is processed and those copies are sent. */
  function WithCopies(f: Flood, e: Event, copies: multiset<Copy>): Flood
    requires e.Arrival? && e.copy.to in f.routers
  {
    Processed(f.(inFlight := f.inFlight - multiset{e.copy} + copies, sends := f.sends + |copies|), f.routers[e.copy.to], e)
  }

  function Processed(f: Flood, r: Responder, e: Event): Flood
    requires e.Arrival?
  {
    f.(routers := f.routers[e.copy.to := Remember(r, e.copy.query, e.now)],
       outcomes := f.outcomes[e.copy.to := Judge(r, e.copy.query, e.now, e.targets)], processings := f.processings + 1)
  }

  ghost predicate IsRun(f: Flood, start: nat, events: seq<Event>)
    decreases |events|, 0
  {
    events == []
    || (IsRun(f, start, events[..|events| - 1])
        && CanHappen(Run(f, start, events[..|events| - 1]), events[|events| - 1], start))
  }

  ghost function Run(f: Flood, start: nat, events: seq<Event>): Flood
    requires IsRun(f, start, events)
    decreases |events|, 1
  {
    if events == [] then f else Step(Run(f, start, events[..|events| - 1]), events[|events| - 1])
  }

  // ----- the invariant -----

  /** The query as it was asked, after some hops. */
  predicate CopyOk(f: Flood, q: Query, c: Copy) {
    && c.to in f.routers && c.to != q.source
    && c.query == Query(q.fileId, q.terms, q.source, q.queryId, c.query.hopCount) && c.query.hopCount < MAX_HOP_COUNT
  }

  predicate CachedSince(cache: map<u32, nat>, queryId: u32, start: nat) {
    queryId in cache && start <= cache[queryId]
  }

  /** A router has processed the query exactly when it has remembered it since the start. */
  predicate RememberedRight(f: Flood, queryId: u32, start: nat, a: u32)
    requires a in f.routers
  {
    CachedSince(f.routers[a].cache, queryId, start) <==> a in f.outcomes
  }

  ghost predicate Invariant(f: Flood, q: Query, start: nat) {
    && WellConnected(f.routers) && q.source in f.routers && CachedSince(f.routers[q.source].cache, q.queryId, start)
    && (forall c {:trigger CopyOk(f, q, c)} | c in f.inFlight :: CopyOk(f, q, c))
    && f.outcomes.Keys <= f.routers.Keys - {q.source}
    && (forall a {:trigger RememberedRight(f, q.queryId, start, a)} | a in f.routers && a != q.source ::
          RememberedRight(f, q.queryId, start, a))
    && f.processings == |f.outcomes|
  }

  /** What is left to happen: six for every router that has not processed the query, and one for every copy. */
  function Left(f: Flood): int {
    6 * (|f.routers| - 1 - |f.outcomes|) + |f.inFlight|
  }

  lemma StartIsOk(f: Flood, q: Query, start: nat, broadcast: seq<u32>)
    requires Started(f, q, start, broadcast)
    ensures Invariant(f, q, start) && |f.inFlight| == f.sends <= |f.routers| - 1
  {
    CopiesToFacts(q, broadcast);
    assert ConnectedInside(f.routers, q.source);
    forall c | c in f.inFlight ensures CopyOk(f, q, c) { assert c.to in broadcast; }
    DistinctIsSmall(broadcast, f.routers.Keys - {q.source});
    assert |f.routers.Keys - {q.source}| == |f.routers.Keys| - 1 && |f.routers| == |f.routers.Keys|;
  }

  lemma {:induction false} DistinctIsSmall(s: seq<u32>, among: set<u32>)
    requires Distinct(s) && forall i | 0 <= i < |s| :: s[i] in among
    ensures |s| <= |among|
  {
    if s != [] {
      var last, before := s[|s| - 1], s[..|s| - 1];
      DistinctIsSmall(before, among - {last});
    }
  }

  // ----- one arrival -----

  lemma TakeOne(flight: multiset<Copy>, c: Copy)
    requires c in flight
    ensures |flight - multiset{c}| == |flight| - 1
    ensures forall d | d in flight - multiset{c} :: d in flight
  {
  }

  /** A router that has the query from this flood in its cache ignores it. */
  lemma CachedIsIgnored(f: Flood, e: Event, q: Query, start: nat)
    requires Invariant(f, q, start) && CanArrive(f, e, start) && e.copy.to in f.outcomes
    ensures Judge(f.routers[e.copy.to], e.copy.query, e.now, e.targets) == Ignored
  {
    assert CopyOk(f, q, e.copy);
    assert RememberedRight(f, q.queryId, start, e.copy.to);
  }

  lemma ProcessedKeeps(f: Flood, e: Event, left: multiset<Copy>, sends: nat, q: Query, start: nat)
    requires Invariant(f, q, start) && CanArrive(f, e, start)
    requires Judge(f.routers[e.copy.to], e.copy.query, e.now, e.targets) != Ignored
    requires forall c | c in left :: CopyOk(f, q, c)
    ensures var after := Processed(f.(inFlight := left, sends := sends), f.routers[e.copy.to], e);
      && Invariant(after, q, start)
      && e.copy.to !in f.outcomes && |after.routers| == |f.routers| && |after.outcomes| == |f.outcomes| + 1
  {
    var to, r := e.copy.to, f.routers[e.copy.to];
    var after := Processed(f.(inFlight := left, sends := sends), r, e);
    assert CopyOk(f, q, e.copy);
    if to in f.outcomes { CachedIsIgnored(f, e, q, start); }
    assert after.routers.Keys == f.routers.Keys;
    assert |after.routers| == |after.routers.Keys| && |f.routers| == |f.routers.Keys|;
    forall a | a in after.routers ensures ConnectedInside(after.routers, a) { assert ConnectedInside(f.routers, a); }
    forall a | a in after.routers && a != q.source ensures RememberedRight(after, q.queryId, start, a) {
      assert RememberedRight(f, q.queryId, start, a);
    }
    forall c | c in after.inFlight ensures CopyOk(after, q, c) { assert CopyOk(f, q, c); }
  }

  /** What one arrival does to the counts. */
  ghost predicate Advances(f: Flood, after: Flood) {
    && Left(after) < Left(f) && |after.routers| == |f.routers|
    && after.sends - |after.inFlight| == f.sends - |f.inFlight| + 1
    && after.sends - 5 * after.processings <= f.sends - 5 * f.processings
  }

  lemma ForwardedCopies(f: Flood, e: Event, q: Query, start: nat)
    requires Invariant(f, q, start) && CanArrive(f, e, start)
    requires e.copy.query.hopCount < MAX_HOP_COUNT - 1
    ensures var copies := CopiesTo(OneHopFurther(e.copy.query), e.targets);
      |copies| == |e.targets| <= 5 && forall c | c in copies :: CopyOk(f, q, c)
  {
    var further := OneHopFurther(e.copy.query);
    assert CopyOk(f, q, e.copy) && ConnectedInside(f.routers, e.copy.to);
    CopiesToFacts(further, e.targets);
    forall c | c in CopiesTo(further, e.targets) ensures CopyOk(f, q, c) {
      var i :| 0 <= i < |e.targets| && e.targets[i] == c.to;
    }
  }

  lemma IgnoredKeeps(f: Flood, c: Copy, q: Query, start: nat)
    requires Invariant(f, q, start) && c in f.inFlight
    ensures var after := f.(inFlight := f.inFlight - multiset{c});
      Invariant(after, q, start) && Advances(f, after)
  {
    TakeOne(f.inFlight, c);
    var after := f.(inFlight := f.inFlight - multiset{c});
    forall a | a in after.routers && a != q.source ensures RememberedRight(after, q.queryId, start, a) {
      assert RememberedRight(f, q.queryId, start, a);
    }
    forall d | d in after.inFlight ensures CopyOk(after, q, d) { assert CopyOk(f, q, d); }
  }

  lemma ForwardedInvariant(f: Flood, e: Event, copies: multiset<Copy>, q: Query, start: nat)
    requires Invariant(f, q, start) && CanArrive(f, e, start)
    requires Judge(f.routers[e.copy.to], e.copy.query, e.now, e.targets) != Ignored
    requires forall c | c in copies :: CopyOk(f, q, c)
    ensures var after := WithCopies(f, e, copies);
      Invariant(after, q, start) && |after.routers| == |f.routers| && |after.outcomes| == |f.outcomes| + 1
  {
    var flight := f.inFlight - multiset{e.copy} + copies;
    forall c | c in flight ensures CopyOk(f, q, c) { assert c in f.inFlight || c in copies; }
    ProcessedKeeps(f, e, flight, f.sends + |copies|, q, start);
  }

  lemma ForwardedKeeps(f: Flood, e: Event, copies: multiset<Copy>, q: Query, start: nat)
    requires Invariant(f, q, start) && CanArrive(f, e, start)
    requires Judge(f.routers[e.copy.to], e.copy.query, e.now, e.targets) != Ignored
    requires |copies| <= 5 && forall c | c in copies :: CopyOk(f, q, c)
    ensures Invariant(WithCopies(f, e, copies), q, start) && Advances(f, WithCopies(f, e, copies))
  {
    ForwardedInvariant(f, e, copies, q, start);
    TakeOne(f.inFlight, e.copy);
    AdvancesBy(f, f.inFlight - multiset{e.copy}, WithCopies(f, e, copies), copies);
  }

  lemma AdvancesBy(f: Flood, left: multiset<Copy>, after: Flood, copies: multiset<Copy>)
    requires |copies| <= 5 && |left| == |f.inFlight| - 1 && after.inFlight == left + copies
    requires after.sends == f.sends + |copies| && after.processings == f.processings + 1
    requires |after.routers| == |f.routers| && |after.outcomes| == |f.outcomes| + 1
    ensures Advances(f, after)
  {
    assert |left + copies| == |left| + |copies|;
  }

  lemma ForwardArrives(f: Flood, e: Event, q: Query, start: nat)
    requires Invariant(f, q, start) && CanArrive(f, e, start)
    requires Judge(f.routers[e.copy.to], e.copy.query, e.now, e.targets).Forwarded?
    ensures Invariant(Arrive(f, e), q, start) && Advances(f, Arrive(f, e))
  {
    var copies := CopiesTo(OneHopFurther(e.copy.query), e.targets);
    ForwardedCopies(f, e, q, start);
    ForwardedKeeps(f, e, copies, q, start);
  }

  lemma LastArrives(f: Flood, e: Event, q: Query, start: nat)
    requires Invariant(f, q, start) && CanArrive(f, e, start)
    requires var o := Judge(f.routers[e.copy.to], e.copy.query, e.now, e.targets); o.Answered? || o.Exhausted?
    ensures Invariant(Arrive(f, e), q, start) && Advances(f, Arrive(f, e))
  {
    ForwardedKeeps(f, e, multiset{}, q, start);
  }

  lemma ArriveKeeps(f: Flood, e: Event, q: Query, start: nat)
    requires Invariant(f, q, start) && CanArrive(f, e, start)
    ensures Invariant(Arrive(f, e), q, start) && Advances(f, Arrive(f, e))
  {
    match Judge(f.routers[e.copy.to], e.copy.query, e.now, e.targets)
    case Ignored => IgnoredKeeps(f, e.copy, q, start);
    case Forwarded(_, _) => ForwardArrives(f, e, q, start);
    case _ => LastArrives(f, e, q, start);
  }

  // ----- a cleanup -----

  lemma CleanupKeeps(f: Flood, e: Event, q: Query, start: nat)
    requires Invariant(f, q, start) && e.Cleanup? && CanHappen(f, e, start)
    ensures Invariant(Step(f, e), q, start) && |Step(f, e).routers| == |f.routers|
    ensures Step(f, e) == f.(routers := Step(f, e).routers)
  {
    var after := Step(f, e);
    CleanupKeepsVerdicts(f.routers[e.router].cache, q.queryId, e.now);
    assert after.routers.Keys == f.routers.Keys;
    assert |after.routers| == |after.routers.Keys| && |f.routers| == |f.routers.Keys|;
    forall a | a in after.routers ensures ConnectedInside(after.routers, a) { assert ConnectedInside(f.routers, a); }
    forall a | a in after.routers && a != q.source ensures RememberedRight(after, q.queryId, start, a) {
      assert RememberedRight(f, q.queryId, start, a);
    }
    forall c | c in after.inFlight ensures CopyOk(after, q, c) { assert CopyOk(f, q, c); }
  }

  lemma StepKeeps(f: Flood, e: Event, q: Query, start: nat)
    requires Invariant(f, q, start) && CanHappen(f, e, start)
    ensures Invariant(Step(f, e), q, start) && |Step(f, e).routers| == |f.routers|
  {
    if e.Arrival? { ArriveKeeps(f, e, q, start); } else { CleanupKeeps(f, e, q, start); }
  }

  function Arrivals(events: seq<Event>): nat {
    if events == [] then 0
    else Arrivals(events[..|events| - 1]) + if events[|events| - 1].Arrival? then 1 else 0
  }

  lemma {:induction false} RunKeeps(f: Flood, q: Query, start: nat, broadcast: seq<u32>,
                                    events: seq<Event>)
    requires Started(f, q, start, broadcast) && IsRun(f, start, events)
    ensures var g := Run(f, start, events);
      && Invariant(g, q, start) && |g.routers| == |f.routers|
      && g.sends - |g.inFlight| == Arrivals(events)
      && g.sends - 5 * g.processings <= |f.routers| - 1
    decreases |events|
  {
    if events == [] {
      StartIsOk(f, q, start, broadcast);
    } else {
      var before := events[..|events| - 1];
      RunKeeps(f, q, start, broadcast, before);
      var mid, e := Run(f, start, before), events[|events| - 1];
      if e.Arrival? { ArriveKeeps(mid, e, q, start); } else { CleanupKeeps(mid, e, q, start); }
    }
  }

  /** A flood ends: each router processes the query at most once, the origin never, no copy has more than fifteen hops,
      and however the copies travel and whoever cleans up meanwhile, at most six per other router are sent and at most as
      many arrive. */
  lemma FloodEnds(f: Flood, q: Query, start: nat, broadcast: seq<u32>, events: seq<Event>)
    requires Started(f, q, start, broadcast) && IsRun(f, start, events)
    ensures var g := Run(f, start, events);
      && g.processings == |g.outcomes| && g.outcomes.Keys <= g.routers.Keys - {q.source}
      && (forall c | c in g.inFlight :: c.query.hopCount <= 15)
      && Arrivals(events) + |g.inFlight| == g.sends <= 6 * (|f.routers| - 1)
  {
    RunKeeps(f, q, start, broadcast, events);
    var g := Run(f, start, events);
    assert |g.routers.Keys - {q.source}| == |g.routers.Keys| - 1 && |g.routers| == |g.routers.Keys|;
    SubsetIsSmaller(g.outcomes.Keys, g.routers.Keys - {q.source});
    forall c | c in g.inFlight ensures c.query.hopCount <= 15 { assert CopyOk(g, q, c); }
  }

  /** Every arrival brings the end nearer: six for each router still to be reached and one for each copy decrease. */
  lemma ArrivalsRunOut(f: Flood, q: Query, start: nat, broadcast: seq<u32>, events: seq<Event>, e: Event)
    requires Started(f, q, start, broadcast) && IsRun(f, start, events)
    requires CanArrive(Run(f, start, events), e, start)
    ensures 0 <= Left(Arrive(Run(f, start, events), e)) < Left(Run(f, start, events))
  {
    RunKeeps(f, q, start, broadcast, events);
    var g := Run(f, start, events);
    ArriveKeeps(g, e, q, start);
    var h := Arrive(g, e);
    assert |h.routers.Keys - {q.source}| == |h.routers.Keys| - 1 && |h.routers| == |h.routers.Keys|;
    SubsetIsSmaller(h.outcomes.Keys, h.routers.Keys - {q.source});
  }
}
