/** Whom a file query reaches: when a flood is over, whoever forwarded it has been heard by its neighbours, and whoever
    has the file has answered. */
module FloodCoverage {
  import opened Arithmetic
  import opened Bounded
  import opened QueryFlood
  import opened QueryModel
  import opened RoutingData

  /** A query under the same number within the minute before makes a router deaf to this one. */
  predicate Deaf(f: Flood, q: Query, start: nat, t: u32)
    requires t in f.routers
  {
    SeenRecently(f.routers[t].cache, q.queryId, start)
  }

  /** The router has processed the query, or asked it, or is deaf to it. */
  predicate Heard(f: Flood, g: Flood, q: Query, start: nat, t: u32) {
    t in f.routers && (t == q.source || t in g.outcomes || Deaf(f, q, start, t))
  }

  ghost predicate Coming(g: Flood, t: u32) {
    exists c :: c in g.inFlight && c.to == t
  }

  ghost predicate HeardOrComing(f: Flood, g: Flood, q: Query, start: nat, t: u32) {
    t in f.routers && (Heard(f, g, q, start, t) || Coming(g, t))
  }

  /** What does not change, and what only cleanups change. */
  ghost predicate SameRouter(f: Flood, g: Flood, q: Query, a: u32)
    requires a in f.routers
  {
    && a in g.routers && g.routers[a].id == a == f.routers[a].id && g.routers[a].direct == f.routers[a].direct
    && (forall l | l in OwnCopies(g.routers[a], q.fileId) :: l in OwnCopies(f.routers[a], q.fileId))
    && (a != q.source && a !in g.outcomes && q.queryId in g.routers[a].cache ==>
          q.queryId in f.routers[a].cache && f.routers[a].cache[q.queryId] == g.routers[a].cache[q.queryId])
  }

  ghost predicate AnswerOk(f: Flood, g: Flood, q: Query, a: u32, to: u32, response: FileQueryResponse)
    requires a in f.routers && a in g.routers
  {
    && to == q.source && response.queryId == q.queryId && response.responder == a && response.locations != []
    && (forall l | l in response.locations :: l in OwnCopies(f.routers[a], q.fileId))
    && (forall l | l in OwnCopies(g.routers[a], q.fileId) :: l in response.locations)
  }

  ghost predicate ForwardOk(f: Flood, g: Flood, q: Query, start: nat, a: u32, targets: seq<u32>)
    requires a in f.routers
  {
    AreTargets(f.routers[a].direct, q.source, targets) && forall t | t in targets :: HeardOrComing(f, g, q, start, t)
  }

  /** What a router did with the query, and that nothing it sent has been lost. */
  ghost predicate OutcomeOk(f: Flood, g: Flood, q: Query, start: nat, a: u32)
    requires a in g.outcomes && a in f.routers && a in g.routers
  {
    match g.outcomes[a]
    case Ignored => false
    case Answered(to, response) => AnswerOk(f, g, q, a, to, response)
    case Forwarded(_, targets) => OwnCopies(g.routers[a], q.fileId) == [] && ForwardOk(f, g, q, start, a, targets)
    case Exhausted => OwnCopies(g.routers[a], q.fileId) == [] && |f.routers| > 16
  }

  ghost predicate Covers(f: Flood, g: Flood, q: Query, start: nat) {
    && q.source in f.routers && g.routers.Keys == f.routers.Keys && g.outcomes.Keys <= f.routers.Keys
    && (forall a {:trigger SameRouter(f, g, q, a)} | a in f.routers :: SameRouter(f, g, q, a))
    && (forall c | c in g.inFlight :: c.query.hopCount <= |g.outcomes|)
    && (forall t | t in f.routers[q.source].direct :: HeardOrComing(f, g, q, start, t))
    && (forall a {:trigger OutcomeOk(f, g, q, start, a)} | a in g.outcomes :: OutcomeOk(f, g, q, start, a))
  }

  lemma NoneOfNone<T>(a: seq<T>, b: seq<T>)
    requires forall x | x in a :: x in b
    ensures b == [] ==> a == []
  {
    if a != [] { assert a[0] in b; }
  }

  lemma {:induction false} CopyToEach(q: Query, targets: seq<u32>, t: u32)
    requires t in targets
    ensures Copy(t, q) in CopiesTo(q, targets)
    decreases |targets|
  {
    var n := |targets| - 1;
    if targets[n] != t { CopyToEach(q, targets[..n], t); }
  }

  lemma StartCovers(f: Flood, q: Query, start: nat, broadcast: seq<u32>)
    requires Started(f, q, start, broadcast)
    ensures Covers(f, f, q, start)
  {
    CopiesToFacts(q, broadcast);
    assert ConnectedInside(f.routers, q.source);
    forall a | a in f.routers ensures SameRouter(f, f, q, a) { assert ConnectedInside(f.routers, a); }
    forall t | t in f.routers[q.source].direct ensures HeardOrComing(f, f, q, start, t) {
      CopyToEach(q, broadcast, t);
      assert Copy(t, q).to == t;
    }
  }

  // ----- steps -----

  /** Whoever was reached stays so, unless the copy on its way was the one that arrived. */
  lemma StaysHeard(f: Flood, g: Flood, after: Flood, q: Query, start: nat, c: Copy, t: u32)
    requires HeardOrComing(f, g, q, start, t) && g.outcomes.Keys <= after.outcomes.Keys
    requires forall d | d in g.inFlight && d.to != c.to :: d in after.inFlight
    requires Heard(f, after, q, start, c.to)
    ensures HeardOrComing(f, after, q, start, t)
  {
    if !Heard(f, g, q, start, t) && t != c.to {
      var d :| d in g.inFlight && d.to == t;
      assert d in after.inFlight;
    }
  }

  /** The outcomes of before, when the tables have lost own copies at most. */
  lemma OutcomeStays(f: Flood, g: Flood, after: Flood, q: Query, start: nat, c: Copy, a: u32)
    requires a in g.outcomes && a in f.routers && a in g.routers && OutcomeOk(f, g, q, start, a)
    requires a in after.routers && a in after.outcomes && after.outcomes[a] == g.outcomes[a]
    requires forall l | l in OwnCopies(after.routers[a], q.fileId) :: l in OwnCopies(g.routers[a], q.fileId)
    requires g.outcomes.Keys <= after.outcomes.Keys
    requires forall d | d in g.inFlight && d.to != c.to :: d in after.inFlight
    requires Heard(f, after, q, start, c.to)
    ensures OutcomeOk(f, after, q, start, a)
  {
    NoneOfNone(OwnCopies(after.routers[a], q.fileId), OwnCopies(g.routers[a], q.fileId));
    match g.outcomes[a]
    case Forwarded(_, targets) =>
      forall t | t in targets ensures HeardOrComing(f, after, q, start, t) { StaysHeard(f, g, after, q, start, c, t); }
    case _ =>
  }

  lemma IgnoredWasHeard(f: Flood, g: Flood, e: Event, q: Query, start: nat)
    requires Invariant(g, q, start) && Covers(f, g, q, start) && CanArrive(g, e, start)
    requires Judge(g.routers[e.copy.to], e.copy.query, e.now, e.targets) == Ignored
    ensures Heard(f, g, q, start, e.copy.to)
  {
    var t := e.copy.to;
    assert CopyOk(g, q, e.copy) && SameRouter(f, g, q, t);
    assert RememberedRight(g, q.queryId, start, t);
  }

  lemma IgnoredCovers(f: Flood, g: Flood, e: Event, q: Query, start: nat)
    requires Invariant(g, q, start) && Covers(f, g, q, start) && CanArrive(g, e, start)
    requires Judge(g.routers[e.copy.to], e.copy.query, e.now, e.targets) == Ignored
    ensures Covers(f, Arrive(g, e), q, start)
  {
    var after := Arrive(g, e);
    IgnoredWasHeard(f, g, e, q, start);
    TakeOne(g.inFlight, e.copy);
    forall a | a in f.routers ensures SameRouter(f, after, q, a) { assert SameRouter(f, g, q, a); }
    forall t | t in f.routers[q.source].direct ensures HeardOrComing(f, after, q, start, t) {
      StaysHeard(f, g, after, q, start, e.copy, t);
    }
    forall a | a in after.outcomes ensures OutcomeOk(f, after, q, start, a) {
      assert OutcomeOk(f, g, q, start, a);
      OutcomeStays(f, g, after, q, start, e.copy, a);
    }
  }

  /** What a router does when it processes the query. */
  lemma NewOutcome(f: Flood, g: Flood, e: Event, q: Query, start: nat)
    requires Invariant(g, q, start) && Covers(f, g, q, start) && CanArrive(g, e, start)
    requires Judge(g.routers[e.copy.to], e.copy.query, e.now, e.targets) != Ignored
    ensures var after := Arrive(g, e);
      && e.copy.to in after.outcomes && e.copy.to in f.routers && e.copy.to in after.routers
      && OutcomeOk(f, after, q, start, e.copy.to)
  {
    var after, t := Arrive(g, e), e.copy.to;
    var r := g.routers[t];
    assert CopyOk(g, q, e.copy) && SameRouter(f, g, q, t) && ConnectedInside(g.routers, t);
    assert OwnCopies(after.routers[t], q.fileId) == OwnCopies(r, q.fileId);
    if t in g.outcomes { CachedIsIgnored(g, e, q, start); }
    match Judge(r, e.copy.query, e.now, e.targets)
    case Answered(to, response) => assert response.locations == OwnCopies(r, q.fileId);
    case Forwarded(further, targets) =>
      forall u | u in targets ensures HeardOrComing(f, after, q, start, u) {
        CopyToEach(further, targets, u);
        assert Copy(u, further) in after.inFlight;
        var i :| 0 <= i < |targets| && targets[i] == u;
      }
    case Exhausted => FewHaveProcessed(f, g, e, q, start);
    case Ignored =>
  }

  /** A copy that has come fifteen hops was processed by fifteen others. */
  lemma FewHaveProcessed(f: Flood, g: Flood, e: Event, q: Query, start: nat)
    requires Invariant(g, q, start) && Covers(f, g, q, start) && CanArrive(g, e, start) && e.copy.to !in g.outcomes
    requires e.copy.query.hopCount >= 15
    ensures |f.routers| > 16
  {
    assert CopyOk(g, q, e.copy);
    var others := g.routers.Keys - {q.source} - {e.copy.to};
    assert g.outcomes.Keys <= others;
    SubsetIsSmaller(g.outcomes.Keys, others);
    assert |others| == |g.routers.Keys| - 2;
    assert |g.outcomes| == |g.outcomes.Keys| && |f.routers| == |f.routers.Keys|;
  }

  /** What an arrival that is processed leaves as it was. */
  ghost predicate OnlyAt(g: Flood, after: Flood, c: Copy) {
    && after.routers.Keys == g.routers.Keys && c.to in g.routers
    && after.outcomes.Keys == g.outcomes.Keys + {c.to} && c.to !in g.outcomes
    && (forall a | a in g.routers && a != c.to :: after.routers[a] == g.routers[a])
    && (forall a | a in g.outcomes :: after.outcomes[a] == g.outcomes[a])
    && (forall d | d in g.inFlight && d.to != c.to :: d in after.inFlight)
    && after.routers[c.to] == g.routers[c.to].(cache := after.routers[c.to].cache)
  }

  lemma ArrivesOnlyAt(g: Flood, e: Event, q: Query, start: nat)
    requires Invariant(g, q, start) && CanArrive(g, e, start)
    requires Judge(g.routers[e.copy.to], e.copy.query, e.now, e.targets) != Ignored
    ensures OnlyAt(g, Arrive(g, e), e.copy)
  {
    if e.copy.to in g.outcomes { CachedIsIgnored(g, e, q, start); }
  }

  lemma OthersCovered(f: Flood, g: Flood, after: Flood, q: Query, start: nat, c: Copy)
    requires Covers(f, g, q, start) && OnlyAt(g, after, c)
    ensures forall a {:trigger SameRouter(f, after, q, a)} | a in f.routers :: SameRouter(f, after, q, a)
    ensures forall t | t in f.routers[q.source].direct :: HeardOrComing(f, after, q, start, t)
    ensures forall a {:trigger OutcomeOk(f, after, q, start, a)} | a in after.outcomes && a != c.to ::
              OutcomeOk(f, after, q, start, a)
  {
    forall a | a in f.routers ensures SameRouter(f, after, q, a) { assert SameRouter(f, g, q, a); }
    forall t | t in f.routers[q.source].direct ensures HeardOrComing(f, after, q, start, t) {
      StaysHeard(f, g, after, q, start, c, t);
    }
    forall a | a in after.outcomes && a != c.to ensures OutcomeOk(f, after, q, start, a) {
      assert OutcomeOk(f, g, q, start, a);
      OutcomeStays(f, g, after, q, start, c, a);
    }
  }

  lemma ProcessedCovers(f: Flood, g: Flood, e: Event, q: Query, start: nat)
    requires Invariant(g, q, start) && Covers(f, g, q, start) && CanArrive(g, e, start)
    requires Judge(g.routers[e.copy.to], e.copy.query, e.now, e.targets) != Ignored
    ensures Covers(f, Arrive(g, e), q, start)
  {
    NewOutcome(f, g, e, q, start);
    ArrivesOnlyAt(g, e, q, start);
    OthersCovered(f, g, Arrive(g, e), q, start, e.copy);
    HopsStayFew(g, e, q, start);
  }

  lemma HopsStayFew(g: Flood, e: Event, q: Query, start: nat)
    requires Invariant(g, q, start) && CanArrive(g, e, start)
    requires forall c | c in g.inFlight :: c.query.hopCount <= |g.outcomes|
    requires Judge(g.routers[e.copy.to], e.copy.query, e.now, e.targets) != Ignored
    ensures forall c | c in Arrive(g, e).inFlight :: c.query.hopCount <= |Arrive(g, e).outcomes|
  {
    if e.copy.to in g.outcomes { CachedIsIgnored(g, e, q, start); }
    assert |Arrive(g, e).outcomes| == |g.outcomes| + 1;
    match Judge(g.routers[e.copy.to], e.copy.query, e.now, e.targets)
    case Forwarded(further, targets) => CopiesToFacts(further, targets);
    case _ =>
  }

  lemma CleanupCovers(f: Flood, g: Flood, e: Event, q: Query, start: nat)
    requires Invariant(g, q, start) && Covers(f, g, q, start) && e.Cleanup? && CanHappen(g, e, start)
    ensures Covers(f, Step(g, e), q, start)
  {
    var after := Step(g, e);
    CleanupKeepsVerdicts(g.routers[e.router].cache, q.queryId, e.now);
    CleanupOnlyLoses(g.routers[e.router], q.fileId, e.now);
    forall a | a in f.routers ensures SameRouter(f, after, q, a) { assert SameRouter(f, g, q, a); }
    forall t | t in f.routers[q.source].direct ensures HeardOrComing(f, after, q, start, t) {
      assert HeardOrComing(f, g, q, start, t);
      SameFlight(f, g, after, q, start, t);
    }
    forall a | a in after.outcomes ensures OutcomeOk(f, after, q, start, a) {
      assert OutcomeOk(f, g, q, start, a);
      OutcomeStaysIdle(f, g, after, q, start, a);
    }
  }

  lemma SameFlight(f: Flood, g: Flood, after: Flood, q: Query, start: nat, t: u32)
    requires HeardOrComing(f, g, q, start, t) && after.outcomes == g.outcomes && after.inFlight == g.inFlight
    ensures HeardOrComing(f, after, q, start, t)
  {
  }

  lemma OutcomeStaysIdle(f: Flood, g: Flood, after: Flood, q: Query, start: nat, a: u32)
    requires a in g.outcomes && a in f.routers && a in g.routers && OutcomeOk(f, g, q, start, a)
    requires a in after.routers && after.outcomes == g.outcomes && after.inFlight == g.inFlight
    requires forall l | l in OwnCopies(after.routers[a], q.fileId) :: l in OwnCopies(g.routers[a], q.fileId)
    ensures OutcomeOk(f, after, q, start, a)
  {
    NoneOfNone(OwnCopies(after.routers[a], q.fileId), OwnCopies(g.routers[a], q.fileId));
    match g.outcomes[a]
    case Forwarded(_, targets) =>
      forall t | t in targets ensures HeardOrComing(f, after, q, start, t) { SameFlight(f, g, after, q, start, t); }
    case _ =>
  }

  lemma {:induction false} RunCovers(f: Flood, q: Query, start: nat, broadcast: seq<u32>, events: seq<Event>)
    requires Started(f, q, start, broadcast) && IsRun(f, start, events)
    ensures Covers(f, Run(f, start, events), q, start)
    decreases |events|
  {
    if events == [] {
      StartCovers(f, q, start, broadcast);
    } else {
      var g, e := Run(f, start, events[..|events| - 1]), events[|events| - 1];
      RunCovers(f, q, start, broadcast, events[..|events| - 1]);
      RunKeeps(f, q, start, broadcast, events[..|events| - 1]);
      if e.Cleanup? {
        CleanupCovers(f, g, e, q, start);
      } else if Judge(g.routers[e.copy.to], e.copy.query, e.now, e.targets) == Ignored {
        IgnoredCovers(f, g, e, q, start);
      } else {
        ProcessedCovers(f, g, e, q, start);
      }
    }
  }

  // ----- when nothing is on its way any more -----

  lemma {:induction false} DistinctFills(s: seq<u32>, among: set<u32>)
    requires Distinct(s) && (forall i | 0 <= i < |s| :: s[i] in among) && |s| == |among|
    ensures forall t | t in among :: t in s
    decreases |s|
  {
    if s == [] {
      assert among == {};
    } else {
      var n := |s| - 1;
      assert s == s[..n] + [s[n]];
      DistinctFills(s[..n], among - {s[n]});
    }
  }

  /** The router had no copy of its own when the flood began, and has at most five neighbours to pass the query on to. */
  predicate PassesOn(f: Flood, q: Query, a: u32) {
    a in f.routers && OwnCopies(f.routers[a], q.fileId) == [] && |f.routers[a].direct - {q.source}| <= 5
  }

  lemma PassedOn(f: Flood, g: Flood, q: Query, start: nat, a: u32, t: u32)
    requires Covers(f, g, q, start) && g.inFlight == multiset{} && |f.routers| <= 16
    requires a in g.outcomes && PassesOn(f, q, a) && t in f.routers[a].direct
    ensures t == q.source || Heard(f, g, q, start, t)
  {
    assert OutcomeOk(f, g, q, start, a) && SameRouter(f, g, q, a);
    match g.outcomes[a]
    case Forwarded(_, targets) =>
      DistinctFills(targets, f.routers[a].direct - {q.source});
      if t != q.source { assert HeardOrComing(f, g, q, start, t); }
    case Answered(_, response) => NoneOfNone(response.locations, OwnCopies(f.routers[a], q.fileId));
    case Exhausted =>
    case Ignored =>
  }

  /** When a flood is over, every direct peer of the origin has heard the query, and so has every direct peer of a router
      that passed it on; among at most sixteen routers every one that could pass it on has. */
  lemma FloodCovers(f: Flood, q: Query, start: nat, broadcast: seq<u32>, events: seq<Event>)
    requires Started(f, q, start, broadcast) && IsRun(f, start, events)
    requires Run(f, start, events).inFlight == multiset{}
    ensures var g := Run(f, start, events);
      && (forall t | t in f.routers[q.source].direct :: Heard(f, g, q, start, t))
      && (forall a, t | a in g.outcomes && a in f.routers && g.outcomes[a].Forwarded? && t in f.routers[a].direct
                        && t != q.source && |f.routers[a].direct - {q.source}| <= 5 :: Heard(f, g, q, start, t))
      && (|f.routers| <= 16 ==>
            forall a | a in g.outcomes && PassesOn(f, q, a) :: g.outcomes[a].Forwarded?)
  {
    RunCovers(f, q, start, broadcast, events);
    var g := Run(f, start, events);
    forall t | t in f.routers[q.source].direct ensures Heard(f, g, q, start, t) {
      assert HeardOrComing(f, g, q, start, t);
    }
    forall a, t | a in g.outcomes && a in f.routers && g.outcomes[a].Forwarded? && t in f.routers[a].direct
                  && t != q.source && |f.routers[a].direct - {q.source}| <= 5
      ensures Heard(f, g, q, start, t)
    {
      assert OutcomeOk(f, g, q, start, a);
      DistinctFills(g.outcomes[a].targets, f.routers[a].direct - {q.source});
      assert HeardOrComing(f, g, q, start, t);
    }
    forall a | a in g.outcomes && PassesOn(f, q, a) && |f.routers| <= 16 ensures g.outcomes[a].Forwarded? {
      assert OutcomeOk(f, g, q, start, a);
      if g.outcomes[a].Answered? {
        NoneOfNone(g.outcomes[a].response.locations, OwnCopies(f.routers[a], q.fileId));
      }
    }
  }

  /** A router with more neighbours than five was heard by five of them at least. */
  lemma FiveHear(f: Flood, q: Query, start: nat, broadcast: seq<u32>, events: seq<Event>, a: u32)
    requires Started(f, q, start, broadcast) && IsRun(f, start, events)
    requires Run(f, start, events).inFlight == multiset{}
    requires a in Run(f, start, events).outcomes && a in f.routers && Run(f, start, events).outcomes[a].Forwarded?
    ensures var g := Run(f, start, events);
      |set t | t in f.routers[a].direct - {q.source} && Heard(f, g, q, start, t)|
        >= Min(5, |f.routers[a].direct - {q.source}|)
  {
    RunCovers(f, q, start, broadcast, events);
    HeardByTargets(f, Run(f, start, events), q, start, a);
  }

  lemma HeardByTargets(f: Flood, g: Flood, q: Query, start: nat, a: u32)
    requires Covers(f, g, q, start) && g.inFlight == multiset{} && a in g.outcomes && a in f.routers
    requires g.outcomes[a].Forwarded?
    ensures |set t | t in f.routers[a].direct - {q.source} && Heard(f, g, q, start, t)|
            >= Min(5, |f.routers[a].direct - {q.source}|)
  {
    assert OutcomeOk(f, g, q, start, a);
    var targets := g.outcomes[a].targets;
    var heard := set t | t in f.routers[a].direct - {q.source} && Heard(f, g, q, start, t);
    forall i | 0 <= i < |targets| ensures targets[i] in heard { assert HeardOrComing(f, g, q, start, targets[i]); }
    DistinctIsSmall(targets, heard);
  }

  /** Whoever has heard the query and still has a copy of its own has told the origin about it, under the query's number,
      and about nothing but its own copies; whoever had none has told it nothing. */
  lemma OwnersAnswer(f: Flood, q: Query, start: nat, broadcast: seq<u32>, events: seq<Event>, a: u32)
    requires Started(f, q, start, broadcast) && IsRun(f, start, events) && a in Run(f, start, events).outcomes
    ensures var g := Run(f, start, events);
      && a in f.routers && a in g.routers
      && (OwnCopies(g.routers[a], q.fileId) != [] ==> g.outcomes[a].Answered?)
      && (OwnCopies(f.routers[a], q.fileId) == [] ==> !g.outcomes[a].Answered?)
      && (g.outcomes[a].Answered? ==> AnswerOk(f, g, q, a, g.outcomes[a].to, g.outcomes[a].response))
      && (g.outcomes[a].Answered? ==> forall l | l in g.outcomes[a].response.locations :: l.peerId == a)
  {
    RunCovers(f, q, start, broadcast, events);
    assert SameRouter(f, Run(f, start, events), q, a);
    OwnCopiesExactly(f.routers[a], q.fileId);
    assert OutcomeOk(f, Run(f, start, events), q, start, a);
    var g := Run(f, start, events);
    if g.outcomes[a].Answered? { NoneOfNone(g.outcomes[a].response.locations, OwnCopies(f.routers[a], q.fileId)); }
  }

  // ----- reach -----

  /** A walk along connections whose inner routers all pass the query on. */
  ghost predicate OpenWalk(f: Flood, q: Query, start: nat, walk: seq<u32>) {
    && walk != [] && walk[0] == q.source && (forall i | 0 <= i < |walk| :: walk[i] in f.routers)
    && (forall i | 0 <= i < |walk| - 1 :: walk[i + 1] in f.routers[walk[i]].direct)
    && (forall i | 0 < i < |walk| - 1 :: walk[i] == q.source || (PassesOn(f, q, walk[i]) && !Deaf(f, q, start, walk[i])))
  }

  /** Among at most sixteen routers, a flood that is over was heard by everyone at the end of such a walk, however the
      copies travelled and whichever neighbours were drawn. */
  lemma {:induction false} FloodReaches(f: Flood, q: Query, start: nat, broadcast: seq<u32>, events: seq<Event>,
                                        walk: seq<u32>)
    requires Started(f, q, start, broadcast) && IsRun(f, start, events) && |f.routers| <= 16
    requires Run(f, start, events).inFlight == multiset{} && OpenWalk(f, q, start, walk)
    ensures Heard(f, Run(f, start, events), q, start, walk[|walk| - 1])
    decreases |walk|
  {
    if |walk| > 1 {
      OpenSoFar(f, q, start, walk);
      FloodReaches(f, q, start, broadcast, events, walk[..|walk| - 1]);
      RunCovers(f, q, start, broadcast, events);
      WalkGoesOn(f, Run(f, start, events), q, start, walk[|walk| - 2], walk[|walk| - 1]);
    }
  }

  lemma OpenSoFar(f: Flood, q: Query, start: nat, walk: seq<u32>)
    requires OpenWalk(f, q, start, walk) && |walk| > 1
    ensures OpenWalk(f, q, start, walk[..|walk| - 1])
    ensures walk[|walk| - 2] in f.routers && walk[|walk| - 1] in f.routers[walk[|walk| - 2]].direct
    ensures var a := walk[|walk| - 2]; a == q.source || (PassesOn(f, q, a) && !Deaf(f, q, start, a))
  {
    var i := |walk| - 2;
    assert walk[i + 1] in f.routers[walk[i]].direct;
  }

  lemma WalkGoesOn(f: Flood, g: Flood, q: Query, start: nat, a: u32, t: u32)
    requires Covers(f, g, q, start) && g.inFlight == multiset{} && |f.routers| <= 16 && Heard(f, g, q, start, a)
    requires t in f.routers[a].direct && (a == q.source || (PassesOn(f, q, a) && !Deaf(f, q, start, a)))
    ensures Heard(f, g, q, start, t)
  {
    if a == q.source {
      assert HeardOrComing(f, g, q, start, t);
    } else {
      PassedOn(f, g, q, start, a, t);
    }
  }

  /** So a copy that is kept at the end of such a walk, at a router that is not deaf, is found. */
  lemma FileIsFound(f: Flood, q: Query, start: nat, broadcast: seq<u32>, events: seq<Event>, walk: seq<u32>)
    requires Started(f, q, start, broadcast) && IsRun(f, start, events) && |f.routers| <= 16
    requires Run(f, start, events).inFlight == multiset{} && OpenWalk(f, q, start, walk)
    requires var a, g := walk[|walk| - 1], Run(f, start, events);
      a != q.source && !Deaf(f, q, start, a) && a in g.routers && OwnCopies(g.routers[a], q.fileId) != []
    ensures var a, g := walk[|walk| - 1], Run(f, start, events);
      && a in g.outcomes && g.outcomes[a].Answered? && g.outcomes[a].to == q.source
      && g.outcomes[a].response.queryId == q.queryId
      && forall l | l in OwnCopies(g.routers[a], q.fileId) :: l in g.outcomes[a].response.locations
  {
    FloodReaches(f, q, start, broadcast, events, walk);
    OwnersAnswer(f, q, start, broadcast, events, walk[|walk| - 1]);
  }

  // ----- how it begins -----

  /** What `find_file` does starts a flood. */
  lemma AskingStarts(routers: map<u32, Responder>, origin: u32, file: Bytes, terms: seq<Bytes>, start: nat,
                     broadcast: seq<u32>)
    requires WellConnected(routers) && origin in routers
    requires Distinct(broadcast) && forall t :: t in broadcast <==> t in routers[origin].direct
    requires forall a | a in routers && a != origin && QueryId(file, terms) in routers[a].cache ::
               routers[a].cache[QueryId(file, terms)] < start
    ensures var r, q := routers[origin], Asked(origin, file, terms);
      var asked := routers[origin := r.(cache := r.cache[QueryId(file, terms) := start])];
      && Started(Flood(asked, CopiesTo(q, broadcast), |broadcast|, map[], 0), q, start, broadcast)
      && q.source == origin && q.fileId == file && q.terms == terms
  {
    var r := routers[origin];
    var asked := routers[origin := r.(cache := r.cache[QueryId(file, terms) := start])];
    forall a | a in asked ensures ConnectedInside(asked, a) { assert ConnectedInside(routers, a); }
  }
}
