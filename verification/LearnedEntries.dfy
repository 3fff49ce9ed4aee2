/** What a router knows of a peer that it learned from an update, field by field. */
module LearnedEntries {
  import opened Arithmetic
  import opened Bounded
  import opened HopWrap
  import opened RouterLearning
  import opened RouterModel
  import opened RoutingData

  /** The entry as advertised, one hop further and through the sender. */
  predicate TakenFrom(p: PeerInfo, source: u32, u: PeerInfo) {
    && p.peerId == u.peerId && p.ipAddress == u.ipAddress && p.port == u.port && p.lastSeen == u.lastSeen
    && p.reliability == u.reliability && p.bandwidth == u.bandwidth
    && p.hopCount == (u.hopCount + 1) % 0x100 && p.nextHop == source
  }

  /** The peer was taken from one of the entries, together with a route stamped with the time of the update. */
  ghost predicate Taken(s: Router, source: u32, updates: seq<PeerInfo>, now: nat, d: u32) {
    && d in s.known && d in s.routes
    && (exists i :: 0 <= i < |updates| && updates[i].peerId == d && TakenFrom(s.known[d], source, updates[i]))
    && s.routes[d].destination == d && s.routes[d].nextHop == source && s.routes[d].lastUpdated == now
    && s.routes[d].hopCount == s.known[d].hopCount && s.routes[d].metric == Metric(s.known[d])
  }

  lemma ApplyExplained(m: Router, source: u32, u: PeerInfo, now: nat, d: u32)
    ensures SameAt(m, Apply(m, source, u, now), d) || (u.peerId == d && Taken(Apply(m, source, u, now), source, [u], now, d))
  {
    if Accepts(m, u) && u.peerId == d {
      assert TakenFrom(Apply(m, source, u, now).known[d], source, [u][0]);
    }
  }

  lemma TakenLater(s: Router, source: u32, before: seq<PeerInfo>, updates: seq<PeerInfo>, now: nat, d: u32)
    requires before <= updates && Taken(s, source, before, now, d)
    ensures Taken(s, source, updates, now, d)
  {
    var i :| 0 <= i < |before| && before[i].peerId == d && TakenFrom(s.known[d], source, before[i]);
    assert updates[i] == before[i];
  }

  lemma {:induction false} AllExplained(r: Router, source: u32, updates: seq<PeerInfo>, now: nat, d: u32)
    ensures var s := ApplyAll(r, source, updates, now); SameAt(r, s, d) || Taken(s, source, updates, now, d)
    decreases |updates|
  {
    if updates != [] {
      var n := |updates| - 1;
      var m, s := ApplyAll(r, source, updates[..n], now), ApplyAll(r, source, updates, now);
      AllExplained(r, source, updates[..n], now, d);
      ApplyExplained(m, source, updates[n], now, d);
      if SameAt(m, s, d) {
        if Taken(m, source, updates[..n], now, d) { TakenLater(s, source, updates[..n], updates, now, d); }
      } else {
        assert TakenFrom(s.known[d], source, updates[n]);
      }
    }
  }

  /** After an update, what a router has on a peer is what it had, or an entry of the update with every field but the two
      about the way there, and a route of the same length through the sender that counts from now. */
  lemma EntriesExplained(r: Router, m: RouteUpdate, now: nat)
    ensures var s := HandleUpdate(r, m, now);
      && s.id == r.id && s.direct == r.direct
      && (forall d :: SameAt(r, s, d) || Taken(s, m.source, m.updates, now, d))
  {
    var s := HandleUpdate(r, m, now);
    if Heeds(r, m) {
      TableAfter(r, m.source, m.updates, now);
      SameNeighbours(r, m.source, m.updates, now);
      var t := ApplyAll(r, m.source, m.updates, now);
      assert s.known == t.known && s.routes == t.routes;
      forall d ensures SameAt(r, s, d) || Taken(s, m.source, m.updates, now, d) {
        AllExplained(r, m.source, m.updates, now, d);
        if Taken(t, m.source, m.updates, now, d) {
          var i :| 0 <= i < |m.updates| && m.updates[i].peerId == d && TakenFrom(t.known[d], m.source, m.updates[i]);
          assert TakenFrom(s.known[d], m.source, m.updates[i]);
        }
      }
    }
  }

  /** Without an accepted entry nothing changes; a full table accepts none. */
  lemma {:induction false} SequenceMoves(r: Router, source: u32, updates: seq<PeerInfo>, now: nat)
    ensures !AcceptsAny(r, source, updates, now) ==> ApplyAll(r, source, updates, now) == r
    ensures |r.routes| >= 10000 ==> !AcceptsAny(r, source, updates, now)
    ensures ApplyAll(r, source, updates, now).sequence == r.sequence
    decreases |updates|
  {
    if updates != [] { SequenceMoves(r, source, updates[..|updates| - 1], now); }
  }

  /** Its own updates, those from too far, and what a full table gets, a router ignores; otherwise every update that changes
      anything moves the sequence number on by one. */
  lemma UpdatesAreCounted(r: Router, m: RouteUpdate, now: nat)
    ensures var s := HandleUpdate(r, m, now);
      && (m.source == r.id || m.hopCount >= 16 || |r.routes| >= 10000 ==> s == r)
      && (s == r || s.sequence == (r.sequence + 1) % 0x1_0000_0000_0000_0000)
  {
    if Heeds(r, m) { SequenceMoves(r, m.source, m.updates, now); }
  }

  lemma {:induction false} SameNeighbours(r: Router, source: u32, updates: seq<PeerInfo>, now: nat)
    ensures ApplyAll(r, source, updates, now).direct == r.direct
    decreases |updates|
  {
    if updates != [] { SameNeighbours(r, source, updates[..|updates| - 1], now); }
  }

  /** A peer that was taken survives a cleanup, with its route, as long as neither the advertised stamp nor the update is
      too old. */
  lemma TakenSurvives(r: Router, m: RouteUpdate, d: u32, now: nat, later: nat)
    requires !SameAt(r, HandleUpdate(r, m, now), d) && later <= now + 1_800_000_000_000
    requires forall i | 0 <= i < |m.updates| && m.updates[i].peerId == d ::
               later <= m.updates[i].lastSeen + 1_800_000_000_000
    ensures d in CleanUp(HandleUpdate(r, m, now), later).known
    ensures NextHop(CleanUp(HandleUpdate(r, m, now), later), d, later) == Some(m.source)
  {
    EntriesExplained(r, m, now);
  }

  /** And it does not where the stamp that came with it is too old. */
  lemma StaleIsForgotten(r: Router, m: RouteUpdate, d: u32, now: nat, later: nat)
    requires !SameAt(r, HandleUpdate(r, m, now), d)
    requires forall i | 0 <= i < |m.updates| && m.updates[i].peerId == d ::
               later > m.updates[i].lastSeen + 1_800_000_000_000
    ensures d !in CleanUp(HandleUpdate(r, m, now), later).known
    ensures NextHop(CleanUp(HandleUpdate(r, m, now), later), d, later) == None
  {
    EntriesExplained(r, m, now);
  }

  // ----- which entry is taken -----

  lemma {:induction false} UnlistedStays(r: Router, source: u32, updates: seq<PeerInfo>, now: nat, d: u32)
    requires forall i | 0 <= i < |updates| :: updates[i].peerId != d
    ensures SameAt(r, ApplyAll(r, source, updates, now), d)
    decreases |updates|
  {
    if updates != [] { UnlistedStays(r, source, updates[..|updates| - 1], now, d); }
  }

  ghost predicate ListedOnce(updates: seq<PeerInfo>, i: nat)
    requires i < |updates|
  {
    forall j | 0 <= j < |updates| && j != i :: updates[j].peerId != updates[i].peerId
  }

  lemma {:induction false} OnlyOfferIsTaken(r: Router, source: u32, updates: seq<PeerInfo>, now: nat, peers: set<u32>,
                                            i: nat)
    requires HasRoom(r, peers) && AboutPeers(r, updates, peers) && i < |updates| && ListedOnce(updates, i)
    requires updates[i].peerId != r.id && (updates[i].hopCount + 1) % 0x100 < 16 && Better(r, updates[i])
    ensures var s, d := ApplyAll(r, source, updates, now), updates[i].peerId;
      d in s.known && TakenFrom(s.known[d], source, updates[i])
    decreases |updates|
  {
    var n := |updates| - 1;
    var m := ApplyAll(r, source, updates[..n], now);
    ApplyAllKeepsRoom(r, source, updates[..n], now, peers);
    if i < n {
      OnlyOfferIsTaken(r, source, updates[..n], now, peers, i);
    } else {
      UnlistedStays(r, source, updates[..n], now, updates[n].peerId);
      assert |m.routes| == |m.routes.Keys|;
      SubsetIsSmaller(m.routes.Keys, peers);
    }
  }

  lemma {:induction false} WorseIsRefused(r: Router, source: u32, updates: seq<PeerInfo>, now: nat, i: nat)
    requires i < |updates| && ListedOnce(updates, i) && !Better(r, updates[i])
    ensures SameAt(r, ApplyAll(r, source, updates, now), updates[i].peerId)
    decreases |updates|
  {
    var n := |updates| - 1;
    if i < n {
      WorseIsRefused(r, source, updates[..n], now, i);
    } else {
      UnlistedStays(r, source, updates[..n], now, updates[n].peerId);
    }
  }

  /** The router does not know the peer, or has a longer route to it, or one as long with a worse metric. */
  predicate Improves(r: Router, u: PeerInfo) {
    || u.peerId !in r.known
    || (u.peerId in r.routes
        && (u.hopCount + 1 < r.routes[u.peerId].hopCount
            || (u.hopCount + 1 == r.routes[u.peerId].hopCount && Metric(u) < r.routes[u.peerId].metric)))
  }

  /** With room in the table, an entry of a heeded update that is the only one about its peer is taken if it improves on
      what the router has, and otherwise nothing about that peer changes. */
  lemma TakenExactly(r: Router, m: RouteUpdate, i: nat, peers: set<u32>, now: nat)
    requires m.source != r.id && m.hopCount < 16
    requires r.routes.Keys <= peers && |peers| < 10000 && AboutPeers(r, m.updates, peers)
    requires i < |m.updates| && ListedOnce(m.updates, i) && m.updates[i].peerId != r.id && m.updates[i].hopCount < 15
    ensures var s, u := HandleUpdate(r, m, now), m.updates[i];
      if Improves(r, u) then u.peerId in s.known && TakenFrom(s.known[u.peerId], m.source, u)
      else SameAt(r, s, u.peerId)
  {
    var u := m.updates[i];
    var s, t := HandleUpdate(r, m, now), ApplyAll(r, m.source, m.updates, now);
    assert s.known == t.known && s.routes == t.routes;
    if Better(r, u) {
      OnlyOfferIsTaken(r, m.source, m.updates, now, peers, i);
    } else {
      WorseIsRefused(r, m.source, m.updates, now, i);
    }
  }
}
