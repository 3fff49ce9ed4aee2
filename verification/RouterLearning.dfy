/** What a router has learned from an update: where its routes come from, and how good they are. */
module RouterLearning {
  import opened Arithmetic
  import opened Bounded
  import opened RouterModel
  import opened RoutingData

  /** Between these two states of a router, no route was lost or got longer. */
  ghost predicate NotWorse(r: Router, s: Router) {
    && s.id == r.id && r.direct <= s.direct
    && (forall d | d in r.known :: d in s.known)
    && (forall d | d in r.routes :: d in s.routes && s.routes[d].hopCount <= r.routes[d].hopCount)
  }

  lemma NotWorseIsTransitive(r: Router, s: Router, t: Router)
    requires NotWorse(r, s) && NotWorse(s, t)
    ensures NotWorse(r, t)
  {
  }

  /** Every known peer has a route; nothing was removed and nothing has expired. */
  predicate Complete(r: Router) {
    r.id !in r.known && r.known.Keys == r.routes.Keys
  }

  /** The route is the one the router had, or was learned from this entry. */
  ghost predicate LearnedFrom(route: RouteEntry, d: u32, source: u32, u: PeerInfo) {
    u.peerId == d && route.nextHop == source && route.hopCount == OneHopMore(u.hopCount) && InRange(route.hopCount)
  }

  ghost predicate OldOrLearned(r: Router, s: Router, source: u32, updates: seq<PeerInfo>, d: u32)
    requires d in s.routes
  {
    || (d in r.routes && s.routes[d] == r.routes[d])
    || (d != r.id && exists i :: 0 <= i < |updates| && LearnedFrom(s.routes[d], d, source, updates[i]))
  }

  ghost predicate Sensible(updates: seq<PeerInfo>) {
    forall i | 0 <= i < |updates| :: updates[i].hopCount != 255
  }

  /** What one entry does: `ApplyLearns` shows it of `Apply`. */
  ghost predicate Learns(r: Router, s: Router, source: u32, u: PeerInfo) {
    && NotWorse(r, s) && s.direct == r.direct
    && (Complete(r) ==> Complete(s))
    && forall d | d in s.routes ::
         (d in r.routes && s.routes[d] == r.routes[d]) || (d != r.id && LearnedFrom(s.routes[d], d, source, u))
  }

  lemma ApplyLearns(r: Router, source: u32, u: PeerInfo, now: nat)
    requires Consistent(r) && u.hopCount != 255
    ensures Learns(r, Apply(r, source, u, now), source, u)
  {
    if Accepts(r, u) {
      var p := Learned(u, source);
      Replaces(r, source, u, p, RouteTo(p, now));
    }
  }

  /** The tables after one entry has been replaced. */
  lemma Replaces(r: Router, source: u32, u: PeerInfo, p: PeerInfo, e: RouteEntry)
    requires LearnedFrom(e, u.peerId, source, u) && u.peerId != r.id
    requires u.peerId in r.routes ==> e.hopCount <= r.routes[u.peerId].hopCount
    ensures Learns(r, r.(known := r.known[u.peerId := p], routes := r.routes[u.peerId := e]), source, u)
  {
  }

  lemma {:induction false} ApplyAllLearns(r: Router, source: u32, updates: seq<PeerInfo>, now: nat)
    requires Consistent(r) && Sensible(updates)
    ensures var s := ApplyAll(r, source, updates, now);
      && Consistent(s) && NotWorse(r, s) && s.direct == r.direct
      && (Complete(r) ==> Complete(s))
      && forall d | d in s.routes :: OldOrLearned(r, s, source, updates, d)
  {
    if updates != [] {
      var n := |updates| - 1;
      var before := updates[..n];
      var m, s := ApplyAll(r, source, before, now), ApplyAll(r, source, updates, now);
      ApplyAllLearns(r, source, before, now);
      ApplyLearns(m, source, updates[n], now);
      ApplyKeeps(m, source, updates[n], now);
      NotWorseIsTransitive(r, m, s);
      forall d | d in s.routes ensures OldOrLearned(r, s, source, updates, d) {
        if d in m.routes && s.routes[d] == m.routes[d] {
          assert OldOrLearned(r, m, source, before, d);
          if !(d in r.routes && s.routes[d] == r.routes[d]) {
            var i :| 0 <= i < |before| && LearnedFrom(m.routes[d], d, source, before[i]);
            assert before[i] == updates[i];
          }
        } else {
          assert LearnedFrom(s.routes[d], d, source, updates[n]);
        }
      }
    }
  }

  /** A routing table whose destinations come from a small enough set always has room. */
  predicate HasRoom(r: Router, peers: set<u32>) {
    r.routes.Keys <= peers && |peers| < MAX_ROUTING_ENTRIES
  }

  lemma ApplyCovers(r: Router, source: u32, u: PeerInfo, now: nat, peers: set<u32>)
    requires Complete(r) && HasRoom(r, peers) && u.peerId in peers && u.peerId != r.id && u.hopCount < 15
    ensures var s := Apply(r, source, u, now);
      && HasRoom(s, peers)
      && u.peerId in s.routes && s.routes[u.peerId].hopCount <= u.hopCount + 1
  {
    assert |r.routes| == |r.routes.Keys|;
    SubsetIsSmaller(r.routes.Keys, peers);
    assert u.peerId in r.known ==> u.peerId in r.routes;
  }

  predicate AboutPeers(r: Router, updates: seq<PeerInfo>, peers: set<u32>) {
    forall i | 0 <= i < |updates| :: updates[i].peerId == r.id || updates[i].peerId in peers
  }

  lemma {:induction false} ApplyAllKeepsRoom(r: Router, source: u32, updates: seq<PeerInfo>, now: nat, peers: set<u32>)
    requires HasRoom(r, peers) && AboutPeers(r, updates, peers)
    ensures HasRoom(ApplyAll(r, source, updates, now), peers) && ApplyAll(r, source, updates, now).id == r.id
  {
    if updates != [] {
      var n := |updates| - 1;
      ApplyAllKeepsRoom(r, source, updates[..n], now, peers);
    }
  }

  /** With room in the table, a heeded entry is known at most one hop further than advertised. */
  lemma {:induction false} ApplyAllCovers(r: Router, source: u32, updates: seq<PeerInfo>, now: nat, peers: set<u32>, i: nat)
    requires Consistent(r) && Complete(r) && HasRoom(r, peers) && AboutPeers(r, updates, peers) && Sensible(updates)
    requires i < |updates| && updates[i].peerId != r.id && updates[i].hopCount < 15
    ensures var s := ApplyAll(r, source, updates, now);
      updates[i].peerId in s.routes && s.routes[updates[i].peerId].hopCount <= updates[i].hopCount + 1
  {
    var n := |updates| - 1;
    var m := ApplyAll(r, source, updates[..n], now);
    ApplyAllKeepsRoom(r, source, updates[..n], now, peers);
    ApplyAllLearns(r, source, updates[..n], now);
    if i == n {
      ApplyCovers(m, source, updates[n], now, peers);
    } else {
      ApplyAllCovers(r, source, updates[..n], now, peers, i);
      ApplyLearns(m, source, updates[n], now);
    }
  }
}
