/** An advertised hop count of 255 wraps to 0 in eight bits. Which updates break the tables of a router that way. */
module HopWrap {
  import opened Arithmetic
  import opened Bounded
  import opened RouterModel
  import opened RoutingData

  /** The entry gets as far as the tables: its peer is another one, near enough, and unknown or with a route. */
  predicate Eligible(r: Router, u: PeerInfo) {
    u.peerId != r.id && OneHopMore(u.hopCount) < MAX_HOP_COUNT && !Orphaned(r, u.peerId)
  }

  function Offered(r: Router, u: PeerInfo): set<u32> {
    if Eligible(r, u) then {u.peerId} else {}
  }

  /** What the routing table would hold after the entries if it had no limit: its own and all eligible peers. */
  function Wanted(r: Router, updates: seq<PeerInfo>): set<u32> {
    if updates == [] then r.routes.Keys
    else Wanted(r, updates[..|updates| - 1]) + Offered(r, updates[|updates| - 1])
  }

  ghost predicate SameOrphans(r: Router, s: Router) {
    forall d :: Orphaned(r, d) <==> Orphaned(s, d)
  }

  /** As long as the wanted table stays below the limit it is the table; from then on the table is full. */
  lemma {:induction false} TableAfter(r: Router, source: u32, updates: seq<PeerInfo>, now: nat)
    ensures var s := ApplyAll(r, source, updates, now);
      && s.id == r.id && SameOrphans(r, s)
      && (if |Wanted(r, updates)| < MAX_ROUTING_ENTRIES then s.routes.Keys == Wanted(r, updates)
          else |s.routes| >= MAX_ROUTING_ENTRIES)
    decreases |updates|
  {
    if updates == [] {
      assert |r.routes| == |r.routes.Keys|;
    } else {
      var n := |updates| - 1;
      var before, u := updates[..n], updates[n];
      TableAfter(r, source, before, now);
      SubsetIsSmaller(Wanted(r, before), Wanted(r, updates));
      var m := ApplyAll(r, source, before, now);
      ApplyOne(m, source, u, now);
      var s := ApplyAll(r, source, updates, now);
      assert |m.routes| == |m.routes.Keys| && |s.routes| == |s.routes.Keys|;
      assert Orphaned(r, u.peerId) <==> Orphaned(m, u.peerId);
    }
  }

  lemma ApplyOne(m: Router, source: u32, u: PeerInfo, now: nat)
    ensures var s := Apply(m, source, u, now);
      && s.id == m.id && SameOrphans(m, s)
      && s.routes.Keys == m.routes.Keys
           + (if Eligible(m, u) && |m.routes| < MAX_ROUTING_ENTRIES then {u.peerId} else {})
  {
  }

  // ----- a route at zero hops -----

  predicate AtZero(r: Router, d: u32) {
    d in r.known && d in r.routes && r.known[d].hopCount == 0 && r.routes[d].hopCount == 0
  }

  /** The entry is accepted at zero hops: it is eligible, wraps, and finds the table not yet full. */
  predicate WrapsAt(r: Router, updates: seq<PeerInfo>, i: nat)
    requires i < |updates|
  {
    && updates[i].hopCount == 255 && updates[i].peerId != r.id && !Orphaned(r, updates[i].peerId)
    && |Wanted(r, updates[..i])| < MAX_ROUTING_ENTRIES
  }

  ghost predicate Wraps(r: Router, updates: seq<PeerInfo>) {
    exists i: nat :: i < |updates| && WrapsAt(r, updates, i)
  }

  lemma SameWrap(r: Router, updates: seq<PeerInfo>, i: nat)
    requires i < |updates| - 1
    ensures WrapsAt(r, updates[..|updates| - 1], i) <==> WrapsAt(r, updates, i)
  {
    assert updates[..|updates| - 1][..i] == updates[..i];
  }

  lemma WrapsLater(r: Router, updates: seq<PeerInfo>)
    requires updates != [] && Wraps(r, updates[..|updates| - 1])
    ensures Wraps(r, updates)
  {
    var i: nat :| i < |updates| - 1 && WrapsAt(r, updates[..|updates| - 1], i);
    SameWrap(r, updates, i);
    assert WrapsAt(r, updates, i);
  }

  lemma WrapsBefore(r: Router, updates: seq<PeerInfo>)
    requires Wraps(r, updates) && !WrapsAt(r, updates, |updates| - 1)
    ensures Wraps(r, updates[..|updates| - 1])
  {
    var i: nat :| i < |updates| && WrapsAt(r, updates, i);
    SameWrap(r, updates, i);
    assert WrapsAt(r, updates[..|updates| - 1], i);
  }

  lemma ZeroStays(m: Router, source: u32, u: PeerInfo, now: nat, d: u32)
    requires AtZero(m, d)
    ensures AtZero(Apply(m, source, u, now), d)
  {
  }

  lemma WrappedEntryIsAccepted(m: Router, source: u32, u: PeerInfo, now: nat)
    requires Consistent(m) && u.hopCount == 255 && u.peerId != m.id && !Orphaned(m, u.peerId)
    requires |m.routes| < MAX_ROUTING_ENTRIES
    ensures AtZero(Apply(m, source, u, now), u.peerId)
  {
    if u.peerId in m.routes { assert GoodRoute(m, u.peerId) && GoodPeer(m.known, u.peerId); }
  }

  lemma RefusedEntry(m: Router, source: u32, u: PeerInfo, now: nat)
    requires u.peerId == m.id || Orphaned(m, u.peerId) || |m.routes| >= MAX_ROUTING_ENTRIES
    ensures Apply(m, source, u, now) == m
  {
  }

  /** Either no entry wraps and the tables stay consistent, or some peer is at zero hops ever after. */
  lemma {:induction false} WrappedOrConsistent(r: Router, source: u32, updates: seq<PeerInfo>, now: nat) returns (d: u32)
    requires Consistent(r)
    ensures if Wraps(r, updates) then AtZero(ApplyAll(r, source, updates, now), d)
            else Consistent(ApplyAll(r, source, updates, now))
    decreases |updates|
  {
    d := 0;
    if updates != [] {
      var n := |updates| - 1;
      var before, u := updates[..n], updates[n];
      d := WrappedOrConsistent(r, source, before, now);
      if Wraps(r, before) { WrapsLater(r, updates); }
      if Wraps(r, updates) && !WrapsAt(r, updates, n) { WrapsBefore(r, updates); }
      TableAfter(r, source, before, now);
      var m := ApplyAll(r, source, before, now);
      assert |m.routes| == |m.routes.Keys|;
      assert Orphaned(r, u.peerId) <==> Orphaned(m, u.peerId);
      if Wraps(r, before) {
        ZeroStays(m, source, u, now, d);
      } else if WrapsAt(r, updates, n) {
        WrappedEntryIsAccepted(m, source, u, now);
        d := u.peerId;
      } else if u.hopCount == 255 {
        RefusedEntry(m, source, u, now);
      } else {
        ApplyKeeps(m, source, u, now);
      }
    }
  }

  /** For every update: it breaks consistent tables if and only if it is heeded and one of its entries advertises another
      peer at 255 hops, that peer is unknown or has a route, and the entries before it leave the table room. All of this
      can be read off the tables and the update beforehand. */
  lemma WrappedHopsBreakExactly(r: Router, m: RouteUpdate, now: nat)
    requires Consistent(r)
    ensures !Consistent(HandleUpdate(r, m, now)) <==> Heeds(r, m) && Wraps(r, m.updates)
  {
    if Heeds(r, m) {
      var d := WrappedOrConsistent(r, m.source, m.updates, now);
      var s, t := HandleUpdate(r, m, now), ApplyAll(r, m.source, m.updates, now);
      assert s.known == t.known && s.routes == t.routes;
      if Wraps(r, m.updates) {
        assert !GoodPeer(s.known, d);
      } else {
        assert forall e | e in s.routes :: GoodRoute(t, e) && GoodRoute(s, e);
      }
    }
  }

  /** Where the table cannot fill up, the order of the entries does not matter. */
  lemma WrappedHopsBreakWithRoom(r: Router, m: RouteUpdate, now: nat)
    requires Consistent(r) && |r.routes| + |m.updates| <= MAX_ROUTING_ENTRIES
    ensures !Consistent(HandleUpdate(r, m, now)) <==>
              Heeds(r, m) && exists i :: 0 <= i < |m.updates| && m.updates[i].hopCount == 255
                                         && m.updates[i].peerId != r.id && !Orphaned(r, m.updates[i].peerId)
  {
    WrappedHopsBreakExactly(r, m, now);
    forall i: nat | i < |m.updates| ensures |Wanted(r, m.updates[..i])| < MAX_ROUTING_ENTRIES {
      WantedIsSmall(r, m.updates[..i]);
    }
    if i: nat :| i < |m.updates| && m.updates[i].hopCount == 255
                 && m.updates[i].peerId != r.id && !Orphaned(r, m.updates[i].peerId) {
      assert WrapsAt(r, m.updates, i);
    }
  }

  lemma {:induction false} WantedIsSmall(r: Router, updates: seq<PeerInfo>)
    ensures |Wanted(r, updates)| <= |r.routes| + |updates|
    decreases |updates|
  {
    if updates == [] {
      assert |r.routes| == |r.routes.Keys|;
    } else {
      WantedIsSmall(r, updates[..|updates| - 1]);
    }
  }

  /** One entry, with a table that may be full. */
  lemma WrappedHopBreaksExactly(r: Router, m: RouteUpdate, u: PeerInfo, now: nat)
    requires Consistent(r) && m.updates == [u] && u.hopCount == 255
    ensures !Consistent(HandleUpdate(r, m, now)) <==>
              Heeds(r, m) && u.peerId != r.id && |r.routes| < MAX_ROUTING_ENTRIES && !Orphaned(r, u.peerId)
  {
    WrappedHopsBreakExactly(r, m, now);
    assert m.updates[..0] == [];
    assert |r.routes| == |r.routes.Keys|;
    if WrapsAt(r, m.updates, 0) { assert Wraps(r, m.updates); }
  }
}
