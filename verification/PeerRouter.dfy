/** The router with the tables it updates in place. Iteration over a table is in any order. */
module PeerRouter {
  import opened Arithmetic
  import opened Bounded
  import opened QueryModel
  import opened RouterModel
  import opened RoutingData

  class PeerRouter {
    const localPeerId: u32
    var knownPeers: map<u32, PeerInfo>
    var routingTable: map<u32, RouteEntry>
    var directConnections: set<u32>
    var sequenceNumber: u64
    var queryCache: map<u32, nat>
    var fileLocations: map<Bytes, seq<FileLocation>>

    constructor (localPeerId: u32)
      ensures this.localPeerId == localPeerId
      ensures State() == Router(localPeerId, map[], map[], {}, 0)
      ensures queryCache == map[] && fileLocations == map[]
    {
      this.localPeerId := localPeerId;
      knownPeers, routingTable, directConnections, sequenceNumber := map[], map[], {}, 0;
      queryCache, fileLocations := map[], map[];
    }

    function State(): Router
      reads this
    {
      Router(localPeerId, knownPeers, routingTable, directConnections, sequenceNumber)
    }

    function AsResponder(): Responder
      reads this
    {
      Responder(localPeerId, directConnections, queryCache, fileLocations)
    }

    method AddDirectPeer(peer: u32, ip: Bytes, port: u16, now: nat)
      modifies this`knownPeers, this`routingTable, this`directConnections
      ensures State() == AddDirect(old(State()), peer, ip, port, now)
    {
      var info := PeerInfo(peer, ip, port, now, 1, peer, 1.0, DEFAULT_BANDWIDTH);
      knownPeers := knownPeers[peer := info];
      directConnections := directConnections + {peer};
      routingTable := routingTable[peer := RouteEntry(peer, peer, 1, now, Metric(info))];
    }

    method RemoveRoutesThrough(peer: u32)
      modifies this`routingTable
      ensures routingTable == map d | d in old(routingTable) && old(routingTable)[d].nextHop != peer :: old(routingTable)[d]
    {
      var left := routingTable.Keys;
      while left != {}
        invariant left <= routingTable.Keys
        invariant routingTable == map d | d in old(routingTable)
                    && (d in left || old(routingTable)[d].nextHop != peer) :: old(routingTable)[d]
        decreases |left|
      {
        var d :| d in left;
        left := left - {d};
        if routingTable[d].nextHop == peer {
          routingTable := routingTable - {d};
        }
      }
    }

    method RemovePeer(peer: u32)
      modifies this`knownPeers, this`routingTable, this`directConnections
      ensures State() == Remove(old(State()), peer)
    {
      knownPeers := knownPeers - {peer};
      directConnections := directConnections - {peer};
      routingTable := routingTable - {peer};
      RemoveRoutesThrough(peer);
    }

    /** The first loop of the cleanup: expired peers go, with their routes, and the others become less reliable. */
    method CleanUpPeers(now: nat)
      modifies this`knownPeers, this`routingTable
      ensures knownPeers == CleanUp(old(State()), now).known
      ensures routingTable == map d | d in old(routingTable)
                && !(d in old(knownPeers) && Expired(old(knownPeers)[d].lastSeen, now)) :: old(routingTable)[d]
    {
      var left := knownPeers.Keys;
      while left != {}
        invariant left <= knownPeers.Keys
        invariant knownPeers == map d | d in old(knownPeers)
                    && (d in left || !Expired(old(knownPeers)[d].lastSeen, now)) ::
                    if d in left then old(knownPeers)[d] else Decayed(old(knownPeers)[d])
        invariant routingTable == map d | d in old(routingTable)
                    && (d !in old(knownPeers) || d in left || !Expired(old(knownPeers)[d].lastSeen, now)) ::
                    old(routingTable)[d]
        decreases |left|
      {
        var d :| d in left;
        left := left - {d};
        if Expired(knownPeers[d].lastSeen, now) {
          routingTable := routingTable - {d};
          knownPeers := knownPeers - {d};
        } else {
          knownPeers := knownPeers[d := knownPeers[d].(reliability := knownPeers[d].reliability * RELIABILITY_DECAY)];
        }
      }
    }

    method CleanUpRoutes(now: nat)
      modifies this`routingTable
      ensures routingTable == map d | d in old(routingTable) && !Expired(old(routingTable)[d].lastUpdated, now) ::
                                old(routingTable)[d]
    {
      var left := routingTable.Keys;
      while left != {}
        invariant left <= routingTable.Keys
        invariant routingTable == map d | d in old(routingTable)
                    && (d in left || !Expired(old(routingTable)[d].lastUpdated, now)) :: old(routingTable)[d]
        decreases |left|
      {
        var d :| d in left;
        left := left - {d};
        if Expired(routingTable[d].lastUpdated, now) {
          routingTable := routingTable - {d};
        }
      }
    }

    method CleanUpQueries(now: nat)
      modifies this`queryCache
      ensures queryCache == ForgetOldQueries(old(queryCache), now)
    {
      var left := queryCache.Keys;
      while left != {}
        invariant left <= queryCache.Keys
        invariant queryCache == map q | q in old(queryCache)
                    && (q in left || now <= old(queryCache)[q] + QUERY_LIFETIME) :: old(queryCache)[q]
        decreases |left|
      {
        var q :| q in left;
        left := left - {q};
        if now > queryCache[q] + QUERY_LIFETIME {
          queryCache := queryCache - {q};
        }
      }
    }

    /** Erase the old ones, keeping the order. */
    method EraseOldLocations(locations: seq<FileLocation>, now: nat) returns (kept: seq<FileLocation>)
      ensures kept == Recent(locations, now)
    {
      kept := [];
      for i := 0 to |locations|
        invariant kept == Recent(locations[..i], now)
      {
        assert locations[..i + 1][..i] == locations[..i];
        if now <= locations[i].announcedAt + LOCATION_LIFETIME {
          kept := kept + [locations[i]];
        }
      }
      assert locations[..|locations|] == locations;
    }

    method EraseOldEverywhere(now: nat)
      modifies this`fileLocations
      ensures fileLocations.Keys == old(fileLocations).Keys
      ensures forall f | f in fileLocations :: fileLocations[f] == Recent(old(fileLocations)[f], now)
    {
      var left := fileLocations.Keys;
      while left != {}
        invariant left <= fileLocations.Keys == old(fileLocations).Keys
        invariant forall f | f in left :: fileLocations[f] == old(fileLocations)[f]
        invariant forall f | f in fileLocations && f !in left :: fileLocations[f] == Recent(old(fileLocations)[f], now)
        decreases |left|
      {
        var f :| f in left;
        left := left - {f};
        var kept := EraseOldLocations(fileLocations[f], now);
        fileLocations := fileLocations[f := kept];
      }
    }

    method CleanUpLocations(now: nat)
      modifies this`fileLocations
      ensures fileLocations == ForgetOldLocations(old(fileLocations), now)
    {
      EraseOldEverywhere(now);
      EraseEmptyFiles();
    }

    method EraseEmptyFiles()
      modifies this`fileLocations
      ensures fileLocations == map f | f in old(fileLocations) && old(fileLocations)[f] != [] :: old(fileLocations)[f]
    {
      var left := fileLocations.Keys;
      while left != {}
        invariant left <= fileLocations.Keys
        invariant fileLocations == map f | f in old(fileLocations)
                    && (f in left || old(fileLocations)[f] != []) :: old(fileLocations)[f]
        decreases |left|
      {
        var f :| f in left;
        left := left - {f};
        if fileLocations[f] == [] {
          fileLocations := fileLocations - {f};
        }
      }
    }

    method CleanUpExpiredEntries(now: nat)
      modifies this`knownPeers, this`routingTable, this`fileLocations, this`queryCache
      ensures State() == CleanUp(old(State()), now)
      ensures AsResponder() == CleanedUp(old(AsResponder()), now)
    {
      CleanUpPeers(now);
      CleanUpRoutes(now);
      CleanUpLocations(now);
      CleanUpQueries(now);
    }

    method UpdatePeerReliability(peer: u32, success: bool)
      modifies this`knownPeers, this`routingTable
      ensures State() == UpdateReliability(old(State()), peer, success)
    {
      if peer in knownPeers {
        var p := Shifted(knownPeers[peer], success);
        knownPeers := knownPeers[peer := p];
        if peer in routingTable {
          routingTable := routingTable[peer := routingTable[peer].(metric := Metric(p))];
        }
      }
    }

    method RebuildRoutingTable(now: nat)
      modifies this`routingTable
      ensures State() == Rebuild(old(State()), now)
    {
      routingTable := map[];
      var left := knownPeers.Keys;
      while left != {}
        invariant left <= knownPeers.Keys
        invariant routingTable == map d | d in knownPeers && d !in left && knownPeers[d].hopCount == 1 ::
                                    RouteEntry(d, d, 1, now, Metric(knownPeers[d]))
        decreases |left|
      {
        var d :| d in left;
        left := left - {d};
        if knownPeers[d].hopCount == 1 {
          routingTable := routingTable[d := RouteEntry(d, d, 1, now, Metric(knownPeers[d]))];
        }
      }
    }

    method GetNextHop(destination: u32, now: nat) returns (r: Option<u32>)
      ensures r == NextHop(State(), destination, now)
    {
      if destination in routingTable && !Expired(routingTable[destination].lastUpdated, now) {
        return Some(routingTable[destination].nextHop);
      }
      return None;
    }

    /** One entry of an update, as advertised by `source`. */
    method LearnPeer(source: u32, update: PeerInfo, now: nat) returns (changed: bool)
      modifies this`knownPeers, this`routingTable
      ensures State() == Apply(old(State()), source, update, now)
      ensures changed == Accepts(old(State()), update)
    {
      if update.peerId == localPeerId { return false; }
      var newHopCount := OneHopMore(update.hopCount);
      if newHopCount >= MAX_HOP_COUNT { return false; }
      var shouldUpdate := false;
      if update.peerId !in knownPeers {
        shouldUpdate := true;
      } else if update.peerId in routingTable {
        var existing := routingTable[update.peerId];
        if newHopCount < existing.hopCount || (newHopCount == existing.hopCount && Metric(update) < existing.metric) {
          shouldUpdate := true;
        }
      }
      changed := shouldUpdate && |routingTable| < MAX_ROUTING_ENTRIES;
      if changed {
        var newPeer := update.(hopCount := newHopCount, nextHop := source);
        knownPeers := knownPeers[update.peerId := newPeer];
        routingTable := routingTable[update.peerId :=
          RouteEntry(update.peerId, source, newHopCount, now, Metric(newPeer))];
      }
    }

    method HandleRouteUpdate(message: RouteUpdate, now: nat)
      modifies this`knownPeers, this`routingTable, this`sequenceNumber
      ensures State() == HandleUpdate(old(State()), message, now)
    {
      if message.source == localPeerId { return; }
      if message.hopCount >= MAX_HOP_COUNT { return; }
      var routingChanged := false;
      ghost var start, updates := State(), message.updates;
      for i := 0 to |message.updates|
        invariant State() == ApplyAll(start, message.source, updates[..i], now)
        invariant routingChanged == AcceptsAny(start, message.source, updates[..i], now)
      {
        assert updates[..i + 1][..i] == updates[..i];
        var changed := LearnPeer(message.source, message.updates[i], now);
        routingChanged := routingChanged || changed;
      }
      assert updates[..|updates|] == updates;
      if routingChanged {
        sequenceNumber := (sequenceNumber + 1) % TWO_TO_THE_64;
      }
    }

    /** All known peers but one, in any order. */
    method ListPeers(except: set<u32>) returns (updates: seq<PeerInfo>)
      requires forall d | d in knownPeers :: knownPeers[d].peerId == d
      ensures Lists(knownPeers, except, updates)
    {
      updates := [];
      var left := knownPeers.Keys;
      while left != {}
        invariant left <= knownPeers.Keys
        invariant forall i | 0 <= i < |updates| :: Listed(knownPeers, except, updates[i]) && updates[i].peerId !in left
        invariant forall i, j | 0 <= i < j < |updates| :: updates[i].peerId != updates[j].peerId
        invariant forall d | d in knownPeers && d !in except && d !in left :: knownPeers[d] in updates
        decreases |left|
      {
        var d :| d in left;
        left := left - {d};
        if d !in except {
          updates := updates + [knownPeers[d]];
        }
      }
    }

    method SendRouteUpdates() returns (r: Option<RouteUpdate>)
      requires forall d | d in knownPeers :: knownPeers[d].peerId == d
      modifies this`sequenceNumber
      ensures r.None? <==> old(knownPeers) == map[]
      ensures r.None? ==> State() == old(State())
      ensures r.Some? ==> Lists(knownPeers, {}, r.value.updates)
                          && r.value == RouteUpdate(localPeerId, r.value.updates, sequenceNumber, 0)
                          && State() == old(State()).(sequence := NextSequence(old(sequenceNumber)))
    {
      if knownPeers == map[] { return None; }
      sequenceNumber := (sequenceNumber + 1) % TWO_TO_THE_64;
      var updates := ListPeers({});
      r := Some(RouteUpdate(localPeerId, updates, sequenceNumber, 0));
    }

    method HandleTopologySync(requester: u32) returns (r: RouteUpdate)
      requires forall d | d in knownPeers :: knownPeers[d].peerId == d
      ensures Lists(knownPeers, {requester}, r.updates)
      ensures r == RouteUpdate(localPeerId, r.updates, sequenceNumber, 0)
    {
      var updates := ListPeers({requester});
      r := RouteUpdate(localPeerId, updates, sequenceNumber, 0);
    }

    /** A random choice of targets: any that satisfies the contract can come out. */
    method GetFloodingTargets(source: u32) returns (targets: seq<u32>)
      ensures AreTargets(directConnections, source, targets)
    {
      var candidates := directConnections - {source};
      var count := Min(MAX_FLOODING_TARGETS, |candidates|);
      targets := [];
      ghost var all := candidates;
      while |targets| < count
        invariant candidates <= all && |candidates| == |all| - |targets| && |targets| <= count
        invariant Distinct(targets)
        invariant forall i | 0 <= i < |targets| :: targets[i] in all && targets[i] !in candidates
      {
        var t :| t in candidates;
        candidates := candidates - {t};
        targets := targets + [t];
      }
    }

    method FindOwn(locations: seq<FileLocation>) returns (own: seq<FileLocation>)
      ensures own == Own(localPeerId, locations)
    {
      own := [];
      for i := 0 to |locations|
        invariant own == Own(localPeerId, locations[..i])
      {
        assert locations[..i + 1][..i] == locations[..i];
        if locations[i].peerId == localPeerId {
          own := own + [locations[i]];
        }
      }
      assert locations[..|locations|] == locations;
    }

    method HandleFileQuery(query: Query, now: nat) returns (outcome: Outcome)
      modifies this`queryCache
      ensures AsResponder() == Remember(old(AsResponder()), query, now)
      ensures outcome == Judge(old(AsResponder()), query, now, if outcome.Forwarded? then outcome.targets else [])
      ensures outcome.Forwarded? ==> AreTargets(directConnections, query.source, outcome.targets)
    {
      if query.queryId in queryCache && now < queryCache[query.queryId] + QUERY_AGE { return Ignored; }
      queryCache := queryCache[query.queryId := now];
      var matching := [];
      if query.fileId in fileLocations {
        matching := FindOwn(fileLocations[query.fileId]);
      }
      if matching != [] {
        return Answered(query.source, FileQueryResponse(query.queryId, localPeerId, matching));
      }
      if query.hopCount < MAX_HOP_COUNT - 1 {
        var targets := GetFloodingTargets(query.source);
        return Forwarded(query.(hopCount := query.hopCount + 1), targets);
      }
      return Exhausted;
    }

    /** Either the locations known here, or a query for all direct peers, remembered as seen. */
    method FindFile(file: Bytes, terms: seq<Bytes>, now: nat) returns (found: seq<FileLocation>, query: Option<Query>)
      modifies this`queryCache
      ensures query.None? <==> found != []
      ensures found != [] ==> file in fileLocations && found == fileLocations[file] && queryCache == old(queryCache)
      ensures found == [] ==> query == Some(Asked(localPeerId, file, terms))
                              && queryCache == old(queryCache)[query.value.queryId := now]
                              && SeenRecently(queryCache, query.value.queryId, now)
    {
      if file in fileLocations && fileLocations[file] != [] { return fileLocations[file], None; }
      var queryId := QueryId(file, terms);
      queryCache := queryCache[queryId := now];
      return [], Some(Query(file, terms, localPeerId, queryId, 0));
    }
  }
}
