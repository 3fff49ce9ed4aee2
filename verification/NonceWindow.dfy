/** Replay protection for incoming nonces: the per-peer window as a state machine, and what it
    guarantees about whole runs although only a pruned set of nonce values is kept. */
module NonceWindow {
  import opened Bounded

  type PeerId = u32

  datatype PeerNonces = PeerNonces(highest: u64, recent: set<u64>)

  const FRESH: PeerNonces := PeerNonces(0, {})

  datatype Manager = Manager(peers: map<PeerId, PeerNonces>, window: u64)

  datatype Event = Incoming(peer: PeerId, value: u64) | Resize(window: u64) | Reset(peer: PeerId)

  function Of(peers: map<PeerId, PeerNonces>, peer: PeerId): PeerNonces {
    if peer in peers then peers[peer] else FRESH
  }

  /** The two tests that an incoming value has to pass; the sum wraps around. */
  predicate Passes(s: PeerNonces, window: u64, value: u64) {
    value !in s.recent && (value + window) % TWO_TO_THE_64 >= s.highest
  }

  function Cutoff(highest: u64, window: u64): u64 {
    if highest > window then highest - window else 0
  }

  function Absorb(s: PeerNonces, window: u64, value: u64): PeerNonces {
    var highest := Max(s.highest, value);
    PeerNonces(highest, set x | x in s.recent + {value} && x >= Cutoff(highest, window))
  }

  function Accepts(m: Manager, peer: PeerId, value: u64): bool {
    Passes(Of(m.peers, peer), m.window, value)
  }

  function Step(m: Manager, e: Event): Manager {
    match e
    case Incoming(peer, value) =>
      var s := Of(m.peers, peer);
      m.(peers := m.peers[peer := if Passes(s, m.window, value) then Absorb(s, m.window, value) else s])
    case Resize(window) => m.(window := window)
    case Reset(peer) => m.(peers := m.peers - {peer})
  }

  /** The manager after a run of events. */
  function Run(m: Manager, events: seq<Event>): Manager {
    if events == [] then m else Step(Run(m, events[..|events| - 1]), events[|events| - 1])
  }

  /** Every value accepted from a peer since its state was last reset: the full history. */
  function History(m: Manager, events: seq<Event>, peer: PeerId): set<u64> {
    if events == [] then {} else
    var earlier := events[..|events| - 1];
    var past := History(m, earlier, peer);
    match events[|events| - 1]
    case Incoming(p, value) => if p == peer && Accepts(Run(m, earlier), peer, value) then past + {value} else past
    case Resize(_) => past
    case Reset(p) => if p == peer then {} else past
  }

  /** The window is only ever made smaller. */
  predicate NeverWidens(m: Manager, events: seq<Event>) {
    events == [] ||
    (var earlier, last := events[..|events| - 1], events[|events| - 1];
     NeverWidens(m, earlier) && (last.Resize? ==> last.window <= Run(m, earlier).window))
  }

  predicate Initial(m: Manager) { m.peers == map[] }

  /** What the pruned set still knows about the whole history of a peer. */
  ghost predicate Remembers(s: PeerNonces, window: u64, past: set<u64>) {
    && s.recent <= past
    && (forall v | v in past :: v <= s.highest)
    && (s.highest in past || (past == {} && s.highest == 0))
    && (forall v | v in past :: v in s.recent || v + window < s.highest)
  }

  lemma AbsorbRemembers(s: PeerNonces, window: u64, past: set<u64>, value: u64)
    requires Remembers(s, window, past) && Passes(s, window, value)
    ensures Remembers(Absorb(s, window, value), window, past + {value})
  {
  }

  lemma {:induction false} RunRemembers(m: Manager, events: seq<Event>, peer: PeerId)
    requires Initial(m) && NeverWidens(m, events)
    ensures Remembers(Of(Run(m, events).peers, peer), Run(m, events).window, History(m, events, peer))
    decreases |events|
  {
    if events != [] {
      var earlier := events[..|events| - 1];
      RunRemembers(m, earlier, peer);
      match events[|events| - 1]
      case Incoming(p, value) =>
        if p == peer && Accepts(Run(m, earlier), peer, value) {
          AbsorbRemembers(Of(Run(m, earlier).peers, peer), Run(m, earlier).window, History(m, earlier, peer), value);
        }
      case Resize(_) =>
      case Reset(_) =>
    }
  }

  /** On all 64-bit values, whatever wraps: a value passes exactly if it was never accepted
      before and its wrapped sum reaches the highest value accepted so far. */
  lemma AcceptanceIsExact(m: Manager, events: seq<Event>, peer: PeerId, value: u64)
    requires Initial(m) && NeverWidens(m, events)
    ensures var after, past := Run(m, events), History(m, events, peer);
            Accepts(after, peer, value) <==>
              value !in past && forall v | v in past :: v <= (value + after.window) % TWO_TO_THE_64
  {
    RunRemembers(m, events, peer);
  }

  /** Where the sum does not wrap this is the sliding window: new, and not more than the window below the highest.
      Where it wraps, a new value is refused exactly if something within reach of the wrapped sum was accepted. */
  lemma WindowIsExact(m: Manager, events: seq<Event>, peer: PeerId, value: u64)
    requires Initial(m) && NeverWidens(m, events) && value !in History(m, events, peer)
    ensures var after, past := Run(m, events), History(m, events, peer);
            var slides := forall v | v in past :: v <= value + after.window;
            Accepts(after, peer, value) != slides <==>
              value + after.window >= TWO_TO_THE_64
              && exists v :: v in past && v > value + after.window - TWO_TO_THE_64
  {
    AcceptanceIsExact(m, events, peer, value);
    var window := Run(m, events).window;
    if value + window >= TWO_TO_THE_64 {
      assert (value + window) % TWO_TO_THE_64 == value + window - TWO_TO_THE_64;
    }
  }

  lemma {:induction false} HistoryGrows(m: Manager, events: seq<Event>, n: nat, peer: PeerId)
    requires n <= |events| && Reset(peer) !in events
    ensures History(m, events[..n], peer) <= History(m, events, peer)
    decreases |events|
  {
    if n < |events| {
      var earlier := events[..|events| - 1];
      assert earlier[..n] == events[..n];
      HistoryGrows(m, earlier, n, peer);
    } else {
      assert events[..n] == events;
    }
  }

  lemma {:induction false} NeverWidensPrefix(m: Manager, events: seq<Event>, n: nat)
    requires n <= |events| && NeverWidens(m, events)
    ensures NeverWidens(m, events[..n])
    decreases |events|
  {
    if n < |events| {
      assert events[..|events| - 1][..n] == events[..n];
      NeverWidensPrefix(m, events[..|events| - 1], n);
    } else {
      assert events[..n] == events;
    }
  }

  predicate AcceptedAt(m: Manager, events: seq<Event>, i: nat)
    requires i < |events| && events[i].Incoming?
  {
    Accepts(Run(m, events[..i]), events[i].peer, events[i].value)
  }

  /** Over any run in which the window never widens and the peer is not reset, no value is accepted twice. */
  lemma AcceptedAtMostOnce(m: Manager, events: seq<Event>, i: nat, j: nat)
    requires Initial(m) && NeverWidens(m, events)
    requires i < j < |events| && events[i].Incoming? && events[i] == events[j] && Reset(events[i].peer) !in events
    requires AcceptedAt(m, events, i)
    ensures !AcceptedAt(m, events, j)
  {
    var peer, value := events[i].peer, events[i].value;
    assert events[..i + 1][..i] == events[..i];
    assert value in History(m, events[..i + 1], peer);
    assert events[..j][..i + 1] == events[..i + 1];
    HistoryGrows(m, events[..j], i + 1, peer);
    NeverWidensPrefix(m, events, j);
    AcceptanceIsExact(m, events[..j], peer, value);
  }

  // ----- when a value is accepted again -----

  /** Since its last acceptance, or with it, the value once lay more than the window below the highest value: some
      acceptance of the peer pushed it out. */
  predicate PushedOut(m: Manager, events: seq<Event>, peer: PeerId, value: u64) {
    events != [] &&
    (var earlier, e := events[..|events| - 1], events[|events| - 1];
     if e.Incoming? && e.peer == peer && Accepts(Run(m, earlier), peer, e.value) then
       var window, highest := Run(m, earlier).window, Of(Run(m, events).peers, peer).highest;
       (e.value != value && PushedOut(m, earlier, peer, value)) || value + window < highest
     else PushedOut(m, earlier, peer, value))
  }

  ghost predicate KeepsAllBut(s: PeerNonces, past: set<u64>, m: Manager, events: seq<Event>, peer: PeerId) {
    && (forall v | v in s.recent :: v in past)
    && (forall v {:trigger PushedOut(m, events, peer, v)} | v in past :: v !in s.recent <==> PushedOut(m, events, peer, v))
  }

  /** Whatever the window does, the kept values are the accepted ones that were not pushed out. */
  lemma {:induction false} KeptExactly(m: Manager, events: seq<Event>, peer: PeerId)
    requires Initial(m)
    ensures KeepsAllBut(Of(Run(m, events).peers, peer), History(m, events, peer), m, events, peer)
    decreases |events|
  {
    if events != [] {
      var earlier, e := events[..|events| - 1], events[|events| - 1];
      KeptExactly(m, earlier, peer);
      var before, after := Of(Run(m, earlier).peers, peer), Of(Run(m, events).peers, peer);
      if e.Incoming? && e.peer == peer && Accepts(Run(m, earlier), peer, e.value) {
        assert after == Absorb(before, Run(m, earlier).window, e.value);
        forall v | v in History(m, events, peer) ensures v !in after.recent <==> PushedOut(m, events, peer, v) {
          AbsorbDrops(before, Run(m, earlier).window, e.value, v);
          assert PushedOut(m, earlier, peer, v) || !PushedOut(m, earlier, peer, v);
        }
      } else if e.Reset? && e.peer == peer {
        assert History(m, events, peer) == {};
      } else {
        assert after == before && History(m, events, peer) == History(m, earlier, peer);
        forall v | v in History(m, events, peer) ensures v !in after.recent <==> PushedOut(m, events, peer, v) {
          assert PushedOut(m, earlier, peer, v) <==> PushedOut(m, events, peer, v);
        }
      }
    }
  }

  lemma AbsorbDrops(s: PeerNonces, window: u64, value: u64, v: u64)
    ensures v !in Absorb(s, window, value).recent <==>
              (v !in s.recent && v != value) || v + window < Absorb(s, window, value).highest
  {
  }

  /** Over every run, windows growing and shrinking: a value that was accepted is accepted again if and only if it was
      pushed out since and its wrapped sum with the present window reaches the highest value. */
  lemma AcceptedAgainExactly(m: Manager, events: seq<Event>, peer: PeerId, value: u64)
    requires Initial(m) && value in History(m, events, peer)
    ensures var after := Run(m, events);
            Accepts(after, peer, value) <==>
              PushedOut(m, events, peer, value)
              && Of(after.peers, peer).highest <= (value + after.window) % TWO_TO_THE_64
  {
    KeptExactly(m, events, peer);
    assert PushedOut(m, events, peer, value) || !PushedOut(m, events, peer, value);
  }

  predicate FixedWindow(events: seq<Event>) {
    forall i | 0 <= i < |events| :: !events[i].Resize?
  }

  ghost predicate WithinReach(s: PeerNonces, window: u64) {
    forall v | v in s.recent :: v + window >= s.highest
  }

  lemma AbsorbWithinReach(s: PeerNonces, window: u64, value: u64)
    ensures WithinReach(Absorb(s, window, value), window)
  {
  }

  lemma {:induction false} KeptWithinWindow(m: Manager, events: seq<Event>, peer: PeerId)
    requires Initial(m) && FixedWindow(events)
    ensures Run(m, events).window == m.window && NeverWidens(m, events)
    ensures WithinReach(Of(Run(m, events).peers, peer), m.window)
    decreases |events|
  {
    if events != [] {
      var earlier, e := events[..|events| - 1], events[|events| - 1];
      KeptWithinWindow(m, earlier, peer);
      if e.Incoming? { AbsorbWithinReach(Of(Run(m, earlier).peers, peer), m.window, e.value); }
    }
  }

  /** After a run with one window, making it `wider` lets an accepted value through again exactly when the old window had
      pushed it out and the new one reaches it. */
  lemma WideningForgetsExactly(m: Manager, events: seq<Event>, peer: PeerId, value: u64, wider: u64)
    requires Initial(m) && FixedWindow(events) && value in History(m, events, peer)
    ensures var highest := Of(Run(m, events).peers, peer).highest;
            Accepts(Step(Run(m, events), Resize(wider)), peer, value) <==>
              value + m.window < highest <= (value + wider) % TWO_TO_THE_64
  {
    KeptWithinWindow(m, events, peer);
    RunRemembers(m, events, peer);
  }

  lemma {:induction false} RangeSize(s: set<int>, low: int, high: int)
    requires low <= high && forall x | x in s :: low <= x < high
    ensures |s| <= high - low
    decreases high - low
  {
    if low < high {
      RangeSize(s - {low}, low + 1, high);
    } else {
      assert s == {};
    }
  }

  ghost predicate BelowHighest(s: PeerNonces) {
    forall v | v in s.recent :: v <= s.highest
  }

  lemma {:induction false} KeptBelowHighest(m: Manager, events: seq<Event>, peer: PeerId)
    requires Initial(m)
    ensures BelowHighest(Of(Run(m, events).peers, peer))
    decreases |events|
  {
    if events != [] {
      var before, e := Run(m, events[..|events| - 1]), events[|events| - 1];
      KeptBelowHighest(m, events[..|events| - 1], peer);
      if e.Incoming? && e.peer == peer {
        assert BelowHighest(Absorb(Of(before.peers, peer), before.window, e.value));
      }
    }
  }

  lemma AbsorbedFits(s: PeerNonces, window: u64, value: u64)
    requires BelowHighest(s)
    ensures |Absorb(s, window, value).recent| <= window + 1
  {
    var after := Absorb(s, window, value);
    RangeSize(after.recent, Cutoff(after.highest, window), after.highest + 1);
  }

  /** Memory stays bounded: right after an acceptance at most window + 1 values are kept. */
  lemma KeptAtMostWindowPlusOne(m: Manager, events: seq<Event>, peer: PeerId, value: u64)
    requires Initial(m) && Accepts(Run(m, events), peer, value)
    ensures var after := Step(Run(m, events), Incoming(peer, value));
            |after.peers[peer].recent| <= after.window + 1
  {
    KeptBelowHighest(m, events, peer);
    var before := Run(m, events);
    AbsorbedFits(Of(before.peers, peer), before.window, value);
    assert Step(before, Incoming(peer, value)).peers[peer] == Absorb(Of(before.peers, peer), before.window, value);
  }

  /** The events that concern the peer, and all changes of the window. */
  function OnlyAbout(events: seq<Event>, peer: PeerId): seq<Event> {
    if events == [] then [] else
    var earlier, e := OnlyAbout(events[..|events| - 1], peer), events[|events| - 1];
    if e.Resize? || e.peer == peer then earlier + [e] else earlier
  }

  /** Peers do not influence one another: without all events of the others, the peer's state and every verdict on it are
      the same. */
  lemma {:induction false} PeersAreIsolated(m: Manager, events: seq<Event>, peer: PeerId)
    ensures var all, alone := Run(m, events), Run(m, OnlyAbout(events, peer));
            && all.window == alone.window && Of(all.peers, peer) == Of(alone.peers, peer)
            && forall v :: Accepts(all, peer, v) <==> Accepts(alone, peer, v)
    decreases |events|
  {
    if events != [] {
      var earlier, e := events[..|events| - 1], events[|events| - 1];
      PeersAreIsolated(m, earlier, peer);
      if e.Resize? || e.peer == peer {
        assert OnlyAbout(events, peer)[..|OnlyAbout(events, peer)| - 1] == OnlyAbout(earlier, peer);
      }
    }
  }
}
