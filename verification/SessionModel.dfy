/** A chunked transfer as a state machine: which chunks are requested and received, and how many bytes were counted. */
module SessionModel {
  import opened Bounded

  type Hash = seq<u8> -> string

  datatype Metadata = Metadata(fileHash: string, fileSize: u64, chunkSize: u32, chunkCount: u32, chunkHashes: seq<string>)

  datatype TransferState = Inactive | Requesting | Transferring | Paused | Completed | Failed | Cancelled

  /** `next` is the next index to look at when requesting. */
  datatype Session = Session(meta: Metadata, state: TransferState, requested: set<nat>, received: set<nat>,
                             next: u32, bytes: u64)

  /** `Thrown` stands for the exception of a bit set that is asked about a bit it does not have. */
  datatype Verdict = Accepted | OutOfRange | Thrown | NotRequested | SizeMismatch | HashMismatch

  /** The bits of each of the two bit sets. */
  const CAPACITY: nat := 1024

  /** The chunks that have a bit. */
  function Reach(meta: Metadata): nat {
    if meta.chunkCount <= CAPACITY then meta.chunkCount else CAPACITY
  }

  function Started(meta: Metadata): Session {
    Session(meta, Requesting, {}, {}, 0, 0)
  }

  predicate Active(s: Session) { s.state == Requesting || s.state == Transferring }

  /** Walk upward from `next`, taking every chunk that is neither requested nor received, until `budget` are taken
      or `count` is reached: the new requests, the new next index, and the budget left over. */
  function Scan(requested: set<nat>, received: set<nat>, next: nat, count: nat, budget: nat): (r: (set<nat>, nat, nat))
    ensures requested <= r.0 && next <= r.1 && (next <= count ==> r.1 <= count)
    ensures next <= count && r.2 > 0 ==> r.1 == count
    decreases count - next
  {
    if budget == 0 || next >= count then (requested, next, budget)
    else if next !in requested && next !in received then
      Scan(requested + {next}, received, next + 1, count, budget - 1)
    else
      Scan(requested, received, next + 1, count, budget)
  }

  function ScanFrom(s: Session, window: u32): (set<nat>, nat, nat) {
    Scan(s.requested, s.received, s.next, Reach(s.meta), window)
  }

  /** The walk comes to a chunk of the file that has no bit. */
  predicate RequestThrows(s: Session, window: u32) {
    Active(s) && ScanFrom(s, window).2 > 0 && ScanFrom(s, window).1 < s.meta.chunkCount
  }

  /** Refused, with no change, in a state that is not active. What was marked before an exception stays marked. */
  function RequestNext(s: Session, window: u32): Session
    requires s.next <= Reach(s.meta)
  {
    if !Active(s) then s else
    var after := ScanFrom(s, window);
    s.(requested := after.0, next := after.1,
       state := if s.state == Requesting && after.0 != s.requested && !RequestThrows(s, window) then Transferring
                else s.state)
  }

  function MarkRequested(s: Session, i: u32): Session {
    if i < Reach(s.meta) then s.(requested := s.requested + {i}) else s
  }

  function ExpectedSize(meta: Metadata, i: nat): u32
    requires meta.chunkSize > 0
  {
    if i == meta.chunkCount - 1 && meta.fileSize % meta.chunkSize != 0 then meta.fileSize % meta.chunkSize
    else meta.chunkSize
  }

  predicate HashFits(meta: Metadata, hash: Hash, i: nat, data: seq<u8>) {
    i < |meta.chunkHashes| && meta.chunkHashes[i] != "" ==> hash(data) == meta.chunkHashes[i]
  }

  function Judge(s: Session, hash: Hash, i: u32, data: seq<u8>): Verdict
    requires s.meta.chunkSize > 0
  {
    if i >= s.meta.chunkCount then OutOfRange
    else if i >= CAPACITY then Thrown
    else if i !in s.requested then NotRequested
    else if |data| != ExpectedSize(s.meta, i) then SizeMismatch
    else if !HashFits(s.meta, hash, i, data) then HashMismatch
    else Accepted
  }

  /** The 64-bit byte counter. */
  function CountBytes(bytes: u64, more: nat): u64 { (bytes + more) % TWO_TO_THE_64 }

  function Receive(s: Session, hash: Hash, i: u32, data: seq<u8>): Session
    requires s.meta.chunkSize > 0
  {
    if Judge(s, hash, i, data) != Accepted then s else
    var received := s.received + {i};
    s.(received := received, bytes := CountBytes(s.bytes, |data|),
       state := if |received| == s.meta.chunkCount then Completed else s.state)
  }

  // ----- runs -----

  datatype Event =
    | Request(window: u32)
    | Mark(chunk: u32)
    | Deliver(chunk: u32, data: seq<u8>)
    | SetState(state: TransferState)

  function Step(s: Session, hash: Hash, e: Event): Session
    requires s.meta.chunkSize > 0 && s.next <= Reach(s.meta)
  {
    match e
    case Request(window) => RequestNext(s, window)
    case Mark(i) => MarkRequested(s, i)
    case Deliver(i, data) => Receive(s, hash, i, data)
    case SetState(state) => s.(state := state)
  }

  /** Whether the event ends in an exception. */
  predicate Throws(s: Session, hash: Hash, e: Event)
    requires s.meta.chunkSize > 0
  {
    match e
    case Request(window) => RequestThrows(s, window)
    case Mark(i) => CAPACITY <= i < s.meta.chunkCount
    case Deliver(i, data) => Judge(s, hash, i, data) == Thrown
    case SetState(_) => false
  }

  function Run(meta: Metadata, hash: Hash, events: seq<Event>): (s: Session)
    requires meta.chunkSize > 0
    ensures s.meta == meta && s.next <= Reach(meta)
    decreases |events|
  {
    if events == [] then Started(meta)
    else Step(Run(meta, hash, events[..|events| - 1]), hash, events[|events| - 1])
  }

  /** The indices of the accepted deliveries, in order. */
  function AcceptedLog(meta: Metadata, hash: Hash, events: seq<Event>): seq<nat>
    requires meta.chunkSize > 0
  {
    if events == [] then [] else
    var earlier, e := events[..|events| - 1], events[|events| - 1];
    AcceptedLog(meta, hash, earlier)
    + if e.Deliver? && Judge(Run(meta, hash, earlier), hash, e.chunk, e.data) == Accepted then [e.chunk] else []
  }

  // ----- what every operation keeps -----

  ghost predicate Inv(s: Session) {
    && s.received <= s.requested
    && (forall i | i in s.requested :: i < Reach(s.meta))
    && s.next <= Reach(s.meta)
    && (forall i: nat | i < s.next :: i in s.requested)
  }

  lemma {:induction false} ScanKeeps(requested: set<nat>, received: set<nat>, next: nat, count: nat, budget: nat)
    requires next <= count && forall i | i in requested :: i < count
    requires forall i: nat | i < next :: i in requested
    requires received <= requested
    ensures forall i | i in Scan(requested, received, next, count, budget).0 :: i < count
    ensures forall i: nat | i < Scan(requested, received, next, count, budget).1 ::
              i in Scan(requested, received, next, count, budget).0
    decreases count - next
  {
    if budget == 0 || next >= count {
    } else if next !in requested && next !in received {
      ScanKeeps(requested + {next}, received, next + 1, count, budget - 1);
    } else {
      ScanKeeps(requested, received, next + 1, count, budget);
    }
  }

  lemma StepKeeps(s: Session, hash: Hash, e: Event)
    requires s.meta.chunkSize > 0 && Inv(s)
    ensures Inv(Step(s, hash, e))
  {
    if e.Request? { ScanKeeps(s.requested, s.received, s.next, Reach(s.meta), e.window); }
  }

  /** In every run: what was received was requested, only chunks of the file that have a bit are requested, and
      everything below the next index is requested. */
  lemma {:induction false} RunKeeps(meta: Metadata, hash: Hash, events: seq<Event>)
    requires meta.chunkSize > 0
    ensures Inv(Run(meta, hash, events))
    decreases |events|
  {
    if events != [] {
      RunKeeps(meta, hash, events[..|events| - 1]);
      StepKeeps(Run(meta, hash, events[..|events| - 1]), hash, events[|events| - 1]);
    }
  }

  // ----- windowed requests -----

  predicate IsBelow(i: nat, n: nat) { i < n }

  function Below(n: nat): set<nat> {
    set i: nat {:trigger IsBelow(i, n)} | i < n && IsBelow(i, n)
  }

  lemma {:induction false} BelowSize(n: nat)
    ensures |Below(n)| == n
  {
    if n == 0 {
      assert Below(0) == {};
    } else {
      BelowSize(n - 1);
      assert Below(n) == Below(n - 1) + {n - 1};
    }
  }

  lemma SubsetSize(a: set<nat>, b: set<nat>)
    requires a <= b
    ensures |b - a| == |b| - |a|
    ensures |a| == |b| <==> a == b
  {
    assert b == a + (b - a) && a !! (b - a);
    if b - a == {} { assert a == b; }
  }

  /** `more` are the lowest chunks outside `requested`, as many as the budget and the file allow. */
  ghost predicate Lowest(requested: set<nat>, more: set<nat>, budget: nat, count: nat) {
    && more !! requested
    && |more| == Min(budget, count - |requested|)
    && forall i: nat, j | j in more && i < j :: i in requested || i in more
  }

  lemma LowestCons(requested: set<nat>, rest: set<nat>, budget: nat, count: nat, next: nat)
    requires next !in requested && budget > 0 && forall i: nat | i < next :: i in requested
    requires Lowest(requested + {next}, rest, budget - 1, count) && |requested| < count
    ensures Lowest(requested, rest + {next}, budget, count)
  {
    assert |requested + {next}| == |requested| + 1;
    assert |rest + {next}| == |rest| + 1;
  }

  lemma LowestOfNone(requested: set<nat>, budget: nat, count: nat)
    requires forall i | i in requested :: i < count
    requires budget == 0 || forall i: nat | i < count :: i in requested
    ensures Lowest(requested, {}, budget, count)
  {
    RequestedSize(requested, count);
    if budget > 0 {
      assert requested == Below(count);
      BelowSize(count);
    }
  }

  lemma RequestedSize(requested: set<nat>, count: nat)
    requires forall i | i in requested :: i < count
    ensures |requested| <= count
    ensures forall i: nat | i < count && i !in requested :: |requested| < count
    ensures |requested| == count ==> requested == Below(count)
  {
    assert requested <= Below(count);
    SubsetSize(requested, Below(count));
    BelowSize(count);
  }

  lemma DifferenceCons(after: set<nat>, requested: set<nat>, next: nat)
    requires requested + {next} <= after && next !in requested
    ensures after - requested == (after - (requested + {next})) + {next}
  {
  }

  lemma {:induction false} ScanTakesLowest(requested: set<nat>, received: set<nat>, next: nat, count: nat, budget: nat)
    requires next <= count && received <= requested && forall i | i in requested :: i < count
    requires forall i: nat | i < next :: i in requested
    ensures Lowest(requested, Scan(requested, received, next, count, budget).0 - requested, budget, count)
    decreases count - next
  {
    var after := Scan(requested, received, next, count, budget).0;
    if budget == 0 || next >= count {
      LowestOfNone(requested, budget, count);
      assert after - requested == {};
    } else if next !in requested {
      var wider := requested + {next};
      ScanTakesLowest(wider, received, next + 1, count, budget - 1);
      RequestedSize(requested, count);
      LowestCons(requested, after - wider, budget, count, next);
      DifferenceCons(after, requested, next);
    } else {
      ScanTakesLowest(requested, received, next + 1, count, budget);
    }
  }

  lemma {:induction false} ScanSpends(requested: set<nat>, received: set<nat>, next: nat, count: nat, budget: nat)
    requires next <= count
    ensures var r := Scan(requested, received, next, count, budget);
            |r.0| - |requested| + r.2 == budget
    decreases count - next
  {
    if budget == 0 || next >= count {
    } else if next !in requested && next !in received {
      ScanSpends(requested + {next}, received, next + 1, count, budget - 1);
    } else {
      ScanSpends(requested, received, next + 1, count, budget);
    }
  }

  /** A windowed request marks the lowest chunks that were not requested: the smaller of the window and what remains of
      the chunks with a bit. It throws exactly if the window asks for more than that and the file has more. */
  lemma RequestTakesLowest(meta: Metadata, hash: Hash, events: seq<Event>, window: u32)
    requires meta.chunkSize > 0 && Active(Run(meta, hash, events))
    ensures var s := Run(meta, hash, events);
            && Lowest(s.requested, RequestNext(s, window).requested - s.requested, window, Reach(meta))
            && (RequestThrows(s, window) <==> window > Reach(meta) - |s.requested| && meta.chunkCount > CAPACITY)
  {
    RunKeeps(meta, hash, events);
    var s := Run(meta, hash, events);
    ScanTakesLowest(s.requested, s.received, s.next, Reach(meta), window);
    ScanSpends(s.requested, s.received, s.next, Reach(meta), window);
    RequestedSize(s.requested, Reach(meta));
    var after := ScanFrom(s, window);
    SubsetSize(s.requested, after.0);
  }

  function Requests(s: Session, window: u32, n: nat): (r: Session)
    requires s.next <= Reach(s.meta)
    ensures r.next <= Reach(r.meta) && r.meta == s.meta
  {
    if n == 0 then s else RequestNext(Requests(s, window, n - 1), window)
  }

  lemma {:induction false} RequestsGrow(s: Session, window: u32, n: nat)
    requires Inv(s) && Active(s) && window >= 1
    ensures Inv(Requests(s, window, n)) && Active(Requests(s, window, n))
    ensures |Requests(s, window, n).requested| >= Min(n, Reach(s.meta))
    decreases n
  {
    if n > 0 {
      RequestsGrow(s, window, n - 1);
      var before := Requests(s, window, n - 1);
      ScanKeeps(before.requested, before.received, before.next, Reach(s.meta), window);
      ScanTakesLowest(before.requested, before.received, before.next, Reach(s.meta), window);
      SubsetSize(before.requested, RequestNext(before, window).requested);
      RequestedSize(before.requested, Reach(s.meta));
    }
  }

  /** Asking again and again, each time for at least one chunk, requests every chunk that has a bit within as many calls,
      and so the whole file if and only if it has at most 1024 chunks. A longer file makes every further call throw. */
  lemma RepeatedRequestsCoverFile(s: Session, window: u32, n: nat)
    requires Inv(s) && Active(s) && window >= 1 && n >= Reach(s.meta)
    ensures Requests(s, window, n).requested == Below(Reach(s.meta))
    ensures Requests(s, window, n).requested == Below(s.meta.chunkCount) <==> s.meta.chunkCount <= CAPACITY
    ensures RequestThrows(Requests(s, window, n), window) <==> s.meta.chunkCount > CAPACITY
  {
    RequestsGrow(s, window, n);
    var after := Requests(s, window, n);
    RequestedSize(after.requested, Reach(s.meta));
    ScanSpends(after.requested, after.received, after.next, Reach(s.meta), window);
    ScanKeeps(after.requested, after.received, after.next, Reach(s.meta), window);
    RequestedSize(ScanFrom(after, window).0, Reach(s.meta));
    SubsetSize(after.requested, ScanFrom(after, window).0);
    BelowSize(Reach(s.meta));
    if s.meta.chunkCount > CAPACITY { assert CAPACITY in Below(s.meta.chunkCount); }
  }

  /** Among 1025 chunks the last is never requested, whatever is tried. */
  lemma LastOf1025IsNeverRequested(meta: Metadata, hash: Hash, events: seq<Event>)
    requires meta.chunkSize > 0 && meta.chunkCount == 1025
    ensures 1024 !in Run(meta, hash, events).requested
    ensures Throws(Run(meta, hash, events), hash, Mark(1024))
    ensures forall data :: Throws(Run(meta, hash, events), hash, Deliver(1024, data))
  {
    RunKeeps(meta, hash, events);
  }

  lemma ThrowsOnlyBeyondCapacity(s: Session, hash: Hash, e: Event)
    requires s.meta.chunkSize > 0 && s.meta.chunkCount <= CAPACITY && s.next <= Reach(s.meta)
    ensures !Throws(s, hash, e)
  {
  }

  /** The verdict on a delivery names the first test that fails: the index, its bit, the request, the size, the hash. */
  lemma FirstFailureDecides(s: Session, hash: Hash, i: u32, data: seq<u8>)
    requires s.meta.chunkSize > 0
    ensures var v, m, last := Judge(s, hash, i, data), s.meta, s.meta.fileSize % s.meta.chunkSize;
      var inFile, hasBit, asked := i < m.chunkCount, i < 1024, i in s.requested;
      var fits := |data| == if i + 1 == m.chunkCount && last > 0 then last else m.chunkSize;
      var same := i >= |m.chunkHashes| || m.chunkHashes[i] == "" || m.chunkHashes[i] == hash(data);
      && (v == OutOfRange <==> !inFile) && (v == Thrown <==> inFile && !hasBit)
      && (v == NotRequested <==> inFile && hasBit && !asked)
      && (v == SizeMismatch <==> inFile && hasBit && asked && !fits)
      && (v == HashMismatch <==> inFile && hasBit && asked && fits && !same)
      && (v == Accepted <==> inFile && hasBit && asked && fits && same)
  {
  }

  /** Anything but an accepted delivery leaves the session as it is; an accepted one adds its chunk and bytes only. */
  lemma OnlyAcceptedChange(s: Session, hash: Hash, i: u32, data: seq<u8>)
    requires s.meta.chunkSize > 0 && s.next <= Reach(s.meta)
    ensures var after := Step(s, hash, Deliver(i, data));
      if Judge(s, hash, i, data) == Accepted then
        && after == Session(s.meta, after.state, s.requested, s.received + {i}, s.next,
                            (s.bytes + |data|) % 0x1_0000_0000_0000_0000)
        && (after.state == s.state || after.state == Completed)
      else after == s
  {
  }

  /** A chunk that is marked by hand can be delivered, and is the only thing that changes. */
  lemma MarkedIsAwaited(s: Session, hash: Hash, i: u32, data: seq<u8>)
    requires s.meta.chunkSize > 0 && s.next <= Reach(s.meta)
    ensures var after := Step(s, hash, Mark(i));
      && (i < s.meta.chunkCount && i < 1024 ==> Judge(after, hash, i, data) != NotRequested)
      && after == s.(requested := after.requested)
      && forall j {:trigger j in after.requested} ::
           j in after.requested <==> j in s.requested || (j == i && i < Reach(s.meta))
  {
  }

  /** Asking for chunks is refused, without any change, unless the session is requesting or transferring. The first request
      that takes a chunk, and does not throw, begins the transfer; no other changes the state. */
  lemma RequestBegins(s: Session, window: u32)
    requires Inv(s)
    ensures var after := RequestNext(s, window);
      && (s.state != Requesting && s.state != Transferring ==> after == s)
      && (s.state != Requesting ==> after.state == s.state)
      && (s.state == Requesting ==>
            after.state == if window > 0 && |s.requested| < Reach(s.meta) && !RequestThrows(s, window) then Transferring
                           else Requesting)
      && after.received == s.received && after.bytes == s.bytes && after.meta == s.meta
  {
    ScanTakesLowest(s.requested, s.received, s.next, Reach(s.meta), window);
    RequestedSize(s.requested, Reach(s.meta));
    var after := ScanFrom(s, window).0;
    SubsetSize(s.requested, after);
    if after == s.requested { assert after - s.requested == {}; }
  }
}
