/** Byte conservation of a transfer: what the byte counter holds, and when it equals the file size. */
module SessionBytes {
  import opened Arithmetic
  import opened Bounded
  import opened SessionModel

  /** The sizes of all accepted deliveries. */
  function Total(meta: Metadata, log: seq<nat>): nat
    requires meta.chunkSize > 0
  {
    if log == [] then 0 else Total(meta, log[..|log| - 1]) + ExpectedSize(meta, log[|log| - 1])
  }

  /** The part of it that arrived for a chunk already accepted before. */
  function Repeated(meta: Metadata, log: seq<nat>): nat
    requires meta.chunkSize > 0
  {
    if log == [] then 0 else
    var earlier, i := log[..|log| - 1], log[|log| - 1];
    Repeated(meta, earlier) + if i in earlier then ExpectedSize(meta, i) else 0
  }

  /** The sizes of the chunks of `chunks` below `n`. */
  function SizeOf(meta: Metadata, chunks: set<nat>, n: nat): nat
    requires meta.chunkSize > 0
  {
    if n == 0 then 0 else SizeOf(meta, chunks, n - 1) + if n - 1 in chunks then ExpectedSize(meta, n - 1) else 0
  }

  lemma ExpectedSizePositive(meta: Metadata, i: nat)
    requires meta.chunkSize > 0
    ensures ExpectedSize(meta, i) >= 1
  {
  }

  lemma {:induction false} RepeatedIsZeroExactly(meta: Metadata, log: seq<nat>)
    requires meta.chunkSize > 0
    ensures Repeated(meta, log) == 0 <==> Distinct(log)
    decreases |log|
  {
    if log != [] {
      RepeatedIsZeroExactly(meta, log[..|log| - 1]);
      DistinctPush(log[..|log| - 1], log[|log| - 1]);
      assert log == log[..|log| - 1] + [log[|log| - 1]];
      ExpectedSizePositive(meta, log[|log| - 1]);
    }
  }

  lemma {:induction false} SizeOfInsert(meta: Metadata, chunks: set<nat>, i: nat, n: nat)
    requires meta.chunkSize > 0
    ensures SizeOf(meta, chunks + {i}, n) ==
            SizeOf(meta, chunks, n) + if i < n && i !in chunks then ExpectedSize(meta, i) else 0
    decreases n
  {
    if n > 0 { SizeOfInsert(meta, chunks, i, n - 1); }
  }

  function Elements(log: seq<nat>): set<nat> {
    set i | i in log
  }

  lemma {:induction false} TotalSplits(meta: Metadata, log: seq<nat>, n: nat)
    requires meta.chunkSize > 0 && forall i | i in log :: i < n
    ensures Total(meta, log) == SizeOf(meta, Elements(log), n) + Repeated(meta, log)
    decreases |log|
  {
    if log == [] {
      SizeOfEmpty(meta, n);
    } else {
      var earlier, i := log[..|log| - 1], log[|log| - 1];
      assert log == earlier + [i];
      assert Elements(log) == Elements(earlier) + {i};
      assert forall j | j in earlier :: j in log;
      TotalSplits(meta, earlier, n);
      SizeOfInsert(meta, Elements(earlier), i, n);
    }
  }

  lemma {:induction false} SizeOfEmpty(meta: Metadata, n: nat)
    requires meta.chunkSize > 0
    ensures SizeOf(meta, Elements([]), n) == 0
    decreases n
  {
    if n > 0 { SizeOfEmpty(meta, n - 1); }
  }

  predicate AcceptsDelivery(s: Session, hash: Hash, e: Event)
    requires s.meta.chunkSize > 0
  {
    e.Deliver? && Judge(s, hash, e.chunk, e.data) == Accepted
  }

  lemma StepCounts(s: Session, hash: Hash, e: Event)
    requires s.meta.chunkSize > 0 && s.next <= Reach(s.meta)
    ensures var after := Step(s, hash, e);
            if AcceptsDelivery(s, hash, e) then
              e.chunk < s.meta.chunkCount && after.received == s.received + {e.chunk}
              && after.bytes == CountBytes(s.bytes, ExpectedSize(s.meta, e.chunk))
            else after.received == s.received && after.bytes == s.bytes
  {
  }

  function Counted(meta: Metadata, log: seq<nat>): u64
    requires meta.chunkSize > 0
  {
    if log == [] then 0 else CountBytes(Counted(meta, log[..|log| - 1]), ExpectedSize(meta, log[|log| - 1]))
  }

  lemma {:induction false} CountedIsTotal(meta: Metadata, log: seq<nat>)
    requires meta.chunkSize > 0
    ensures Counted(meta, log) == Total(meta, log) % TWO_TO_THE_64
    decreases |log|
  {
    if log != [] {
      CountedIsTotal(meta, log[..|log| - 1]);
      WrapAdd(Total(meta, log[..|log| - 1]), ExpectedSize(meta, log[|log| - 1]));
    }
  }

  lemma LogGrows(meta: Metadata, log: seq<nat>, i: nat)
    requires meta.chunkSize > 0
    ensures Elements(log + [i]) == Elements(log) + {i}
    ensures Counted(meta, log + [i]) == CountBytes(Counted(meta, log), ExpectedSize(meta, i))
  {
    assert (log + [i])[..|log|] == log;
  }

  lemma WrapAdd(x: nat, y: nat)
    ensures (x % TWO_TO_THE_64 + y) % TWO_TO_THE_64 == (x + y) % TWO_TO_THE_64
  {
  }

  ghost predicate CountedBy(s: Session, log: seq<nat>)
    requires s.meta.chunkSize > 0
  {
    && s.received == Elements(log)
    && (forall i | i in log :: i < s.meta.chunkCount)
    && s.bytes == Counted(s.meta, log)
  }

  lemma StepKeepsCount(s: Session, log: seq<nat>, hash: Hash, e: Event)
    requires s.meta.chunkSize > 0 && s.next <= Reach(s.meta) && CountedBy(s, log)
    ensures CountedBy(Step(s, hash, e), log + if AcceptsDelivery(s, hash, e) then [e.chunk] else [])
  {
    StepCounts(s, hash, e);
    assert log + [] == log;
    if AcceptsDelivery(s, hash, e) { LogGrows(s.meta, log, e.chunk); }
  }

  /** The log and the received set of a run agree, and the counter is the total, modulo its 64 bits. */
  lemma {:induction false} CounterIsTotal(meta: Metadata, hash: Hash, events: seq<Event>)
    requires meta.chunkSize > 0
    ensures CountedBy(Run(meta, hash, events), AcceptedLog(meta, hash, events))
    ensures Run(meta, hash, events).bytes == Total(meta, AcceptedLog(meta, hash, events)) % TWO_TO_THE_64
    decreases |events|
  {
    if events != [] {
      var earlier := events[..|events| - 1];
      CounterIsTotal(meta, hash, earlier);
      StepKeepsCount(Run(meta, hash, earlier), AcceptedLog(meta, hash, earlier), hash, events[|events| - 1]);
    }
    CountedIsTotal(meta, AcceptedLog(meta, hash, events));
  }

  // ----- a file whose chunk count fits its size -----

  /** The chunk count is the file size divided by the chunk size, rounded up. */
  predicate CountFits(meta: Metadata)
    requires meta.chunkSize > 0
  {
    meta.chunkCount == (meta.fileSize + meta.chunkSize - 1) / meta.chunkSize
  }

  lemma {:induction false} FullChunks(meta: Metadata, chunks: set<nat>, n: nat)
    requires meta.chunkSize > 0 && n < meta.chunkCount && forall i: nat | i < n :: i in chunks
    ensures SizeOf(meta, chunks, n) == n * meta.chunkSize
    decreases n
  {
    if n > 0 {
      FullChunks(meta, chunks, n - 1);
      assert (n - 1) * meta.chunkSize + meta.chunkSize == n * meta.chunkSize;
    }
  }

  lemma CeilingDivision(size: nat, chunk: nat, count: nat)
    requires chunk > 0 && count == (size + chunk - 1) / chunk
    ensures size == 0 ==> count == 0
    ensures size > 0 ==> count > 0 && size == (count - 1) * chunk + (if size % chunk == 0 then chunk else size % chunk)
  {
    var q, r := size / chunk, size % chunk;
    assert size == q * chunk + r;
    if r == 0 {
      DivisionUnique(size + chunk - 1, chunk, q, chunk - 1);
    } else {
      assert (q + 1) * chunk == q * chunk + chunk;
      DivisionUnique(size + chunk - 1, chunk, q + 1, r - 1);
    }
    assert q > 0 ==> (q - 1) * chunk + chunk == q * chunk;
    if r == 0 && q == 0 { assert size == 0; }
  }

  lemma AllChunksMakeTheFile(meta: Metadata, chunks: set<nat>)
    requires meta.chunkSize > 0 && CountFits(meta) && forall i: nat | i < meta.chunkCount :: i in chunks
    ensures SizeOf(meta, chunks, meta.chunkCount) == meta.fileSize
  {
    CeilingDivision(meta.fileSize, meta.chunkSize, meta.chunkCount);
    if meta.chunkCount > 0 {
      FullChunks(meta, chunks, meta.chunkCount - 1);
    }
  }

  predicate AllReceived(s: Session) { |s.received| == s.meta.chunkCount }

  lemma AllReceivedMeansAll(s: Session)
    requires Inv(s)
    ensures AllReceived(s) <==> s.received == Below(s.meta.chunkCount)
    ensures AllReceived(s) ==> s.meta.chunkCount <= CAPACITY
  {
    assert forall i | i in s.received :: i < s.meta.chunkCount;
    RequestedSize(s.received, s.meta.chunkCount);
    RequestedSize(s.received, Reach(s.meta));
    BelowSize(s.meta.chunkCount);
  }

  /** What the program answers when asked whether a transfer is complete. */
  predicate Complete(s: Session) { s.state == Completed || AllReceived(s) }

  lemma {:induction false} CompletedMeansAll(meta: Metadata, hash: Hash, events: seq<Event>)
    requires meta.chunkSize > 0 && SetState(Completed) !in events
    ensures Run(meta, hash, events).state == Completed ==> AllReceived(Run(meta, hash, events))
    decreases |events|
  {
    if events != [] {
      var earlier, e := events[..|events| - 1], events[|events| - 1];
      CompletedMeansAll(meta, hash, earlier);
      assert e in events;
      RunKeeps(meta, hash, earlier);
      RunKeeps(meta, hash, events);
      AllReceivedMeansAll(Run(meta, hash, earlier));
      AllReceivedMeansAll(Run(meta, hash, events));
    }
  }

  /** Unless somebody declares it, a transfer counts as complete exactly when every chunk of the file was received, which
      takes a file of at most 1024 chunks. */
  lemma CompleteExactly(meta: Metadata, hash: Hash, events: seq<Event>)
    requires meta.chunkSize > 0 && SetState(Completed) !in events
    ensures Complete(Run(meta, hash, events)) <==>
              forall i: nat | i < meta.chunkCount :: i in Run(meta, hash, events).received
    ensures Complete(Run(meta, hash, events)) ==> meta.chunkCount <= CAPACITY
  {
    var s := Run(meta, hash, events);
    CompletedMeansAll(meta, hash, events);
    RunKeeps(meta, hash, events);
    AllReceivedMeansAll(s);
    if forall i: nat | i < meta.chunkCount :: i in s.received { assert s.received == Below(meta.chunkCount); }
  }

  lemma DistinctTotal(s: Session, log: seq<nat>)
    requires s.meta.chunkSize > 0 && CountedBy(s, log) && Distinct(log)
    ensures Total(s.meta, log) == SizeOf(s.meta, s.received, s.meta.chunkCount)
  {
    TotalSplits(s.meta, log, s.meta.chunkCount);
    RepeatedIsZeroExactly(s.meta, log);
  }

  /** With each chunk accepted once, the counter is at every moment the size of the chunks received so far. */
  lemma DistinctDeliveriesConserveBytes(meta: Metadata, hash: Hash, events: seq<Event>)
    requires meta.chunkSize > 0 && Distinct(AcceptedLog(meta, hash, events))
    ensures var s := Run(meta, hash, events);
            s.bytes == SizeOf(meta, s.received, meta.chunkCount) % TWO_TO_THE_64
  {
    var log := AcceptedLog(meta, hash, events);
    CounterIsTotal(meta, hash, events);
    DistinctTotal(Run(meta, hash, events), log);
  }

  lemma TotalAtCompletion(s: Session, log: seq<nat>)
    requires s.meta.chunkSize > 0 && Inv(s) && CountedBy(s, log) && CountFits(s.meta) && AllReceived(s)
    ensures Total(s.meta, log) == s.meta.fileSize + Repeated(s.meta, log)
  {
    AllReceivedMeansAll(s);
    TotalSplits(s.meta, log, s.meta.chunkCount);
    AllChunksMakeTheFile(s.meta, s.received);
  }

  lemma EqualModulo(x: u64, extra: nat)
    ensures (x + extra) % TWO_TO_THE_64 == x <==> extra % TWO_TO_THE_64 == 0
  {
  }

  lemma CounterAtCompletion(s: Session, log: seq<nat>)
    requires s.meta.chunkSize > 0 && Inv(s) && CountedBy(s, log) && CountFits(s.meta) && AllReceived(s)
    requires s.bytes == Total(s.meta, log) % TWO_TO_THE_64
    ensures s.bytes == s.meta.fileSize <==> Repeated(s.meta, log) % TWO_TO_THE_64 == 0
  {
    TotalAtCompletion(s, log);
    EqualModulo(s.meta.fileSize, Repeated(s.meta, log));
  }

  /** When everything has arrived, the counter equals the file size if and only if the bytes accepted once too often are
      none, or fill 64 bits exactly. */
  lemma CounterEqualsFileSizeExactly(meta: Metadata, hash: Hash, events: seq<Event>)
    requires meta.chunkSize > 0 && CountFits(meta) && AllReceived(Run(meta, hash, events))
    ensures var repeated := Repeated(meta, AcceptedLog(meta, hash, events));
            && (Run(meta, hash, events).bytes == meta.fileSize <==> repeated % TWO_TO_THE_64 == 0)
            && (repeated == 0 <==> Distinct(AcceptedLog(meta, hash, events)))
  {
    var s, log := Run(meta, hash, events), AcceptedLog(meta, hash, events);
    RunKeeps(meta, hash, events);
    CounterIsTotal(meta, hash, events);
    CounterAtCompletion(s, log);
    RepeatedIsZeroExactly(meta, log);
  }

  // ----- the state of a transfer that nobody sets -----

  lemma CompletionStep(s: Session, hash: Hash, e: Event)
    requires s.meta.chunkSize > 0 && Inv(s) && !e.SetState?
    requires s.state == Completed <==> AllReceived(s) && s.meta.chunkCount > 0
    ensures var after := Step(s, hash, e); after.state == Completed <==> AllReceived(after) && after.meta.chunkCount > 0
  {
    AllReceivedMeansAll(s);
    if e.Deliver? && AllReceived(s) && Judge(s, hash, e.chunk, e.data) == Accepted {
      assert s.received + {e.chunk} == s.received;
    }
  }

  /** As long as nobody sets the state, it is Completed exactly from the last chunk on; a file without chunks never is. */
  lemma {:induction false} CompletedExactly(meta: Metadata, hash: Hash, events: seq<Event>)
    requires meta.chunkSize > 0 && forall e | e in events :: !e.SetState?
    ensures Run(meta, hash, events).state == Completed <==> AllReceived(Run(meta, hash, events)) && meta.chunkCount > 0
    ensures Run(meta, hash, events).state in {Requesting, Transferring, Completed}
    decreases |events|
  {
    if events != [] {
      var earlier, e := events[..|events| - 1], events[|events| - 1];
      assert e in events && forall x | x in earlier :: x in events;
      CompletedExactly(meta, hash, earlier);
      RunKeeps(meta, hash, earlier);
      CompletionStep(Run(meta, hash, earlier), hash, e);
    }
  }
}
