/** The whole chunk pipeline: a described file, a transfer session that judges deliveries, accepted chunks written
    to the store, and the merge. */
module Reassembly {
  import opened Arithmetic
  import opened Bounded
  import opened SessionModel
  import opened ChunkStore
  import SessionBytes

  /** The hash is never empty, and nothing delivered in the run collides with a chunk of the file. */
  ghost predicate NoCollisions(hash: Hash, chunks: seq<Bytes>, events: seq<Event>) {
    && (forall c | c in chunks :: hash(c) != "")
    && (forall e, c | e in events && e.Deliver? && c in chunks && hash(e.data) == hash(c) :: e.data == c)
  }

  function Hashes(hash: Hash, chunks: seq<Bytes>): seq<string> {
    seq(|chunks|, i requires 0 <= i < |chunks| => hash(chunks[i]))
  }

  /** The metadata made for a file before it is offered. */
  function Describe(hash: Hash, content: Bytes, chunkSize: u32): Metadata
    requires chunkSize > 0 && |content| < TWO_TO_THE_64 && |Split(content, chunkSize)| < TWO_TO_THE_32
  {
    var chunks := Split(content, chunkSize);
    Metadata(hash(content), |content|, chunkSize, |chunks|, Hashes(hash, chunks))
  }

  ghost predicate Describable(content: Bytes, chunkSize: u32) {
    chunkSize > 0 && |content| < TWO_TO_THE_64 && |Split(content, chunkSize)| < TWO_TO_THE_32
  }

  /** The described chunk count is the file size divided by the chunk size, rounded up. */
  lemma DescribedCountFits(hash: Hash, content: Bytes, chunkSize: u32)
    requires Describable(content, chunkSize)
    ensures SessionBytes.CountFits(Describe(hash, content, chunkSize))
  {
    SplitCount(content, chunkSize);
  }

  /** The store after a run: every accepted delivery overwrites the file of its chunk. */
  function Written(meta: Metadata, hash: Hash, events: seq<Event>, base: string, initial: Store): Store
    requires meta.chunkSize > 0
  {
    if events == [] then initial else
    var earlier, e := events[..|events| - 1], events[|events| - 1];
    var store := Written(meta, hash, earlier, base, initial);
    if e.Deliver? && Judge(Run(meta, hash, earlier), hash, e.chunk, e.data) == Accepted then
      WriteChunk(store, base, meta.fileHash, e.chunk, e.data)
    else store
  }

  lemma AcceptedIsOriginal(hash: Hash, content: Bytes, chunkSize: u32, s: Session, i: u32, data: Bytes)
    requires Describable(content, chunkSize) && NoCollisions(hash, Split(content, chunkSize), [Deliver(i, data)])
    requires s.meta == Describe(hash, content, chunkSize) && Judge(s, hash, i, data) == Accepted
    ensures data == Split(content, chunkSize)[i]
  {
    var chunks := Split(content, chunkSize);
    assert Deliver(i, data) in [Deliver(i, data)];
    assert chunks[i] in chunks && s.meta.chunkHashes[i] == hash(chunks[i]);
  }

  /** At every moment the store holds, for every received chunk, exactly the original bytes, whatever the order
      and repetition of the deliveries and whatever was lying in the store before. */
  lemma {:induction false} ReceivedChunksAreOriginal(hash: Hash, content: Bytes, chunkSize: u32, events: seq<Event>,
                                                     base: string, initial: Store, i: nat)
    requires Describable(content, chunkSize) && NoCollisions(hash, Split(content, chunkSize), events)
    requires var meta := Describe(hash, content, chunkSize);
             i in Run(meta, hash, events).received
    ensures var meta := Describe(hash, content, chunkSize);
            i < meta.chunkCount
            && ReadChunk(Written(meta, hash, events, base, initial), base, meta.fileHash, i) == Split(content, chunkSize)[i]
    decreases |events|
  {
    var meta := Describe(hash, content, chunkSize);
    var earlier, e := events[..|events| - 1], events[|events| - 1];
    var s, store := Run(meta, hash, earlier), Written(meta, hash, earlier, base, initial);
    if e.Deliver? && Judge(s, hash, e.chunk, e.data) == Accepted {
      AcceptedIsOriginal(hash, content, chunkSize, s, e.chunk, e.data);
      WriteThenRead(store, base, meta.fileHash, e.chunk, e.data, i);
      assert forall x | x in earlier :: x in events;
      if i != e.chunk { ReceivedChunksAreOriginal(hash, content, chunkSize, earlier, base, initial, i); }
    } else {
      assert forall x | x in earlier :: x in events;
      ReceivedChunksAreOriginal(hash, content, chunkSize, earlier, base, initial, i);
    }
  }

  /** Once every chunk was received, merging gives back the file. */
  lemma MergeGivesFileBack(hash: Hash, content: Bytes, chunkSize: u32, events: seq<Event>, base: string, initial: Store)
    requires Describable(content, chunkSize) && NoCollisions(hash, Split(content, chunkSize), events)
    requires SessionBytes.AllReceived(Run(Describe(hash, content, chunkSize), hash, events))
    ensures var meta := Describe(hash, content, chunkSize);
            var store := Written(meta, hash, events, base, initial);
            && AllPresent(store, base, meta.fileHash, meta.chunkCount)
            && Concat(Chunks(store, base, meta.fileHash, meta.chunkCount)) == content
  {
    var meta := Describe(hash, content, chunkSize);
    var store := Written(meta, hash, events, base, initial);
    var original := Split(content, chunkSize);
    RunKeeps(meta, hash, events);
    SessionBytes.AllReceivedMeansAll(Run(meta, hash, events));
    forall i: nat | i < meta.chunkCount
      ensures ReadChunk(store, base, meta.fileHash, i) == original[i] != []
    {
      assert i in Below(meta.chunkCount);
      ReceivedChunksAreOriginal(hash, content, chunkSize, events, base, initial, i);
      SplitAt(content, chunkSize, i);
    }
    assert Chunks(store, base, meta.fileHash, meta.chunkCount) == original;
    JoinSplit(content, chunkSize);
  }

  /** Starting from an empty store, a merge before that fails: it succeeds exactly when every chunk was received. */
  lemma MergeSucceedsExactly(hash: Hash, content: Bytes, chunkSize: u32, events: seq<Event>, base: string)
    requires Describable(content, chunkSize) && NoCollisions(hash, Split(content, chunkSize), events)
    ensures var meta := Describe(hash, content, chunkSize);
            && (AllPresent(Written(meta, hash, events, base, map[]), base, meta.fileHash, meta.chunkCount)
                <==> SessionBytes.AllReceived(Run(meta, hash, events)))
            && (SessionBytes.AllReceived(Run(meta, hash, events)) ==> meta.chunkCount <= CAPACITY)
  {
    var meta := Describe(hash, content, chunkSize);
    var s, store := Run(meta, hash, events), Written(meta, hash, events, base, map[]);
    RunKeeps(meta, hash, events);
    SessionBytes.AllReceivedMeansAll(s);
    if SessionBytes.AllReceived(s) {
      MergeGivesFileBack(hash, content, chunkSize, events, base, map[]);
    }
    if AllPresent(store, base, meta.fileHash, meta.chunkCount) {
      forall i: nat | i < meta.chunkCount ensures i in s.received {
        assert ReadChunk(store, base, meta.fileHash, i) != [];
        UnreceivedIsMissing(meta, hash, events, base, i);
      }
      assert s.received == Below(meta.chunkCount);
      BelowSize(meta.chunkCount);
    }
  }

  lemma {:induction false} UnreceivedIsMissing(meta: Metadata, hash: Hash, events: seq<Event>, base: string, i: nat)
    requires meta.chunkSize > 0
    ensures ReadChunk(Written(meta, hash, events, base, map[]), base, meta.fileHash, i) != [] ==>
              i in Run(meta, hash, events).received
    decreases |events|
  {
    if events != [] {
      var earlier, e := events[..|events| - 1], events[|events| - 1];
      UnreceivedIsMissing(meta, hash, earlier, base, i);
      if e.Deliver? {
        WriteThenRead(Written(meta, hash, earlier, base, map[]), base, meta.fileHash, e.chunk, e.data, i);
      }
    }
  }

  // ----- which files can be transferred at all -----

  lemma ChunksHaveExpectedSizes(hash: Hash, content: Bytes, chunkSize: u32, i: nat)
    requires Describable(content, chunkSize) && i < |Split(content, chunkSize)|
    ensures |Split(content, chunkSize)[i]| == ExpectedSize(Describe(hash, content, chunkSize), i)
  {
    var n, size := |Split(content, chunkSize)|, chunkSize as nat;
    SplitAt(content, size, i);
    SplitCount(content, size);
    SessionBytes.CeilingDivision(|content|, size, n);
    if i == n - 1 { assert (i + 1) * size == i * size + size; }
  }

  /** All chunks are requested at once, and the first `n` delivered. */
  function Deliveries(chunks: seq<Bytes>, n: nat): seq<Event>
    requires n <= |chunks| < TWO_TO_THE_32
  {
    if n == 0 then [Request(|chunks|)] else Deliveries(chunks, n - 1) + [Deliver(n - 1, chunks[n - 1])]
  }

  lemma {:induction false} DeliveriesArrive(hash: Hash, content: Bytes, chunkSize: u32, n: nat)
    requires Describable(content, chunkSize) && n <= |Split(content, chunkSize)| <= CAPACITY
    ensures var meta := Describe(hash, content, chunkSize);
            var s := Run(meta, hash, Deliveries(Split(content, chunkSize), n));
            s.requested == Below(meta.chunkCount) && s.received == Below(n)
    decreases n
  {
    var meta, chunks := Describe(hash, content, chunkSize), Split(content, chunkSize);
    if n == 0 {
      EverythingRequested(meta, hash);
    } else {
      DeliveriesArrive(hash, content, chunkSize, n - 1);
      var earlier := Deliveries(chunks, n - 1);
      assert Deliveries(chunks, n)[..|Deliveries(chunks, n)| - 1] == earlier;
      OneMoreArrives(hash, content, chunkSize, Run(meta, hash, earlier), n - 1);
    }
  }

  lemma OneMoreArrives(hash: Hash, content: Bytes, chunkSize: u32, s: Session, i: nat)
    requires Describable(content, chunkSize) && i < |Split(content, chunkSize)| <= CAPACITY
    requires s.meta == Describe(hash, content, chunkSize)
    requires s.requested == Below(s.meta.chunkCount) && s.received == Below(i)
    ensures var after := Receive(s, hash, i, Split(content, chunkSize)[i]);
            after.requested == s.requested && after.received == Below(i + 1)
  {
    ChunksHaveExpectedSizes(hash, content, chunkSize, i);
    assert i in Below(s.meta.chunkCount);
    assert Judge(s, hash, i, Split(content, chunkSize)[i]) == Accepted;
    assert Below(i + 1) == Below(i) + {i};
  }

  lemma EverythingRequested(meta: Metadata, hash: Hash)
    requires meta.chunkSize > 0 && meta.chunkCount <= CAPACITY
    ensures Run(meta, hash, [Request(meta.chunkCount)]).requested == Below(meta.chunkCount)
    ensures Run(meta, hash, [Request(meta.chunkCount)]).received == Below(0)
  {
    assert [Request(meta.chunkCount)][..0] == [];
    var s := Run(meta, hash, []);
    assert Run(meta, hash, [Request(meta.chunkCount)]) == RequestNext(s, meta.chunkCount);
    RequestTakesLowest(meta, hash, [], meta.chunkCount);
    RunKeeps(meta, hash, [Request(meta.chunkCount)]);
    var after := RequestNext(s, meta.chunkCount);
    assert after.requested - s.requested == after.requested;
    RequestedSize(after.requested, meta.chunkCount);
  }

  /** Some run transfers the file if and only if it has at most 1024 chunks, which means at most 1024 times the chunk
      size. */
  lemma TransferableExactly(hash: Hash, content: Bytes, chunkSize: u32)
    requires Describable(content, chunkSize)
    ensures var meta := Describe(hash, content, chunkSize);
            && ((exists events :: SessionBytes.AllReceived(Run(meta, hash, events))) <==> |content| <= 1024 * chunkSize)
            && (meta.chunkCount <= CAPACITY <==> |content| <= 1024 * chunkSize)
  {
    var meta, chunks := Describe(hash, content, chunkSize), Split(content, chunkSize);
    LongestFile(content, chunkSize);
    if meta.chunkCount <= CAPACITY {
      DeliveriesArrive(hash, content, chunkSize, |chunks|);
      BelowSize(meta.chunkCount);
      assert SessionBytes.AllReceived(Run(meta, hash, Deliveries(chunks, |chunks|)));
    } else {
      forall events ensures !SessionBytes.AllReceived(Run(meta, hash, events)) {
        RunKeeps(meta, hash, events);
        SessionBytes.AllReceivedMeansAll(Run(meta, hash, events));
      }
    }
  }

  lemma LongestFile(content: Bytes, size: nat)
    requires size > 0
    ensures |Split(content, size)| <= CAPACITY <==> |content| <= 1024 * size
  {
    var n := |Split(content, size)|;
    SplitCount(content, size);
    SessionBytes.CeilingDivision(|content|, size, n);
    if n <= CAPACITY { MultiplyMonotone(size, n, 1024); } else { MultiplyMonotone(size, 1024, n - 1); }
    if n > 0 { assert n * size == (n - 1) * size + size; }
  }

  /** What the metadata say: the hash of the whole file, its size, and the hash of every chunk. */
  lemma DescribedTruly(hash: Hash, content: Bytes, chunkSize: u32, i: nat)
    requires Describable(content, chunkSize) && i < |Split(content, chunkSize)|
    ensures var m := Describe(hash, content, chunkSize);
      && m.fileHash == hash(content) && m.fileSize == |content| && m.chunkSize == chunkSize
      && m.chunkCount == |m.chunkHashes| == |Split(content, chunkSize)|
      && m.chunkHashes[i] == hash(Split(content, chunkSize)[i])
  {
    assert Hashes(hash, Split(content, chunkSize))[i] == hash(Split(content, chunkSize)[i]);
  }
}
