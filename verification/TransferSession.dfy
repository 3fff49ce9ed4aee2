/** The transfer session object, whose bit sets, counters and request times are updated in place. */
module TransferSession {
  import opened Bounded
  import opened SessionModel
  import SessionBytes

  const MILLISECOND: int := 1_000_000

  datatype RequestResult = Done | Refused | Threw

  class TransferSession {
    const hash: Hash
    var metadata: Metadata
    var state: TransferState
    var requestedChunks: set<nat>
    var receivedChunks: set<nat>
    var nextChunkToRequest: u32
    var bytesTransferred: u64
    var chunkTimeout: int
    var chunkRequestTimes: seq<int>

    function State(): Session
      reads this
    {
      Session(metadata, state, requestedChunks, receivedChunks, nextChunkToRequest, bytesTransferred)
    }

    /** The bit sets have no other bits. */
    predicate Valid()
      reads this
    {
      && nextChunkToRequest <= Reach(metadata) && |chunkRequestTimes| == metadata.chunkCount
      && (forall i | i in requestedChunks :: i < CAPACITY) && (forall i | i in receivedChunks :: i < CAPACITY)
    }

    /** The hash function stands for BLAKE3 printed in hexadecimal. */
    constructor (hash: Hash, metadata: Metadata)
      ensures Valid() && this.hash == hash && State() == Started(metadata) && chunkTimeout == 30_000
    {
      this.hash := hash;
      this.metadata := metadata;
      state, requestedChunks, receivedChunks := Requesting, {}, {};
      nextChunkToRequest, bytesTransferred, chunkTimeout := 0, 0, 30_000;
      chunkRequestTimes := seq(metadata.chunkCount, _ => 0);
    }

    /** Starting again forgets everything but the old request times, which are cut or padded to the new length. */
    method StartTransfer(newMetadata: Metadata)
      modifies this
      ensures Valid() && State() == Started(newMetadata) && chunkTimeout == old(chunkTimeout)
      ensures chunkRequestTimes == seq(newMetadata.chunkCount, i requires 0 <= i =>
                if i < |old(chunkRequestTimes)| then old(chunkRequestTimes)[i] else 0)
    {
      metadata, state := newMetadata, Requesting;
      requestedChunks, receivedChunks, nextChunkToRequest, bytesTransferred := {}, {}, 0, 0;
      var times := chunkRequestTimes;
      chunkRequestTimes := seq(metadata.chunkCount, i requires 0 <= i => if i < |times| then times[i] else 0);
    }

    method SetState(newState: TransferState)
      requires Valid()
      modifies `state
      ensures Valid() && State() == old(State()).(state := newState)
    {
      state := newState;
    }

    method SetChunkTimeout(timeout: int)
      modifies `chunkTimeout
      ensures chunkTimeout == timeout
    {
      chunkTimeout := timeout;
    }

    method IsComplete() returns (complete: bool)
      ensures complete == SessionBytes.Complete(State())
    {
      return state == Completed || |receivedChunks| == metadata.chunkCount;
    }

    /** `None` where the bit set throws. */
    function TestBit(bits: set<nat>, i: u32): Option<bool>
      reads this
    {
      if i >= metadata.chunkCount then Some(false) else if i >= CAPACITY then None else Some(i in bits)
    }

    method MarkChunkRequested(i: u32, now: int) returns (threw: bool)
      requires Valid()
      modifies `requestedChunks, `chunkRequestTimes
      ensures Valid() && State() == MarkRequested(old(State()), i)
      ensures threw <==> CAPACITY <= i < metadata.chunkCount
      ensures chunkRequestTimes == if i < Reach(metadata) then old(chunkRequestTimes)[i := now]
                                   else old(chunkRequestTimes)
    {
      if i < metadata.chunkCount {
        if i >= CAPACITY { return true; }
        requestedChunks := requestedChunks + {i};
        chunkRequestTimes := chunkRequestTimes[i := now];
      }
      return false;
    }

    method RequestNextChunks(windowSize: u32, now: int) returns (result: RequestResult)
      requires Valid()
      modifies `requestedChunks, `chunkRequestTimes, `nextChunkToRequest, `state
      ensures Valid() && State() == RequestNext(old(State()), windowSize)
      ensures result == if !Active(old(State())) then Refused
                        else if RequestThrows(old(State()), windowSize) then Threw else Done
      ensures forall i: nat | i < metadata.chunkCount ::
                chunkRequestTimes[i] ==
                if i in requestedChunks && i !in old(requestedChunks) then now else old(chunkRequestTimes[i])
    {
      if state != Requesting && state != Transferring { return Refused; }
      var chunksRequested := 0;
      ghost var count := Reach(metadata);
      while chunksRequested < windowSize && nextChunkToRequest < metadata.chunkCount
        invariant Valid() && chunksRequested <= windowSize && state == old(state)
        invariant old(requestedChunks) <= requestedChunks
        invariant chunksRequested > 0 <==> requestedChunks != old(requestedChunks)
        invariant Scan(requestedChunks, receivedChunks, nextChunkToRequest, count, windowSize - chunksRequested)
                  == ScanFrom(old(State()), windowSize)
        invariant forall i: nat | i < metadata.chunkCount ::
                    chunkRequestTimes[i] ==
                    if i in requestedChunks && i !in old(requestedChunks) then now else old(chunkRequestTimes[i])
        decreases metadata.chunkCount - nextChunkToRequest
      {
        var requested := TestBit(requestedChunks, nextChunkToRequest);
        if requested.None? { return Threw; }
        var received := TestBit(receivedChunks, nextChunkToRequest);
        if !requested.value && !received.value {
          var threw := MarkChunkRequested(nextChunkToRequest, now);
          chunksRequested := chunksRequested + 1;
        }
        nextChunkToRequest := nextChunkToRequest + 1;
      }
      if state == Requesting && chunksRequested > 0 { state := Transferring; }
      return Done;
    }

    method HandleChunkReceived(i: u32, data: seq<u8>) returns (verdict: Verdict)
      requires Valid() && metadata.chunkSize > 0
      modifies `receivedChunks, `bytesTransferred, `state
      ensures Valid() && verdict == Judge(old(State()), hash, i, data)
      ensures State() == Step(old(State()), hash, Deliver(i, data))
    {
      if i >= metadata.chunkCount { return OutOfRange; }
      var requested := TestBit(requestedChunks, i);
      if requested.None? { return Thrown; }
      if !requested.value { return NotRequested; }
      var expectedSize := metadata.chunkSize;
      if i == metadata.chunkCount - 1 {
        var remainder := metadata.fileSize % metadata.chunkSize;
        if remainder != 0 { expectedSize := remainder; }
      }
      if |data| != expectedSize { return SizeMismatch; }
      if !HashFits(metadata, hash, i, data) { return HashMismatch; }
      receivedChunks := receivedChunks + {i};
      bytesTransferred := CountBytes(bytesTransferred, |data|);
      if |receivedChunks| == metadata.chunkCount { state := Completed; }
      return Accepted;
    }

    /** Exactly the chunks that are overdue, each once, in ascending order; or an exception, exactly if the file has more
        chunks than bits. */
    method GetTimedOutChunks(now: int) returns (result: Option<seq<u32>>)
      requires Valid()
      ensures result.None? <==> metadata.chunkCount > CAPACITY
      ensures result.Some? ==> forall i: u32 :: i in result.value <==>
                && i < metadata.chunkCount && i in requestedChunks && i !in receivedChunks
                && now - chunkRequestTimes[i] > chunkTimeout * 1_000_000
      ensures result.Some? ==> forall j, k | 0 <= j < k < |result.value| :: result.value[j] < result.value[k]
    {
      var timedOut: seq<u32> := [];
      for i := 0 to metadata.chunkCount
        invariant i <= CAPACITY
        invariant forall c: u32 :: c in timedOut <==>
                    && c < i && c in requestedChunks && c !in receivedChunks
                    && now - chunkRequestTimes[c] > chunkTimeout * MILLISECOND
        invariant forall j, k | 0 <= j < k < |timedOut| :: timedOut[j] < timedOut[k]
      {
        var requested := TestBit(requestedChunks, i);
        if requested.None? { return None; }
        var received := TestBit(receivedChunks, i);
        if requested.value && !received.value {
          var elapsed := now - chunkRequestTimes[i];
          if elapsed > chunkTimeout * MILLISECOND {
            assert forall j | 0 <= j < |timedOut| :: timedOut[j] in timedOut;
            timedOut := timedOut + [i];
          }
        }
      }
      return Some(timedOut);
    }

    method RetryChunk(i: u32, now: int) returns (accepted: bool)
      requires Valid()
      modifies `chunkRequestTimes
      ensures Valid() && accepted == (i < metadata.chunkCount)
      ensures accepted ==> chunkRequestTimes == old(chunkRequestTimes)[i := now]
      ensures !accepted ==> chunkRequestTimes == old(chunkRequestTimes)
    {
      if i >= metadata.chunkCount { return false; }
      chunkRequestTimes := chunkRequestTimes[i := now];
      return true;
    }
  }
}
