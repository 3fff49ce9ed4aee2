/** The bandwidth limiter object: token bucket and pending requests, updated in place. */
module BandwidthLimiter {
  import opened Bounded
  import opened PriorityDrain
  import T = TokenBucket

  /** What the caller gets to see of the served requests. */
  function Receipts(taken: seq<Request>): (r: seq<(Priority, u64)>)
    ensures |r| == |taken| && forall i | 0 <= i < |taken| :: r[i] == (taken[i].priority, taken[i].bytes)
  {
    if taken == [] then []
    else Receipts(taken[..|taken| - 1]) + [(taken[|taken| - 1].priority, taken[|taken| - 1].bytes)]
  }

  class BandwidthLimiter {
    var maxBandwidth: u64
    var bucketCapacity: u64
    var availableTokens: u64
    var lastRefill: int
    var pendingRequests: multiset<Request>

    function Bucket(): T.Bucket
      reads this
    {
      T.Bucket(maxBandwidth, bucketCapacity, availableTokens, lastRefill)
    }

    constructor (now: int)
      ensures Bucket() == T.Bucket(1024 * 1024, 64 * 1024, 64 * 1024, now) && pendingRequests == multiset{}
    {
      maxBandwidth, bucketCapacity, availableTokens := 1024 * 1024, 64 * 1024, 64 * 1024;
      lastRefill, pendingRequests := now, multiset{};
    }

    method SetMaxBandwidth(bytesPerSecond: u64)
      modifies `maxBandwidth
      ensures Bucket() == T.Step(old(Bucket()), T.SetRate(bytesPerSecond)) == old(Bucket()).(rate := bytesPerSecond)
    {
      maxBandwidth := bytesPerSecond;
    }

    method SetBucketCapacity(capacity: u64)
      modifies `bucketCapacity, `availableTokens
      ensures Bucket() == T.Step(old(Bucket()), T.SetCapacity(capacity))
              == old(Bucket()).(capacity := capacity, tokens := Min(old(availableTokens), capacity))
    {
      bucketCapacity := capacity;
      availableTokens := Min(availableTokens, bucketCapacity);
    }

    method UpdateTokens(now: int)
      modifies `availableTokens, `lastRefill
      ensures Bucket() == T.Step(old(Bucket()), T.Tick(now))
    {
      var elapsed := T.Milliseconds(now - lastRefill);
      if elapsed > 0 {
        var tokensToAdd := (maxBandwidth * elapsed) % TWO_TO_THE_64 / 1000;
        availableTokens := Min((availableTokens + tokensToAdd) % TWO_TO_THE_64, bucketCapacity);
        lastRefill := now;
      }
    }

    method CanSend(bytes: u64, now: int) returns (allowed: bool)
      modifies `availableTokens, `lastRefill
      ensures Bucket() == T.Step(old(Bucket()), T.Tick(now))
      ensures allowed == (availableTokens >= bytes)
    {
      UpdateTokens(now);
      return availableTokens >= bytes;
    }

    method ConsumeTokens(bytes: u64)
      modifies `availableTokens
      ensures Bucket() == T.Step(old(Bucket()), T.Spend(bytes))
    {
      if availableTokens >= bytes { availableTokens := availableTokens - bytes; }
    }

    method AddRequest(priority: Priority, bytes: u64, now: int)
      modifies `pendingRequests
      ensures pendingRequests == old(pendingRequests) + multiset{Request(priority, bytes, now)}
    {
      pendingRequests := pendingRequests + multiset{Request(priority, bytes, now)};
    }

    /** `taken` are the served requests; what the caller receives of each is its priority and size. */
    method ProcessPendingRequests(now: int) returns (processed: seq<(Priority, u64)>, ghost taken: seq<Request>)
      modifies `availableTokens, `lastRefill, `pendingRequests
      ensures var bucket := T.Step(old(Bucket()), T.Tick(now));
              && Drained(old(pendingRequests), bucket.tokens, taken, pendingRequests)
              && Bucket() == bucket.(tokens := bucket.tokens - Cost(taken))
      ensures processed == Receipts(taken)
    {
      UpdateTokens(now);
      ghost var bucket := Bucket();
      processed, taken := [], [];
      while pendingRequests != multiset{} && availableTokens > 0
        invariant Served(old(pendingRequests), bucket.tokens, taken, pendingRequests)
        invariant Bucket() == bucket.(tokens := bucket.tokens - Cost(taken))
        invariant processed == Receipts(taken)
        decreases |pendingRequests|
      {
        ghost var top := TopExists(pendingRequests);
        var request :| request in pendingRequests
                       && forall x {:trigger Less(request, x)} | x in pendingRequests :: !Less(request, x);
        if availableTokens < request.bytes { break; }
        ServeOne(old(pendingRequests), bucket.tokens, taken, pendingRequests, request);
        pendingRequests := pendingRequests - multiset{request};
        availableTokens := availableTokens - request.bytes;
        assert (taken + [request])[..|taken|] == taken;
        processed := processed + [(request.priority, request.bytes)];
        taken := taken + [request];
      }
    }
  }

  // ----- a drain spends tokens like a run of single sends, so the bucket's bound covers it -----

  function Spends(taken: seq<Request>): seq<T.Event> {
    if taken == [] then [] else Spends(taken[..|taken| - 1]) + [T.Spend(taken[|taken| - 1].bytes)]
  }

  lemma {:induction false} DrainIsARunOfSpends(b: T.Bucket, taken: seq<Request>)
    requires Cost(taken) <= b.tokens
    ensures T.Run(b, Spends(taken)) == b.(tokens := b.tokens - Cost(taken))
    ensures T.Granted(b, Spends(taken)) == Cost(taken)
    ensures forall e | e in Spends(taken) :: e.Spend?
    decreases |taken|
  {
    if taken != [] {
      var shorter := taken[..|taken| - 1];
      DrainIsARunOfSpends(b, shorter);
      assert Spends(taken)[..|Spends(taken)| - 1] == Spends(shorter);
    }
  }
}
