/** The flow controller object: congestion window, round-trip estimate and request limiter updated in place. */
module FlowController {
  import opened Bounded
  import C = CongestionWindow
  import T = RttEstimator
  import R = RequestRate

  class FlowController {
    var windowSize: u32
    var slowStartThreshold: u32
    var congestionWindow: u32
    var inSlowStart: bool
    var ackCount: u32

    var estimatedRtt: int
    var rttVariance: int
    var minRtt: int

    var maxRequestsPerSecond: u32
    var recentRequests: seq<int>

    function Window(): C.Window
      reads this
    {
      C.Window(windowSize, slowStartThreshold, congestionWindow, inSlowStart, ackCount)
    }

    function Rtt(): T.Rtt
      reads this
    {
      T.Rtt(estimatedRtt, rttVariance, minRtt)
    }

    function Limiter(): R.Limiter
      reads this
    {
      R.Limiter(recentRequests, maxRequestsPerSecond)
    }

    constructor ()
      ensures Window() == C.INITIAL && Rtt() == T.INITIAL && Limiter() == R.Limiter([], 1000)
    {
      windowSize, slowStartThreshold, congestionWindow, inSlowStart, ackCount := 1, 1024, 1, true, 0;
      estimatedRtt, rttVariance, minRtt := 100, 50, 10;
      maxRequestsPerSecond, recentRequests := 1000, [];
    }

    method OnAckReceived()
      modifies `windowSize, `congestionWindow, `inSlowStart, `ackCount
      ensures Window() == C.OnAck(old(Window()))
    {
      if inSlowStart {
        congestionWindow := C.Next(congestionWindow);
        if congestionWindow >= slowStartThreshold { inSlowStart := false; }
      } else {
        ackCount := C.Next(ackCount);
        if ackCount >= congestionWindow {
          congestionWindow := C.Next(congestionWindow);
          ackCount := 0;
        }
      }
      UpdateCongestionWindow();
    }

    method OnTimeout()
      modifies `windowSize, `slowStartThreshold, `congestionWindow, `inSlowStart
      ensures Window() == C.OnTimeout(old(Window()))
    {
      slowStartThreshold := Max(congestionWindow / 2, 2);
      congestionWindow := 1;
      inSlowStart := true;
      UpdateCongestionWindow();
    }

    method UpdateCongestionWindow()
      modifies `windowSize
      ensures Window() == C.Resized(old(Window()))
    {
      windowSize := Min(congestionWindow, slowStartThreshold);
      windowSize := Max(windowSize, 1);
    }

    method UpdateRtt(rtt: int)
      modifies `estimatedRtt, `rttVariance, `minRtt
      ensures Rtt() == T.Update(old(Rtt()), rtt)
    {
      minRtt := Min(minRtt, rtt);
      var newEstimatedRtt := T.Blend(estimatedRtt, rtt);
      var rttDiff := T.Abs(rtt - estimatedRtt);
      rttVariance := T.Blend(rttVariance, rttDiff);
      estimatedRtt := newEstimatedRtt;
    }

    method SetMaxRequestsPerSecond(maxRate: u32)
      modifies `maxRequestsPerSecond
      ensures Limiter() == R.Limiter(old(recentRequests), maxRate)
    {
      maxRequestsPerSecond := maxRate;
    }

    /** The two arguments are the clock readings of the pruning and of the counting. */
    method CanSendRequest(pruneAt: int, countAt: int) returns (allowed: bool)
      modifies `recentRequests
      ensures Limiter() == R.Limiter(R.Prune(old(recentRequests), pruneAt), old(maxRequestsPerSecond))
      ensures allowed == R.Allows(Limiter(), countAt)
    {
      UpdateRateLimit(pruneAt);
      var recentCount: u32 := 0;
      var queue := recentRequests;
      ghost var seen: seq<int> := [];
      while queue != []
        invariant recentRequests == seen + queue && recentCount == R.CountSince(seen, countAt - R.SECOND) % TWO_TO_THE_32
        invariant recentRequests == R.Prune(old(recentRequests), pruneAt)
        decreases |queue|
      {
        assert (seen + [queue[0]])[..|seen|] == seen;
        if queue[0] >= countAt - R.SECOND { recentCount := C.Next(recentCount); }
        seen := seen + [queue[0]];
        queue := queue[1..];
      }
      assert seen == recentRequests;
      return recentCount < maxRequestsPerSecond;
    }

    method UpdateRateLimit(now: int)
      modifies `recentRequests
      ensures recentRequests == R.Prune(old(recentRequests), now)
    {
      ghost var popped := 0;
      while recentRequests != [] && recentRequests[0] < now - R.SECOND
        invariant 0 <= popped <= |old(recentRequests)| && recentRequests == old(recentRequests)[popped..]
        invariant R.Expired(old(recentRequests), now) == popped + R.Expired(recentRequests, now)
        decreases |recentRequests|
      {
        recentRequests := recentRequests[1..];
        popped := popped + 1;
      }
    }

    method OnRequestSent(now: int)
      modifies `recentRequests
      ensures Limiter() == R.Limiter(old(recentRequests) + [now], old(maxRequestsPerSecond))
    {
      recentRequests := recentRequests + [now];
    }
  }
}
