/** The request rate limiter: a queue pruned to the last second, and the bound it keeps on the full log of sends. */
module RequestRate {
  import opened Bounded

  /** One second of the nanosecond clock. */
  const SECOND: int := 1_000_000_000

  datatype Limiter = Limiter(recent: seq<int>, maxRate: u32)

  /** How many sends at the front of the queue are more than a second old. */
  function Expired(recent: seq<int>, now: int): (n: nat)
    ensures n <= |recent| && forall i | 0 <= i < n :: recent[i] < now - SECOND
    ensures n < |recent| ==> recent[n] >= now - SECOND
  {
    if recent != [] && recent[0] < now - SECOND then 1 + Expired(recent[1..], now) else 0
  }

  function Prune(recent: seq<int>, now: int): seq<int> {
    recent[Expired(recent, now)..]
  }

  /** What is left of the queue begins with the first send that is at most a second old. */
  lemma PrunedExactly(recent: seq<int>, now: int)
    ensures var kept, dropped := Prune(recent, now), |recent| - |Prune(recent, now)|;
            && dropped >= 0 && kept == recent[dropped..]
            && (forall i | 0 <= i < dropped :: recent[i] < now - 1_000_000_000)
            && (kept != [] ==> kept[0] >= now - 1_000_000_000)
  {
  }

  function CountSince(times: seq<int>, t: int): nat {
    if times == [] then 0
    else CountSince(times[..|times| - 1], t) + (if times[|times| - 1] >= t then 1 else 0)
  }

  function CountWithin(times: seq<int>, from: int, to: int): nat {
    if times == [] then 0
    else CountWithin(times[..|times| - 1], from, to) + (if from <= times[|times| - 1] <= to then 1 else 0)
  }

  /** The answer of the limiter, whose counter has 32 bits. */
  predicate Allows(l: Limiter, now: int) {
    CountSince(l.recent, now - SECOND) % TWO_TO_THE_32 < l.maxRate
  }

  // ----- runs -----

  /** `Ask(pruneAt, countAt)` carries the two clock readings of one question. */
  datatype Event = Ask(pruneAt: int, countAt: int) | Sent(at: int) | SetRate(rate: u32)

  /** `log` is every send so far, which the program does not keep; `granted` says that the last question
      was answered yes and not yet used. */
  datatype Trace = Trace(limiter: Limiter, log: seq<int>, clock: int, granted: bool)

  function Step(s: Trace, e: Event): Trace {
    match e
    case Ask(pruneAt, countAt) =>
      var l := s.limiter.(recent := Prune(s.limiter.recent, pruneAt));
      s.(limiter := l, clock := countAt, granted := Allows(l, countAt))
    case Sent(at) =>
      s.(limiter := s.limiter.(recent := s.limiter.recent + [at]), log := s.log + [at], clock := at, granted := false)
    case SetRate(rate) => s.(limiter := s.limiter.(maxRate := rate))
  }

  /** Clock readings never go back, every send uses one granted question, and the rate is never set above the bound. */
  predicate Legal(s: Trace, e: Event, bound: u32) {
    match e
    case Ask(pruneAt, countAt) => s.clock <= pruneAt <= countAt
    case Sent(at) => s.granted && s.clock <= at
    case SetRate(rate) => rate <= bound
  }

  function Run(s: Trace, events: seq<Event>): Trace {
    if events == [] then s else Step(Run(s, events[..|events| - 1]), events[|events| - 1])
  }

  predicate LegalRun(s: Trace, events: seq<Event>, bound: u32) {
    events == [] ||
    (LegalRun(s, events[..|events| - 1], bound) &&
     Legal(Run(s, events[..|events| - 1]), events[|events| - 1], bound))
  }

  predicate Initial(s: Trace, bound: u32) {
    s.limiter.recent == [] && s.limiter.maxRate <= bound && s.log == [] && !s.granted
  }

  /** Every send had at most `bound` sends, itself included, in the second that ended with it. */
  predicate RateKept(log: seq<int>, bound: nat) {
    log == [] ||
    (RateKept(log[..|log| - 1], bound) && CountSince(log, log[|log| - 1] - SECOND) <= bound)
  }

  /** The queue is the log without sends that are more than a second old. */
  ghost predicate QueueTracksLog(recent: seq<int>, log: seq<int>, clock: int) {
    var dropped := |log| - |recent|;
    dropped >= 0 && recent == log[dropped..] && forall i | 0 <= i < dropped :: log[i] < clock - SECOND
  }

  ghost predicate Inv(s: Trace, bound: u32) {
    && QueueTracksLog(s.limiter.recent, s.log, s.clock)
    && (forall t | t in s.log :: t <= s.clock)
    && s.limiter.maxRate <= bound
    && RateKept(s.log, bound)
    && (s.granted ==> CountSince(s.log, s.clock - SECOND) < bound)
  }

  lemma {:induction false} CountIgnoresOld(times: seq<int>, k: nat, t: int)
    requires k <= |times| && forall i | 0 <= i < k :: times[i] < t
    ensures CountSince(times, t) == CountSince(times[k..], t)
    decreases |times|
  {
    if |times| > k {
      var n := |times| - 1;
      CountIgnoresOld(times[..n], k, t);
      assert times[..n][k..] == times[k..][..n - k];
    } else if times != [] {
      CountIgnoresOld(times[..k - 1], k - 1, t);
      assert times[..k - 1][k - 1..] == [] == times[k..];
    }
  }

  lemma {:induction false} CountAntitone(times: seq<int>, s: int, t: int)
    requires s <= t
    ensures CountSince(times, t) <= CountSince(times, s)
    decreases |times|
  {
    if times != [] { CountAntitone(times[..|times| - 1], s, t); }
  }

  lemma PrunedQueue(recent: seq<int>, log: seq<int>, clock: int, now: int, later: int)
    requires QueueTracksLog(recent, log, clock) && clock <= now <= later
    ensures QueueTracksLog(Prune(recent, now), log, later)
    ensures CountSince(Prune(recent, now), later - SECOND) == CountSince(log, later - SECOND)
  {
    var before := |log| - |recent|;
    var dropped := before + Expired(recent, now);
    assert Prune(recent, now) == log[dropped..];
    forall i | 0 <= i < dropped ensures log[i] < later - SECOND {
      if i >= before { assert log[i] == recent[i - before]; }
    }
    CountIgnoresOld(log, dropped, later - SECOND);
  }

  lemma LastSecondBounded(log: seq<int>, now: int, bound: nat)
    requires RateKept(log, bound) && forall t | t in log :: t <= now
    ensures CountSince(log, now - SECOND) <= bound
  {
    if log != [] {
      assert log[|log| - 1] in log;
      CountAntitone(log, log[|log| - 1] - SECOND, now - SECOND);
    }
  }

  lemma AskKeeps(s: Trace, e: Event, bound: u32)
    requires Inv(s, bound) && e.Ask? && Legal(s, e, bound)
    ensures Inv(Step(s, e), bound)
  {
    PrunedQueue(s.limiter.recent, s.log, s.clock, e.pruneAt, e.countAt);
    LastSecondBounded(s.log, e.countAt, bound);
    SmallCount(CountSince(s.log, e.countAt - SECOND));
  }

  lemma SmallCount(n: nat)
    requires n < TWO_TO_THE_32
    ensures n % TWO_TO_THE_32 == n
  {
  }

  lemma SentKeeps(s: Trace, e: Event, bound: u32)
    requires Inv(s, bound) && e.Sent? && Legal(s, e, bound)
    ensures Inv(Step(s, e), bound)
  {
    var dropped := |s.log| - |s.limiter.recent|;
    assert (s.log + [e.at])[dropped..] == s.limiter.recent + [e.at];
    CountAntitone(s.log, s.clock - SECOND, e.at - SECOND);
    assert (s.log + [e.at])[..|s.log|] == s.log;
  }

  lemma StepKeeps(s: Trace, e: Event, bound: u32)
    requires Inv(s, bound) && Legal(s, e, bound)
    ensures Inv(Step(s, e), bound)
  {
    match e
    case Ask(_, _) => AskKeeps(s, e, bound);
    case Sent(_) => SentKeeps(s, e, bound);
    case SetRate(_) =>
  }

  lemma {:induction false} RunKeeps(s: Trace, events: seq<Event>, bound: u32)
    requires Initial(s, bound) && LegalRun(s, events, bound)
    ensures Inv(Run(s, events), bound)
    decreases |events|
  {
    if events != [] {
      RunKeeps(s, events[..|events| - 1], bound);
      StepKeeps(Run(s, events[..|events| - 1]), events[|events| - 1], bound);
    }
  }

  lemma {:induction false} WithinIsSince(log: seq<int>, from: int)
    requires log != [] && log[|log| - 1] <= from + SECOND
    ensures CountWithin(log, from, from + SECOND) <= CountSince(log, log[|log| - 1] - SECOND)
  {
    CountAntitone(log, log[|log| - 1] - SECOND, from);
    WithinBelowSince(log, from, from + SECOND);
  }

  lemma {:induction false} WithinBelowSince(log: seq<int>, from: int, to: int)
    ensures CountWithin(log, from, to) <= CountSince(log, from)
    decreases |log|
  {
    if log != [] { WithinBelowSince(log[..|log| - 1], from, to); }
  }

  lemma {:induction false} AnySecondBounded(log: seq<int>, from: int, bound: nat)
    requires RateKept(log, bound)
    ensures CountWithin(log, from, from + SECOND) <= bound
    decreases |log|
  {
    if log != [] {
      if log[|log| - 1] > from + SECOND {
        AnySecondBounded(log[..|log| - 1], from, bound);
      } else {
        WithinIsSince(log, from);
      }
    }
  }

  /** Whatever the interleaving of questions and sends, no closed interval of one second of the
      full log holds more sends than the highest rate that was set. */
  lemma RateHolds(s: Trace, events: seq<Event>, bound: u32, from: int)
    requires Initial(s, bound) && LegalRun(s, events, bound)
    ensures CountWithin(Run(s, events).log, from, from + 1_000_000_000) <= bound
  {
    RunKeeps(s, events, bound);
    AnySecondBounded(Run(s, events).log, from, bound);
  }

  lemma AskAnswers(s: Trace, e: Event, bound: u32)
    requires Inv(s, bound) && e.Ask? && Legal(s, e, bound)
    ensures Step(s, e).granted <==> CountSince(s.log, e.countAt - SECOND) < s.limiter.maxRate
  {
    var kept := Prune(s.limiter.recent, e.pruneAt);
    PrunedQueue(s.limiter.recent, s.log, s.clock, e.pruneAt, e.countAt);
    LastSecondBounded(s.log, e.countAt, bound);
    SmallCount(CountSince(kept, e.countAt - SECOND));
  }

  /** Although old sends are thrown away, every question is answered as if the whole log had been counted. */
  lemma AnswersFromWholeLog(s: Trace, events: seq<Event>, e: Event, bound: u32)
    requires Initial(s, bound) && LegalRun(s, events, bound) && e.Ask? && Legal(Run(s, events), e, bound)
    ensures var before := Run(s, events);
            Step(before, e).granted <==> CountSince(before.log, e.countAt - 1_000_000_000) < before.limiter.maxRate
  {
    RunKeeps(s, events, bound);
    AskAnswers(Run(s, events), e, bound);
  }
}
