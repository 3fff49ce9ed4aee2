/** The token bucket of the bandwidth limiter, with its truncated elapsed times and 64-bit wrap-around,
    and the bound it keeps on the bytes granted over any run. */
module TokenBucket {
  import opened Arithmetic
  import opened Bounded

  /** One millisecond of the nanosecond clock. */
  const MILLISECOND: int := 1_000_000

  datatype Bucket = Bucket(rate: u64, capacity: u64, tokens: u64, refilled: int)

  /** Whole milliseconds, truncated toward zero. */
  function Milliseconds(nanoseconds: int): int {
    if nanoseconds >= 0 then nanoseconds / MILLISECOND else -(-nanoseconds / MILLISECOND)
  }

  function Earned(rate: u64, elapsed: int): u64 {
    (rate * elapsed) % TWO_TO_THE_64 / 1000
  }

  function Refill(b: Bucket, now: int): Bucket {
    var elapsed := Milliseconds(now - b.refilled);
    if elapsed > 0 then
      b.(tokens := Min((b.tokens + Earned(b.rate, elapsed)) % TWO_TO_THE_64, b.capacity), refilled := now)
    else b
  }

  datatype Event =
    | Tick(now: int)            // every operation that first brings the tokens up to date
    | Spend(bytes: u64)         // granted only if the tokens suffice
    | SetRate(rate: u64)
    | SetCapacity(capacity: u64)

  function Step(b: Bucket, e: Event): Bucket {
    match e
    case Tick(now) => Refill(b, now)
    case Spend(bytes) => if b.tokens >= bytes then b.(tokens := b.tokens - bytes) else b
    case SetRate(rate) => b.(rate := rate)
    case SetCapacity(capacity) => b.(capacity := capacity, tokens := Min(b.tokens, capacity))
  }

  function Run(b: Bucket, events: seq<Event>): Bucket {
    if events == [] then b else Step(Run(b, events[..|events| - 1]), events[|events| - 1])
  }

  /** The bytes granted in a run. */
  function Granted(b: Bucket, events: seq<Event>): nat {
    if events == [] then 0 else
    var earlier, e := events[..|events| - 1], events[|events| - 1];
    Granted(b, earlier) + if e.Spend? && Run(b, earlier).tokens >= e.bytes then e.bytes else 0
  }

  lemma {:induction false} TokensWithinCapacity(b: Bucket, events: seq<Event>)
    requires b.tokens <= b.capacity
    ensures Run(b, events).tokens <= Run(b, events).capacity
    decreases |events|
  {
    if events != [] { TokensWithinCapacity(b, events[..|events| - 1]); }
  }

  // ----- the bound at a fixed rate and capacity -----

  /** Times of ticks lie between the start and `now`, and nothing is reconfigured. */
  predicate Steady(events: seq<Event>, now: int) {
    forall e | e in events :: (e.Tick? && e.now <= now) || e.Spend?
  }

  function Allowance(rate: u64, elapsed: nat): nat { rate * elapsed / 1000 }

  lemma EarnedWithinAllowance(rate: u64, elapsed: nat)
    ensures Earned(rate, elapsed) <= Allowance(rate, elapsed)
  {
    ModuloShrinks(rate * elapsed);
  }

  lemma RefillAddsAtMost(b: Bucket, now: int)
    requires Milliseconds(now - b.refilled) > 0
    ensures Refill(b, now).tokens <= b.tokens + Allowance(b.rate, Milliseconds(now - b.refilled))
  {
    var elapsed := Milliseconds(now - b.refilled);
    EarnedWithinAllowance(b.rate, elapsed);
    ModuloShrinks(b.tokens + Earned(b.rate, elapsed));
  }

  lemma ModuloShrinks(x: nat)
    ensures x % TWO_TO_THE_64 <= x
  {
  }

  lemma AllowanceSuperadditive(rate: u64, a: nat, b: nat, total: nat)
    requires a + b <= total
    ensures Allowance(rate, a) + Allowance(rate, b) <= Allowance(rate, total)
  {
    assert rate * a + rate * b == rate * (a + b);
    MultiplyMonotone(rate, a + b, total);
    DivideSum(rate * a, rate * b, rate * total);
  }

  lemma DivideSum(x: nat, y: nat, z: nat)
    requires x + y <= z
    ensures x / 1000 + y / 1000 <= z / 1000
  {
  }

  lemma MillisecondsSuperadditive(start: int, middle: int, end: int)
    requires start <= middle <= end
    ensures 0 <= Milliseconds(middle - start) && 0 <= Milliseconds(end - middle)
    ensures Milliseconds(middle - start) + Milliseconds(end - middle) <= Milliseconds(end - start)
  {
  }

  lemma TickWithinAllowance(b: Bucket, start: int, now: int)
    requires start <= b.refilled <= now
    ensures var after := Refill(b, now);
            start <= after.refilled <= now && Milliseconds(after.refilled - start) >= 0
            && Milliseconds(b.refilled - start) >= 0
            && after.tokens + Allowance(b.rate, Milliseconds(b.refilled - start))
               <= b.tokens + Allowance(b.rate, Milliseconds(after.refilled - start))
  {
    MillisecondsSuperadditive(start, b.refilled, now);
    var before, elapsed, total :=
      Milliseconds(b.refilled - start), Milliseconds(now - b.refilled), Milliseconds(now - start);
    if elapsed > 0 {
      RefillAddsAtMost(b, now);
      AllowanceSuperadditive(b.rate, before, elapsed, total);
    }
  }

  /** What is left plus what was granted never exceeds the initial tokens plus the rate times the refilled time. */
  lemma {:induction false} Conservation(b: Bucket, events: seq<Event>, now: int)
    requires Steady(events, now)
    ensures var after := Run(b, events);
            after.rate == b.rate && after.capacity == b.capacity
            && b.refilled <= after.refilled && after.refilled <= Max(now, b.refilled)
            && Milliseconds(after.refilled - b.refilled) >= 0
            && after.tokens + Granted(b, events)
               <= b.tokens + Allowance(b.rate, Milliseconds(after.refilled - b.refilled))
    decreases |events|
  {
    if events != [] {
      var earlier, e := events[..|events| - 1], events[|events| - 1];
      assert e in events && forall x | x in earlier :: x in events;
      Conservation(b, earlier, now);
      var mid := Run(b, earlier);
      if e.Tick? {
        if e.now >= mid.refilled {
          TickWithinAllowance(mid, b.refilled, e.now);
        } else {
          assert Milliseconds(e.now - mid.refilled) <= 0;
        }
      }
    }
  }

  /** Between a refill and any instant `now`, at most the capacity plus the rate times the whole milliseconds
      in between is granted, however the clock readings fall and whatever wraps around. */
  lemma GrantedWithinBound(b: Bucket, events: seq<Event>, now: int)
    requires b.tokens <= b.capacity && b.refilled <= now && Steady(events, now)
    ensures Milliseconds(now - b.refilled) >= 0
    ensures Granted(b, events) <= b.capacity + Allowance(b.rate, Milliseconds(now - b.refilled))
  {
    Conservation(b, events, now);
    var after := Run(b, events);
    MillisecondsSuperadditive(b.refilled, after.refilled, now);
    AllowanceSuperadditive(b.rate, Milliseconds(after.refilled - b.refilled), 0, Milliseconds(now - b.refilled));
  }

  // ----- and what it earns at least -----

  lemma Fits(x: nat)
    requires x < TWO_TO_THE_64
    ensures x % TWO_TO_THE_64 == x
  {
  }

  /** Left alone for long enough, a bucket is full. */
  lemma LeftAloneIsFull(b: Bucket, elapsed: nat, now: int)
    requires b.tokens <= b.capacity && now == b.refilled + elapsed * MILLISECOND
    requires b.rate * elapsed >= 1000 * b.capacity && b.tokens + b.rate * elapsed < TWO_TO_THE_64
    ensures Step(b, Tick(now)).tokens == b.capacity
  {
    assert Milliseconds(now - b.refilled) == elapsed;
    Fits(b.rate * elapsed);
    Fits(b.tokens + b.rate * elapsed / 1000);
    assert b.rate * elapsed / 1000 >= b.capacity;
    if elapsed == 0 { assert b.capacity == 0; }
  }

  /** The whole milliseconds since the last refill that a tick finds. */
  function Gap(b: Bucket, e: Event): nat {
    if e.Tick? && e.now >= b.refilled then (e.now - b.refilled) / MILLISECOND else 0
  }

  /** All of them in a run. */
  function Counted(b: Bucket, events: seq<Event>): nat {
    if events == [] then 0
    else Counted(b, events[..|events| - 1]) + Gap(Run(b, events[..|events| - 1]), events[|events| - 1])
  }

  function Refills(b: Bucket, events: seq<Event>): nat {
    if events == [] then 0
    else Refills(b, events[..|events| - 1])
         + if Gap(Run(b, events[..|events| - 1]), events[|events| - 1]) > 0 then 1 else 0
  }

  /** The thousandth parts of a token that refills have cut off. */
  function CutOff(b: Bucket, events: seq<Event>): nat {
    if events == [] then 0
    else CutOff(b, events[..|events| - 1]) + b.rate * Gap(Run(b, events[..|events| - 1]), events[|events| - 1]) % 1000
  }

  /** No refill is more than the bucket can take, or than 64 bits can. */
  predicate NeverFull(b: Bucket, events: seq<Event>) {
    events == [] ||
    (var mid, gap := Run(b, events[..|events| - 1]), Gap(Run(b, events[..|events| - 1]), events[|events| - 1]);
     && NeverFull(b, events[..|events| - 1])
     && b.rate * gap < TWO_TO_THE_64 && mid.tokens + Allowance(b.rate, gap) <= b.capacity)
  }

  lemma TickEarns(b: Bucket, now: int)
    requires b.tokens <= b.capacity && b.rate * Gap(b, Tick(now)) < TWO_TO_THE_64
    requires b.tokens + Allowance(b.rate, Gap(b, Tick(now))) <= b.capacity
    ensures var after, gap := Step(b, Tick(now)), Gap(b, Tick(now));
            && after.tokens == b.tokens + Allowance(b.rate, gap) && after.rate == b.rate && after.capacity == b.capacity
            && 1000 * Allowance(b.rate, gap) + b.rate * gap % 1000 == b.rate * gap
  {
    var gap := Gap(b, Tick(now));
    if gap > 0 {
      Fits(b.rate * gap);
      Fits(b.tokens + Allowance(b.rate, gap));
    } else {
      assert Milliseconds(now - b.refilled) <= 0;
    }
  }

  lemma Distributes(rate: nat, a: nat, b: nat)
    ensures rate * (a + b) == rate * a + rate * b
  {
  }

  /** Over any run at a fixed rate that does not fill the bucket, tokens and grants account for the initial tokens and
      the rate over the counted milliseconds, to the thousandth part that was cut off. */
  lemma {:induction false} EarningsAreExact(b: Bucket, events: seq<Event>)
    requires b.tokens <= b.capacity && (forall e | e in events :: e.Tick? || e.Spend?) && NeverFull(b, events)
    ensures var after := Run(b, events);
            && after.rate == b.rate && after.capacity == b.capacity && after.tokens <= after.capacity
            && 1000 * (after.tokens + Granted(b, events)) + CutOff(b, events)
               == 1000 * b.tokens + b.rate * Counted(b, events)
    decreases |events|
  {
    if events != [] {
      var earlier, e := events[..|events| - 1], events[|events| - 1];
      assert e in events && forall x | x in earlier :: x in events;
      EarningsAreExact(b, earlier);
      var mid := Run(b, earlier);
      if e.Tick? { TickEarns(mid, e.now); }
      Distributes(b.rate, Counted(b, earlier), Gap(mid, e));
    }
  }

  /** A refill cuts off less than a token, */
  lemma {:induction false} LessThanATokenCutOff(b: Bucket, events: seq<Event>)
    ensures CutOff(b, events) <= 999 * Refills(b, events)
    decreases |events|
  {
    if events != [] {
      var mid, e := Run(b, events[..|events| - 1]), events[|events| - 1];
      LessThanATokenCutOff(b, events[..|events| - 1]);
      if Gap(mid, e) == 0 { assert b.rate * Gap(mid, e) == 0; }
    }
  }

  lemma TickCounts(b: Bucket, e: Event)
    requires e.Tick? || e.Spend?
    ensures Step(b, e).refilled == if Gap(b, e) > 0 then e.now else b.refilled
    ensures Gap(b, e) * MILLISECOND <= Step(b, e).refilled - b.refilled
    ensures Step(b, e).refilled - b.refilled <= Gap(b, e) * MILLISECOND + if Gap(b, e) > 0 then MILLISECOND - 1 else 0
  {
    if e.Tick? && Gap(b, e) == 0 { assert Milliseconds(e.now - b.refilled) <= 0; }
  }

  /** and less than a millisecond of the clock, since the next one counts from the reading itself. */
  lemma {:induction false} LessThanAMillisecondCutOff(b: Bucket, events: seq<Event>)
    requires forall e | e in events :: e.Tick? || e.Spend?
    ensures Counted(b, events) * MILLISECOND <= Run(b, events).refilled - b.refilled
            <= Counted(b, events) * MILLISECOND + Refills(b, events) * (MILLISECOND - 1)
    decreases |events|
  {
    if events != [] {
      var earlier, e := events[..|events| - 1], events[|events| - 1];
      assert e in events && forall x | x in earlier :: x in events;
      LessThanAMillisecondCutOff(b, earlier);
      TickCounts(Run(b, earlier), e);
    }
  }

  /** So tokens and grants are at least the initial tokens and the rate over the counted milliseconds, less 999 parts in a
      thousand of a token for every refill. */
  lemma EarnsAtLeast(b: Bucket, events: seq<Event>)
    requires b.tokens <= b.capacity && (forall e | e in events :: e.Tick? || e.Spend?) && NeverFull(b, events)
    ensures 1000 * (Run(b, events).tokens + Granted(b, events)) + 999 * Refills(b, events)
            >= 1000 * b.tokens + b.rate * Counted(b, events)
  {
    EarningsAreExact(b, events);
    LessThanATokenCutOff(b, events);
  }

  // ----- a slow bucket that is asked too often stays empty -----

  /** Clock readings that never go back and are at most `gap` milliseconds apart, the first counted from `clock`. */
  predicate Close(times: seq<int>, clock: int, gap: nat)
    decreases |times|
  {
    times == [] ||
    (clock <= times[0] <= clock + gap * MILLISECOND && Close(times[1..], times[0], gap))
  }

  function Ticks(times: seq<int>): seq<Event> {
    if times == [] then [] else [Tick(times[0])] + Ticks(times[1..])
  }

  lemma {:induction false} RunUncons(b: Bucket, e: Event, rest: seq<Event>)
    ensures Run(b, [e] + rest) == Run(Step(b, e), rest)
    decreases |rest|
  {
    var all := [e] + rest;
    if rest == [] {
      assert all[..0] == [] && all == [e];
      assert Run(b, all) == Step(Run(b, all[..0]), e);
    } else {
      assert all[..|all| - 1] == [e] + rest[..|rest| - 1];
      RunUncons(b, e, rest[..|rest| - 1]);
    }
  }

  lemma EarnsNothing(b: Bucket, clock: int, now: int, gap: nat)
    requires b.tokens <= b.capacity && b.rate * gap < 1000
    requires b.refilled <= clock < b.refilled + MILLISECOND && clock <= now <= clock + gap * MILLISECOND
    ensures var after := Refill(b, now);
            after.(refilled := b.refilled) == b && after.refilled <= now < after.refilled + MILLISECOND
  {
    var elapsed := Milliseconds(now - b.refilled);
    assert 0 <= elapsed <= gap;
    MultiplyMonotone(b.rate, elapsed, gap);
    assert Earned(b.rate, elapsed) == 0;
  }

  /** Each refill forgets the part of a token it truncates: where the rate earns less than one token in the gap
      between two questions, the bucket earns nothing, however long it is asked. */
  lemma {:induction false} FrequentAskingEarnsNothing(b: Bucket, clock: int, times: seq<int>, gap: nat)
    requires b.tokens <= b.capacity && b.rate * gap < 1000
    requires b.refilled <= clock < b.refilled + MILLISECOND && Close(times, clock, gap)
    ensures Run(b, Ticks(times)).tokens == b.tokens
    decreases |times|
  {
    if times != [] {
      EarnsNothing(b, clock, times[0], gap);
      FrequentAskingEarnsNothing(Refill(b, times[0]), times[0], times[1..], gap);
      RunUncons(b, Tick(times[0]), Ticks(times[1..]));
    }
  }
}
