/** The congestion window of one transfer: slow start, congestion avoidance and timeouts on 32-bit counters.
    Compare section 3.1 of RFC 5681. */
module CongestionWindow {
  import opened Bounded

  /** `acks` is the acknowledgement count of the avoidance phase, which outlives timeouts. */
  datatype Window = Window(size: u32, threshold: u32, congestion: u32, slowStart: bool, acks: u32)

  const INITIAL := Window(1, 1024, 1, true, 0)

  datatype Event = Ack | Timeout

  function Resized(w: Window): Window {
    w.(size := Max(Min(w.congestion, w.threshold), 1))
  }

  function Next(x: u32): u32 { (x + 1) % TWO_TO_THE_32 }

  function OnAck(w: Window): Window {
    Resized(
      if w.slowStart then
        var c := Next(w.congestion);
        w.(congestion := c, slowStart := c < w.threshold)
      else if Next(w.acks) >= w.congestion then
        w.(congestion := Next(w.congestion), acks := 0)
      else
        w.(acks := Next(w.acks)))
  }

  function OnTimeout(w: Window): Window {
    Resized(w.(threshold := Max(w.congestion / 2, 2), congestion := 1, slowStart := true))
  }

  function Step(w: Window, e: Event): Window {
    if e == Ack then OnAck(w) else OnTimeout(w)
  }

  function Run(w: Window, events: seq<Event>): Window {
    if events == [] then w else Step(Run(w, events[..|events| - 1]), events[|events| - 1])
  }

  predicate WellFormed(w: Window) {
    && w.congestion >= 1 && w.threshold >= 2
    && (w.slowStart <==> w.congestion < w.threshold)
    && w.size == Min(w.congestion, w.threshold)
  }

  /** The one acknowledgement that makes the 32-bit window wrap to zero. */
  predicate Overflows(w: Window) {
    !w.slowStart && w.congestion == TWO_TO_THE_32 - 1 && w.acks + 1 >= w.congestion
    && w.acks + 1 < TWO_TO_THE_32
  }

  lemma StepKeepsWellFormed(w: Window, e: Event)
    requires WellFormed(w)
    ensures WellFormed(Step(w, e)) <==> !(e == Ack && Overflows(w))
  {
  }

  predicate WellFormedThroughout(events: seq<Event>) {
    WellFormed(Run(INITIAL, events)) && (events == [] || WellFormedThroughout(events[..|events| - 1]))
  }

  predicate NeverOverflows(events: seq<Event>) {
    events == [] ||
    (NeverOverflows(events[..|events| - 1]) &&
     !(events[|events| - 1] == Ack && Overflows(Run(INITIAL, events[..|events| - 1]))))
  }

  /** Over every run: slow start is on exactly while the congestion window is below the threshold, the threshold is
      at least two, and the window handed out is the smaller of the two and never zero, up to and including the
      last event before an acknowledgement overflows, and no longer. */
  lemma {:induction false} WellFormedExactly(events: seq<Event>)
    ensures WellFormedThroughout(events) <==> NeverOverflows(events)
    decreases |events|
  {
    if events != [] {
      var earlier := events[..|events| - 1];
      WellFormedExactly(earlier);
      if WellFormedThroughout(earlier) { StepKeepsWellFormed(Run(INITIAL, earlier), events[|events| - 1]); }
    }
  }

  lemma StepGrowsByOne(w: Window, e: Event)
    requires WellFormed(w) && w.congestion < TWO_TO_THE_32 - 1
    ensures !Overflows(w) && Step(w, e).congestion <= w.congestion + 1
  {
  }

  /** It takes at least 2^32 - 1 events to get there. */
  lemma {:induction false} ShortRunsNeverOverflow(events: seq<Event>)
    requires |events| < TWO_TO_THE_32 - 1
    ensures NeverOverflows(events) && WellFormed(Run(INITIAL, events))
    ensures Run(INITIAL, events).congestion <= 1 + |events|
    decreases |events|
  {
    if events != [] {
      var earlier := events[..|events| - 1];
      ShortRunsNeverOverflow(earlier);
      StepGrowsByOne(Run(INITIAL, earlier), events[|events| - 1]);
      StepKeepsWellFormed(Run(INITIAL, earlier), events[|events| - 1]);
      assert Run(INITIAL, events) == Step(Run(INITIAL, earlier), events[|events| - 1]);
    }
  }

  // ----- how many acknowledgements it takes -----

  function Acks(w: Window, n: nat): Window {
    if n == 0 then w else OnAck(Acks(w, n - 1))
  }

  /** In slow start each acknowledgement opens the window by one, and the phase ends at the threshold. */
  lemma {:induction false} SlowStartIsUnitGrowth(w: Window, n: nat)
    requires WellFormed(w) && w.slowStart && w.congestion + n <= w.threshold
    ensures var after := Acks(w, n);
            after.congestion == w.congestion + n && after.slowStart == (w.congestion + n < w.threshold)
            && after.threshold == w.threshold && after.acks == w.acks
    decreases n
  {
    if n > 0 {
      SlowStartIsUnitGrowth(w, n - 1);
      var before := Acks(w, n - 1);
      assert before.slowStart && Next(before.congestion) == before.congestion + 1;
    }
  }

  /** k * (k - 1) / 2 */
  function Triangle(k: nat): nat {
    if k == 0 then 0 else Triangle(k - 1) + k - 1
  }

  lemma {:induction false} TriangleClosedForm(k: nat)
    ensures 2 * Triangle(k) == k * (k - 1)
  {
    if k > 0 { TriangleClosedForm(k - 1); }
  }

  lemma {:induction false} TriangleMonotone(j: nat, k: nat)
    requires j <= k
    ensures Triangle(j) <= Triangle(k)
    decreases k - j
  {
    if j < k { TriangleMonotone(j, k - 1); }
  }

  lemma TriangleReflects(j: nat, k: nat)
    requires k >= 2 && Triangle(j) >= Triangle(k)
    ensures j >= k
  {
    assert Triangle(k) == Triangle(k - 1) + k - 1;
    if j < k { TriangleMonotone(j, k - 1); }
  }

  function Progress(w: Window): nat { Triangle(w.congestion) + w.acks }

  predicate Settled(w: Window) { !w.slowStart && w.acks < w.congestion }

  /** Short of the last triangle there is room for one more acknowledgement. */
  lemma RoomForAck(w: Window)
    requires Settled(w) && Progress(w) + 1 < Triangle(TWO_TO_THE_32)
    ensures w.congestion + 1 < TWO_TO_THE_32 || w.acks + 1 < w.congestion
  {
    if w.congestion == TWO_TO_THE_32 - 1 {
      var c: nat := w.congestion;
      assert Triangle(c + 1) == Triangle(c) + c;
    }
  }

  lemma AvoidanceAck(w: Window)
    requires Settled(w) && Progress(w) + 1 < Triangle(TWO_TO_THE_32)
    ensures Settled(OnAck(w)) && Progress(OnAck(w)) == Progress(w) + 1 && OnAck(w).congestion <= w.congestion + 1
  {
    RoomForAck(w);
  }

  /** Each acknowledgement is progress by one, up to the one with which the window leaves 32 bits. */
  lemma {:induction false} AvoidanceCountsAcks(w: Window, n: nat)
    requires Settled(w) && Progress(w) + n < Triangle(TWO_TO_THE_32)
    ensures Settled(Acks(w, n)) && Progress(Acks(w, n)) == Progress(w) + n
    ensures Acks(w, n).congestion <= w.congestion + n
    decreases n
  {
    if n > 0 {
      AvoidanceCountsAcks(w, n - 1);
      AvoidanceAck(Acks(w, n - 1));
    }
  }

  /** Just below the k-th triangle the window is k - 1 and all but one of its acknowledgements have been counted. */
  lemma BeforeTriangle(w: Window, k: nat)
    requires Settled(w) && k >= 2 && Progress(w) + 1 == Triangle(k)
    ensures w.congestion == k - 1 && w.acks + 1 == w.congestion
  {
    var c: nat := w.congestion;
    assert Triangle(c + 1) == Triangle(c) + c;
    TriangleReflects(c + 1, k);
    if c >= k { TriangleMonotone(k, c); }
  }

  /** That one makes it zero. */
  lemma AvoidanceWrapsAt(w: Window, n: nat)
    requires Settled(w) && n > 0 && Progress(w) + n == Triangle(TWO_TO_THE_32)
    ensures Acks(w, n).congestion == 0
  {
    AvoidanceCountsAcks(w, n - 1);
    BeforeTriangle(Acks(w, n - 1), TWO_TO_THE_32);
  }

  /** The exact number of acknowledgements to any window: k is reached after n of them if and only if
      the accumulated progress covers the k-th triangle. */
  lemma AvoidanceReaches(w: Window, n: nat, k: nat)
    requires Settled(w) && Progress(w) + n < Triangle(TWO_TO_THE_32)
    ensures Acks(w, n).congestion >= k <==> Progress(w) + n >= Triangle(k)
  {
    AvoidanceCountsAcks(w, n);
    var c := Acks(w, n).congestion;
    assert Triangle(c + 1) == Triangle(c) + c;
    if c >= k { TriangleMonotone(k, c); } else { TriangleMonotone(c + 1, k); }
  }

  /** A count left over from before a timeout is settled by the next avoidance acknowledgement, at the price of one
      early increase. */
  lemma LeftoverCountSettles(w: Window)
    requires WellFormed(w) && !w.slowStart && w.acks >= w.congestion && w.acks + 1 < TWO_TO_THE_32 && !Overflows(w)
    ensures OnAck(w).congestion == w.congestion + 1 && OnAck(w).acks == 0 && Settled(OnAck(w))
  {
  }

  // ----- what a timeout costs -----

  lemma {:induction false} AcksCompose(w: Window, m: nat, n: nat, total: nat)
    requires total == m + n
    ensures Acks(w, total) == Acks(Acks(w, m), n)
    decreases n
  {
    if n > 0 { AcksCompose(w, m, n - 1, total - 1); }
  }

  /** A timeout halves the threshold, though not below two, and the window starts again at one: slow start lasts one
      acknowledgement less than the new threshold and ends with the window there. */
  lemma TimeoutHalves(w: Window, n: nat)
    requires WellFormed(w) && n < w.congestion / 2
    ensures var after := Acks(OnTimeout(w), n);
            after.size == after.congestion == n + 1
            && (w.congestion >= 4 ==> (after.slowStart <==> n < w.congestion / 2 - 1))
            && (w.congestion >= 4 ==> after.threshold == w.congestion / 2) && after.acks == w.acks
    ensures w.congestion >= 4 ==> WellFormed(Acks(OnTimeout(w), n))
  {
    SlowStartIsUnitGrowth(OnTimeout(w), n);
    SizeFollows(OnTimeout(w), n);
  }

  lemma SizeFollows(w: Window, n: nat)
    requires w.size == Max(Min(w.congestion, w.threshold), 1)
    ensures Acks(w, n).size == Max(Min(Acks(w, n).congestion, Acks(w, n).threshold), 1)
  {
  }

  /** From a window of less than four the threshold is two, and one acknowledgement ends slow start. */
  lemma SmallTimeout(w: Window)
    requires WellFormed(w) && w.congestion < 4
    ensures OnTimeout(w).size == 1 && OnTimeout(w).slowStart && OnTimeout(w).threshold == 2
    ensures OnAck(OnTimeout(w)).size == 2 && !OnAck(OnTimeout(w)).slowStart
  {
  }

  /** How many acknowledgements lead from the half of a window back to it, with `acks` counted already. */
  function WayBack(window: nat, acks: nat): int {
    var half := window / 2;
    if acks < half then Triangle(window) - Triangle(half) - acks else Triangle(window) - Triangle(half + 1) + 1
  }

  lemma TriangleGap(j: nat, k: nat)
    requires j < k
    ensures Triangle(j) + j <= Triangle(k)
  {
    assert Triangle(j + 1) == Triangle(j) + j;
    TriangleMonotone(j + 1, k);
  }

  /** From a settled window the k-th is reached with the last acknowledgement of the gap, and not before. */
  lemma ReachedAtLast(v: Window, k: u32, n: nat)
    requires Settled(v) && n <= Triangle(k) - Progress(v)
    ensures Acks(v, n).congestion >= k <==> n == Triangle(k) - Progress(v)
    ensures n == Triangle(k) - Progress(v) && v.congestion < k ==> Acks(v, n).congestion == k
  {
    var limit: nat := TWO_TO_THE_32;
    assert Triangle(k + 1) == Triangle(k) + k;
    TriangleMonotone(k + 1, limit);
    if k > 0 {
      AvoidanceReaches(v, n, k);
      if Progress(v) + n < Triangle(k + 1) && k + 1 < limit { AvoidanceReaches(v, n, k + 1); }
    }
  }

  lemma OneThenRest(w: Window, n: nat)
    requires n > 0
    ensures Acks(w, n) == Acks(OnAck(w), n - 1)
  {
    AcksCompose(w, 1, n - 1, n);
    assert Acks(w, 1) == OnAck(Acks(w, 0));
  }

  /** The same for a window that still carries more acknowledgements than it takes. */
  lemma ReachedAfterLeftover(v: Window, k: u32, n: nat)
    requires WellFormed(v) && !v.slowStart && v.acks >= v.congestion && v.acks + 1 < TWO_TO_THE_32
    requires v.congestion + 1 < k && n <= Triangle(k) - Triangle(v.congestion + 1) + 1
    ensures Acks(v, n).congestion >= k <==> n == Triangle(k) - Triangle(v.congestion + 1) + 1
  {
    TriangleGap(v.congestion + 1, k);
    if n > 0 {
      LeftoverCountSettles(v);
      OneThenRest(v, n);
      ReachedAtLast(OnAck(v), k, n - 1);
    }
  }

  lemma BackFromHalf(v: Window, c: u32, n: nat)
    requires WellFormed(v) && !v.slowStart && v.acks + 1 < TWO_TO_THE_32 && v.congestion == c / 2 && c >= 4
    requires n <= WayBack(c, v.acks)
    ensures Acks(v, n).congestion >= c <==> n == WayBack(c, v.acks)
  {
    if v.acks < c / 2 { ReachedAtLast(v, c, n); } else { ReachedAfterLeftover(v, c, n); }
  }

  lemma BackAfter(t: Window, m: nat, c: u32, acks: u32, n: nat)
    requires c >= 4 && acks + 1 < TWO_TO_THE_32 && n <= WayBack(c, acks)
    requires var v := Acks(t, m); WellFormed(v) && !v.slowStart && v.acks == acks && v.congestion == c / 2
    ensures Acks(t, m + n).congestion >= c <==> n == WayBack(c, acks)
  {
    AcksCompose(t, m, n, m + n);
    BackFromHalf(Acks(t, m), c, n);
  }

  /** After a timeout the window is back where it was after its half in slow start and exactly that many
      acknowledgements more, and not before. */
  lemma RecoversExactly(w: Window, n: nat)
    requires WellFormed(w) && w.congestion >= 4 && w.acks + 1 < TWO_TO_THE_32
    requires n <= WayBack(w.congestion, w.acks)
    ensures Acks(OnTimeout(w), w.congestion / 2 - 1 + n).congestion >= w.congestion <==> n == WayBack(w.congestion, w.acks)
  {
    var m: nat := w.congestion / 2 - 1;
    var t := OnTimeout(w);
    TimeoutHalves(w, m);
    assert Acks(t, m).congestion == w.congestion / 2;
    BackAfter(t, m, w.congestion, w.acks, n);
  }

  /** A new transfer opens its window by one with every acknowledgement, from one to 1024, where slow start ends. */
  lemma FirstSlowStart(n: nat)
    requires n <= 1023
    ensures Acks(INITIAL, n).size == Acks(INITIAL, n).congestion == n + 1 && Acks(INITIAL, n).acks == 0
    ensures Acks(INITIAL, n).slowStart <==> n < 1023
  {
    SlowStartIsUnitGrowth(INITIAL, n);
    SizeFollows(INITIAL, n);
  }
}
