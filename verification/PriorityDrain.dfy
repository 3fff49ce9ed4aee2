/** Draining the priority queue of pending requests: what a drain is, independently of the heap, and
    what follows for its order, its cost and the requests left behind. */
module PriorityDrain {
  import opened Bounded

  datatype Priority = Low | Normal | High

  datatype Request = Request(priority: Priority, bytes: u64, timestamp: int)

  function Rank(p: Priority): nat {
    match p
    case Low => 0
    case Normal => 1
    case High => 2
  }

  /** The queue order: lower priority first, and among equals the later request first. */
  predicate Less(a: Request, b: Request) {
    if a.priority != b.priority then Rank(a.priority) < Rank(b.priority) else a.timestamp > b.timestamp
  }

  /** A request the queue may offer next. */
  ghost predicate IsTop(q: multiset<Request>, r: Request) {
    r in q && forall x {:trigger Less(r, x)} | x in q :: !Less(r, x)
  }

  function Cost(taken: seq<Request>): nat {
    if taken == [] then 0 else Cost(taken[..|taken| - 1]) + taken[|taken| - 1].bytes
  }

  /** The requests come out highest priority first, oldest first among equals. */
  predicate InServiceOrder(taken: seq<Request>) {
    forall i, j {:trigger Less(taken[i], taken[j])} | 0 <= i < j < |taken| :: !Less(taken[i], taken[j])
  }

  ghost predicate GoesFirst(taken: seq<Request>, rest: multiset<Request>) {
    forall i, x {:trigger Less(taken[i], x)} | 0 <= i < |taken| && x in rest :: !Less(taken[i], x)
  }

  /** `taken` was served from `q` with `tokens`, leaving `rest`. */
  ghost predicate Served(q: multiset<Request>, tokens: nat, taken: seq<Request>, rest: multiset<Request>) {
    && q == multiset(taken) + rest
    && InServiceOrder(taken)
    && GoesFirst(taken, rest)
    && Cost(taken) <= tokens
    && (taken != [] ==> Cost(taken[..|taken| - 1]) < tokens)
  }

  /** Why serving stops: nothing is left, nothing can be paid, or the next request does not fit. */
  ghost predicate Stuck(rest: multiset<Request>, left: nat) {
    rest == multiset{} || left == 0 || exists r :: IsTop(rest, r) && r.bytes > left
  }

  ghost predicate Drained(q: multiset<Request>, tokens: nat, taken: seq<Request>, rest: multiset<Request>) {
    Served(q, tokens, taken, rest) && Stuck(rest, tokens - Cost(taken))
  }

  lemma {:induction false} TopExists(q: multiset<Request>) returns (top: Request)
    requires q != multiset{}
    ensures IsTop(q, top)
    decreases |q|
  {
    var r :| r in q;
    var others := q - multiset{r};
    top := r;
    if others != multiset{} {
      var t := TopExists(others);
      if Less(r, t) { top := t; }
      assert forall x | x in others :: !Less(t, x);
    }
    forall x | x in q ensures !Less(top, x) {
      assert x == r || x in others;
    }
  }

  lemma ServeOneInOrder(taken: seq<Request>, rest: multiset<Request>, r: Request)
    requires InServiceOrder(taken) && GoesFirst(taken, rest) && IsTop(rest, r)
    ensures InServiceOrder(taken + [r]) && GoesFirst(taken + [r], rest - multiset{r})
  {
    var left := rest - multiset{r};
    assert forall x | x in left :: x in rest;
  }

  lemma ServeOne(q: multiset<Request>, tokens: nat, taken: seq<Request>, rest: multiset<Request>, r: Request)
    requires Served(q, tokens, taken, rest) && IsTop(rest, r)
    requires Cost(taken) < tokens && r.bytes <= tokens - Cost(taken)
    ensures Served(q, tokens, taken + [r], rest - multiset{r})
    ensures Cost(taken + [r]) == Cost(taken) + r.bytes
  {
    ServeOneInOrder(taken, rest, r);
    assert (taken + [r])[..|taken|] == taken;
    assert multiset(taken + [r]) + (rest - multiset{r}) == multiset(taken) + rest;
  }

  // ----- the outcome of a drain is determined by the queue and the tokens -----

  /** No two different pending requests are equal in priority and age. */
  ghost predicate NoTies(q: multiset<Request>) {
    forall x, y {:trigger Less(x, y)} | x in q && y in q && x != y :: Less(x, y) || Less(y, x)
  }

  lemma {:induction false} CostFirst(taken: seq<Request>)
    requires taken != []
    ensures Cost(taken) == taken[0].bytes + Cost(taken[1..])
    decreases |taken|
  {
    var n := |taken| - 1;
    if n == 0 {
      assert taken[..0] == [] == taken[1..];
      assert Cost(taken) == Cost(taken[..0]) + taken[0].bytes;
    } else {
      CostFirst(taken[..n]);
      assert taken[..n][1..] == taken[1..][..n - 1];
    }
  }

  lemma HeadIsTop(q: multiset<Request>, taken: seq<Request>, rest: multiset<Request>)
    requires q == multiset(taken) + rest && taken != [] && InServiceOrder(taken) && GoesFirst(taken, rest)
    ensures IsTop(q, taken[0])
    ensures q - multiset{taken[0]} == multiset(taken[1..]) + rest
    ensures InServiceOrder(taken[1..]) && GoesFirst(taken[1..], rest)
  {
    var r := taken[0];
    assert taken == [r] + taken[1..];
    forall x | x in q ensures !Less(r, x) {
      if x !in rest {
        assert x in taken;
        var i :| 0 <= i < |taken| && taken[i] == x;
        assert !Less(taken[0], taken[i]);
      } else {
        assert !Less(taken[0], x);
      }
    }
  }

  lemma DrainHead(q: multiset<Request>, tokens: nat, taken: seq<Request>, rest: multiset<Request>)
    requires Drained(q, tokens, taken, rest) && taken != []
    ensures IsTop(q, taken[0]) && taken[0].bytes <= tokens && tokens > 0
    ensures Drained(q - multiset{taken[0]}, tokens - taken[0].bytes, taken[1..], rest)
  {
    var tail := taken[1..];
    HeadIsTop(q, taken, rest);
    CostFirst(taken);
    if tail != [] {
      CostFirst(taken[..|taken| - 1]);
      assert taken[..|taken| - 1][1..] == tail[..|tail| - 1];
    }
  }

  lemma EmptyDrain(q: multiset<Request>, tokens: nat, r: Request)
    requires Drained(q, tokens, [], q) && IsTop(q, r) && NoTies(q)
    ensures tokens == 0 || r.bytes > tokens
  {
    if tokens > 0 {
      var t :| IsTop(q, t) && t.bytes > tokens;
      assert !Less(t, r) && !Less(r, t);
    }
  }

  lemma HeadsAgree(q: multiset<Request>, tokens: nat, a: seq<Request>, restA: multiset<Request>,
                   b: seq<Request>, restB: multiset<Request>)
    requires NoTies(q) && Drained(q, tokens, a, restA) && Drained(q, tokens, b, restB) && a != []
    ensures b != [] && a[0] == b[0]
  {
    DrainHead(q, tokens, a, restA);
    if b == [] {
      assert restB == q;
      EmptyDrain(q, tokens, a[0]);
      assert false;
    }
    DrainHead(q, tokens, b, restB);
    assert !Less(a[0], b[0]) && !Less(b[0], a[0]);
  }

  lemma NoTiesWithout(q: multiset<Request>, r: Request)
    requires NoTies(q)
    ensures NoTies(q - multiset{r})
  {
    assert forall x | x in q - multiset{r} :: x in q;
  }

  /** Without ties there is only one way to drain: the requests served, and their order, are a function of
      the pending requests and the tokens. */
  lemma {:induction false} DrainIsDetermined(q: multiset<Request>, tokens: nat, a: seq<Request>, restA: multiset<Request>,
                                             b: seq<Request>, restB: multiset<Request>)
    requires NoTies(q) && Drained(q, tokens, a, restA) && Drained(q, tokens, b, restB)
    ensures a == b && restA == restB
    decreases |a|
  {
    if a == [] {
      if b != [] {
        HeadsAgree(q, tokens, b, restB, a, restA);
      } else {
        assert restA == q == restB;
      }
    } else {
      var r := a[0];
      HeadsAgree(q, tokens, a, restA, b, restB);
      DrainHead(q, tokens, a, restA);
      DrainHead(q, tokens, b, restB);
      NoTiesWithout(q, r);
      DrainIsDetermined(q - multiset{r}, tokens - r.bytes, a[1..], restA, b[1..], restB);
      assert a == [r] + a[1..] && b == [r] + b[1..];
    }
  }

  /** A head that no full bucket can pay for blocks everything behind it. */
  lemma OversizedHeadBlocks(q: multiset<Request>, tokens: nat, capacity: nat, taken: seq<Request>, rest: multiset<Request>)
    requires Drained(q, tokens, taken, rest) && tokens <= capacity
    requires forall r | IsTop(q, r) :: r.bytes > capacity
    ensures taken == [] && rest == q
  {
    if taken != [] { DrainHead(q, tokens, taken, rest); }
  }

  // ----- the blockade lasts -----

  datatype QueueStep =
    | Add(request: Request)
    | Drain(tokens: nat, taken: seq<Request>, rest: multiset<Request>)

  ghost predicate IsQueueRun(q: multiset<Request>, steps: seq<QueueStep>, capacity: nat)
    decreases |steps|, 0
  {
    steps == [] ||
    (IsQueueRun(q, steps[..|steps| - 1], capacity) &&
     match steps[|steps| - 1]
     case Add(_) => true
     case Drain(tokens, taken, rest) =>
       tokens <= capacity && Drained(Pending(q, steps[..|steps| - 1], capacity), tokens, taken, rest))
  }

  ghost function Pending(q: multiset<Request>, steps: seq<QueueStep>, capacity: nat): multiset<Request>
    requires IsQueueRun(q, steps, capacity)
    decreases |steps|, 1
  {
    if steps == [] then q else
    match steps[|steps| - 1]
    case Add(r) => Pending(q, steps[..|steps| - 1], capacity) + multiset{r}
    case Drain(_, _, rest) => rest
  }

  lemma {:induction false} CostOfMember(taken: seq<Request>, r: Request)
    requires r in taken
    ensures r.bytes <= Cost(taken)
    decreases |taken|
  {
    var n := |taken| - 1;
    if taken[n] != r { CostOfMember(taken[..n], r); }
  }

  lemma OversizedStays(q: multiset<Request>, tokens: nat, taken: seq<Request>, rest: multiset<Request>, r: Request)
    requires Drained(q, tokens, taken, rest) && r in q && r.bytes > tokens
    ensures r in rest && forall t | t in taken :: !Less(t, r)
  {
    if r in taken { CostOfMember(taken, r); }
    assert r in multiset(taken) + rest;
    forall t | t in taken ensures !Less(t, r) {
      var i :| 0 <= i < |taken| && taken[i] == t;
      assert !Less(taken[i], r);
    }
  }

  /** A request larger than the bucket is never served, in no run of additions and drains, and neither is anything that
      comes after it in the order of service. */
  lemma {:induction false} OversizedBlocksForGood(q: multiset<Request>, steps: seq<QueueStep>, capacity: nat, r: Request)
    requires IsQueueRun(q, steps, capacity) && r in q && r.bytes > capacity
    ensures r in Pending(q, steps, capacity)
    ensures forall i, t | 0 <= i < |steps| && steps[i].Drain? && t in steps[i].taken :: !Less(t, r)
    decreases |steps|
  {
    if steps != [] {
      var earlier, last := steps[..|steps| - 1], steps[|steps| - 1];
      OversizedBlocksForGood(q, earlier, capacity, r);
      if last.Drain? {
        OversizedStays(Pending(q, earlier, capacity), last.tokens, last.taken, last.rest, r);
      }
      forall i, t | 0 <= i < |steps| && steps[i].Drain? && t in steps[i].taken ensures !Less(t, r) {
        if i < |earlier| { assert earlier[i] == steps[i]; }
      }
    }
  }

  // ----- what the order means -----

  predicate AtLeast(p: Priority, q: Priority) {
    p == High || p == q || q == Low
  }

  /** A request is served before all of lower priority, and among its own priority before all that came later. */
  lemma ServiceOrderMeans(q: multiset<Request>, tokens: nat, taken: seq<Request>, rest: multiset<Request>)
    requires Drained(q, tokens, taken, rest)
    ensures forall i, j | 0 <= i < j < |taken| ::
              && AtLeast(taken[i].priority, taken[j].priority)
              && (taken[i].priority == taken[j].priority ==> taken[i].timestamp <= taken[j].timestamp)
    ensures forall i, r | 0 <= i < |taken| && r in rest ::
              && AtLeast(taken[i].priority, r.priority)
              && (taken[i].priority == r.priority ==> taken[i].timestamp <= r.timestamp)
  {
    forall i, j | 0 <= i < j < |taken|
      ensures && AtLeast(taken[i].priority, taken[j].priority)
              && (taken[i].priority == taken[j].priority ==> taken[i].timestamp <= taken[j].timestamp)
    {
      assert !Less(taken[i], taken[j]);
    }
    forall i, r | 0 <= i < |taken| && r in rest
      ensures && AtLeast(taken[i].priority, r.priority)
              && (taken[i].priority == r.priority ==> taken[i].timestamp <= r.timestamp)
    {
      assert !Less(taken[i], r);
    }
  }
}
