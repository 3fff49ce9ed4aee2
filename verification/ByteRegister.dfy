/** A register that xors in a byte and then turns, over any kind of word. When turning loses
    nothing and lets the bits above the low byte fall through unchanged, the register
    remembers the last four bytes exactly. */
module ByteRegister {

  /** `small(w)` says that the top byte of w is not in use. */
  datatype Register<!W, !B> = Register(turn: W -> W, xor: (W, W) -> W, lift: B -> W, up: W -> W, zero: W,
                                   small: W -> bool)

  function Feed<W, B>(r: Register<W, B>, w: W, data: seq<B>): W
    decreases |data|
  {
    if data == [] then w else Feed(r, r.turn(r.xor(w, r.lift(data[0]))), data[1..])
  }

  function Pack<W, B>(r: Register<W, B>, low: B, high: W): W {
    r.xor(r.lift(low), r.up(high))
  }

  /** The bytes as one word, first byte lowest. */
  function Word<W, B>(r: Register<W, B>, bytes: seq<B>): W
    decreases |bytes|
  {
    if bytes == [] then r.zero else Pack(r, bytes[0], Word(r, bytes[1..]))
  }

  function Turns<W, B>(r: Register<W, B>, w: W, n: nat): W
    decreases n
  {
    if n == 0 then w else Turns(r, r.turn(w), n - 1)
  }

  ghost predicate XorLaws<W(!new), B(!new)>(r: Register<W, B>) {
    && (forall x :: r.xor(x, r.zero) == x)
    && (forall x, b, v :: r.xor(r.xor(x, r.lift(b)), r.up(v)) == r.xor(x, Pack(r, b, v)))
    && (forall x, y, z :: r.xor(x, y) == r.xor(x, z) ==> y == z)
    && (forall x, y, z :: r.xor(x, z) == r.xor(y, z) ==> x == y)
  }

  ghost predicate PackingLaws<W(!new), B(!new)>(r: Register<W, B>) {
    && r.small(r.zero)
    && (forall a :: r.small(Pack(r, a, r.zero)))
    && (forall a, b :: r.small(Pack(r, a, Pack(r, b, r.zero))))
    && (forall a, b, c :: r.small(Pack(r, a, Pack(r, b, Pack(r, c, r.zero)))))
    && (forall a, b, v, w | r.small(v) && r.small(w) && Pack(r, a, v) == Pack(r, b, w) :: a == b && v == w)
  }

  ghost predicate TurnLaws<W(!new), B(!new)>(r: Register<W, B>) {
    && (forall x, y :: r.turn(x) == r.turn(y) ==> x == y)
    && (forall x, y | r.small(y) :: r.turn(r.xor(x, r.up(y))) == r.xor(r.turn(x), y))
  }

  ghost predicate Laws<W(!new), B(!new)>(r: Register<W, B>) {
    XorLaws(r) && PackingLaws(r) && TurnLaws(r)
  }

  lemma WordIsSmall<W(!new), B(!new)>(r: Register<W, B>, bytes: seq<B>)
    requires PackingLaws(r) && |bytes| <= 3
    ensures r.small(Word(r, bytes))
  {
    if bytes != [] {
      var rest := bytes[1..];
      assert Word(r, bytes) == Pack(r, bytes[0], Word(r, rest));
      if rest != [] {
        assert Word(r, rest) == Pack(r, rest[0], Word(r, rest[1..]));
        if rest[1..] != [] {
          assert Word(r, rest[1..]) == Pack(r, rest[1..][0], r.zero);
        }
      }
    }
  }

  lemma {:induction false} WordInjective<W(!new), B(!new)>(r: Register<W, B>, a: seq<B>, b: seq<B>)
    requires PackingLaws(r) && |a| == |b| <= 4 && Word(r, a) == Word(r, b)
    ensures a == b
    decreases |a|
  {
    if a != [] {
      WordIsSmall(r, a[1..]);
      WordIsSmall(r, b[1..]);
      WordInjective(r, a[1..], b[1..]);
      assert a == [a[0]] + a[1..] && b == [b[0]] + b[1..];
    }
  }

  /** Feeding up to four bytes is xoring in their word and turning the register. */
  lemma {:induction false} FeedIsTurns<W(!new), B(!new)>(r: Register<W, B>, w: W, bytes: seq<B>)
    requires Laws(r) && |bytes| <= 4
    ensures Feed(r, w, bytes) == Turns(r, r.xor(w, Word(r, bytes)), |bytes|)
    decreases |bytes|
  {
    if bytes != [] {
      var low, rest := r.lift(bytes[0]), Word(r, bytes[1..]);
      WordIsSmall(r, bytes[1..]);
      assert r.turn(r.xor(r.xor(w, low), r.up(rest))) == r.xor(r.turn(r.xor(w, low)), rest);
      FeedIsTurns(r, r.turn(r.xor(w, low)), bytes[1..]);
    }
  }

  lemma {:induction false} TurnsInjective<W(!new), B(!new)>(r: Register<W, B>, x: W, y: W, n: nat)
    requires TurnLaws(r) && Turns(r, x, n) == Turns(r, y, n)
    ensures x == y
    decreases n
  {
    if n > 0 { TurnsInjective(r, r.turn(x), r.turn(y), n - 1); }
  }

  lemma {:induction false} FeedInjective<W(!new), B(!new)>(r: Register<W, B>, x: W, y: W, data: seq<B>)
    requires Laws(r) && Feed(r, x, data) == Feed(r, y, data)
    ensures x == y
    decreases |data|
  {
    if data != [] {
      var b := r.lift(data[0]);
      FeedInjective(r, r.turn(r.xor(x, b)), r.turn(r.xor(y, b)), data[1..]);
    }
  }

  lemma {:induction false} FeedConcat<W, B>(r: Register<W, B>, w: W, a: seq<B>, b: seq<B>)
    ensures Feed(r, w, a + b) == Feed(r, Feed(r, w, a), b)
    decreases |a|
  {
    if a == [] {
      assert a + b == b;
    } else {
      assert (a + b)[1..] == a[1..] + b;
      FeedConcat(r, r.turn(r.xor(w, r.lift(a[0]))), a[1..], b);
    }
  }

  lemma ShortFeedInjective<W(!new), B(!new)>(r: Register<W, B>, w: W, a: seq<B>, b: seq<B>)
    requires Laws(r) && |a| == |b| <= 4 && Feed(r, w, a) == Feed(r, w, b)
    ensures a == b
  {
    FeedIsTurns(r, w, a);
    FeedIsTurns(r, w, b);
    TurnsInjective(r, r.xor(w, Word(r, a)), r.xor(w, Word(r, b)), |a|);
    WordInjective(r, a, b);
  }

  lemma DifferentBurst<W(!new), B(!new)>(r: Register<W, B>, w: W, head: seq<B>, a: seq<B>, b: seq<B>, tail: seq<B>)
    requires Laws(r) && |a| == |b| <= 4 && a != b
    ensures Feed(r, w, head + a + tail) != Feed(r, w, head + b + tail)
  {
    FeedConcat(r, w, head + a, tail);
    FeedConcat(r, w, head + b, tail);
    FeedConcat(r, w, head, a);
    FeedConcat(r, w, head, b);
    if Feed(r, w, head + a + tail) == Feed(r, w, head + b + tail) {
      FeedInjective(r, Feed(r, w, head + a), Feed(r, w, head + b), tail);
      ShortFeedInjective(r, Feed(r, w, head), a, b);
      assert false;
    }
  }

  /** Sequences that differ, and only inside one run of at most four bytes, leave different registers. */
  lemma BurstChangesRegister<W(!new), B(!new)>(r: Register<W, B>, w: W, x: seq<B>, y: seq<B>, start: nat, stop: nat)
    requires Laws(r)
    requires start <= stop <= |x| == |y| && stop - start <= 4
    requires x[..start] == y[..start] && x[stop..] == y[stop..] && x != y
    ensures Feed(r, w, x) != Feed(r, w, y)
  {
    assert x == x[..start] + x[start..stop] + x[stop..];
    assert y == y[..start] + y[start..stop] + y[stop..];
    DifferentBurst(r, w, x[..start], x[start..stop], y[start..stop], x[stop..]);
  }
}
