/** The bitwise CRC-32 that the router uses to derive query identifiers, and the
    error bursts it is certain to notice. The algorithm is the one of section 8 of RFC 1952. */
module Crc32 {
  import R = ByteRegister

  type Byte = bv8

  const POLYNOMIAL: bv32 := 0xEDB88320
  const ALL_ONES: bv32 := 0xFFFF_FFFF

  /** One turn of the inner loop. */
  function BitStep(crc: bv32): bv32 {
    if crc & 1 == 1 then (crc >> 1) ^ POLYNOMIAL else crc >> 1
  }

  function Iterate<W>(step: W -> W, x: W, n: nat): W
    decreases n
  {
    if n == 0 then x else Iterate(step, step(x), n - 1)
  }

  /** The inner loop: eight bits. */
  function Turn(crc: bv32): bv32 {
    Iterate(BitStep, crc, 8)
  }

  function Xor(x: bv32, y: bv32): bv32 { x ^ y }

  function Lift(b: Byte): bv32 { b as bv32 }

  function Up(w: bv32): bv32 { w << 8 }

  predicate Small(w: bv32) { w & 0xFF00_0000 == 0 }

  const REGISTER: R.Register<bv32, Byte> := R.Register(Turn, Xor, Lift, Up, 0, Small)

  function Checksum(data: seq<Byte>): bv32 {
    !R.Feed(REGISTER, ALL_ONES, data)
  }

  method CalculateCrc32(data: seq<Byte>) returns (r: bv32)
    ensures r == Checksum(data)
  {
    var crc := ALL_ONES;
    for k := 0 to |data|
      invariant R.Feed(REGISTER, crc, data[k..]) == R.Feed(REGISTER, ALL_ONES, data)
    {
      crc := ShiftIn(crc, data[k]);
    }
    return !crc;
  }

  /** The body of the byte loop, with its inner loop over eight bits. */
  method ShiftIn(register: bv32, b: Byte) returns (crc: bv32)
    ensures crc == Turn(Xor(register, Lift(b)))
  {
    crc := register ^ b as bv32;
    ghost var start := crc;
    for i := 0 to 8
      invariant Iterate(BitStep, crc, 8 - i) == Iterate(BitStep, start, 8)
    {
      ghost var before := crc;
      if crc & 1 == 1 {
        crc := (crc >> 1) ^ POLYNOMIAL;
      } else {
        crc := crc >> 1;
      }
      assert crc == BitStep(before);
    }
  }

  // ----- the bit step acts separately on the two parts of a register, and loses nothing -----

  function Half(w: bv32): bv32 { w >> 1 }

  predicate Even(w: bv32) { w & 1 == 0 }

  ghost predicate Splits<W(!new)>(step: W -> W, half: W -> W, xor: (W, W) -> W, even: W -> bool) {
    forall x, w :: even(w) ==> step(xor(x, w)) == xor(step(x), half(w))
  }

  lemma EvenPart(x: bv32, w: bv32)
    requires w & 1 == 0
    ensures BitStep(x ^ w) == BitStep(x) ^ (w >> 1)
  {
    if x & 1 == 1 { } else { }
  }

  lemma BitStepSplits()
    ensures Splits(BitStep, Half, Xor, Even)
  {
    forall x, w | Even(w) ensures BitStep(Xor(x, w)) == Xor(BitStep(x), Half(w)) {
      EvenPart(x, w);
    }
  }

  lemma {:induction false} IterateSplits<W(!new)>(step: W -> W, half: W -> W, xor: (W, W) -> W, even: W -> bool,
                                                  x: W, w: W, n: nat)
    requires Splits(step, half, xor, even)
    requires forall i: nat | i < n :: even(Iterate(half, w, i))
    ensures Iterate(step, xor(x, w), n) == xor(Iterate(step, x, n), Iterate(half, w, n))
    decreases n
  {
    if n > 0 {
      assert even(Iterate(half, w, 0));
      forall i: nat | i < n - 1 ensures even(Iterate(half, half(w), i)) {
        assert Iterate(half, w, i + 1) == Iterate(half, half(w), i);
      }
      IterateSplits(step, half, xor, even, step(x), half(w), n - 1);
    }
  }

  lemma BitStepInjective(x: bv32, y: bv32)
    requires BitStep(x) == BitStep(y)
    ensures x == y
  {
  }

  lemma {:induction false} BitStepsInjective(x: bv32, y: bv32, n: nat)
    requires Iterate(BitStep, x, n) == Iterate(BitStep, y, n)
    ensures x == y
    decreases n
  {
    if n > 0 {
      BitStepsInjective(BitStep(x), BitStep(y), n - 1);
      BitStepInjective(x, y);
    }
  }

  lemma {:induction false} EvenRun<W>(half: W -> W, even: W -> bool, path: seq<W>, i: nat)
    requires i < |path| && forall j | 0 <= j < |path| - 1 :: path[j + 1] == half(path[j]) && even(path[j])
    ensures Iterate(half, path[0], i) == path[i]
    ensures i < |path| - 1 ==> even(Iterate(half, path[0], i))
    decreases i
  {
    if i > 0 { EvenRun(half, even, path[1..], i - 1); }
  }

  lemma EightSplits<W(!new)>(step: W -> W, half: W -> W, xor: (W, W) -> W, even: W -> bool, x: W, path: seq<W>)
    requires Splits(step, half, xor, even) && |path| == 9
    requires forall j | 0 <= j < 8 :: path[j + 1] == half(path[j]) && even(path[j])
    ensures Iterate(step, xor(x, path[0]), 8) == xor(Iterate(step, x, 8), path[8])
  {
    forall i: nat | i < 8 ensures even(Iterate(half, path[0], i)) { EvenRun(half, even, path, i); }
    EvenRun(half, even, path, 8);
    IterateSplits(step, half, xor, even, x, path[0], 8);
  }

  lemma EightSplitsAlong<W(!new)>(step: W -> W, half: W -> W, xor: (W, W) -> W, even: W -> bool, x: W,
                                  a: W, b: W, c: W, d: W, e: W, f: W, g: W, h: W, last: W)
    requires Splits(step, half, xor, even)
    requires half(a) == b && half(b) == c && half(c) == d && half(d) == e
    requires half(e) == f && half(f) == g && half(g) == h && half(h) == last
    requires even(a) && even(b) && even(c) && even(d) && even(e) && even(f) && even(g) && even(h)
    ensures Iterate(step, xor(x, a), 8) == xor(Iterate(step, x, 8), last)
  {
    EightSplits(step, half, xor, even, x, [a, b, c, d, e, f, g, h, last]);
  }

  // Four separate lemmas: the solver handles each pair at once, and not all eight.
  lemma HalvesFrom8(y: bv32)
    requires y & 0xFF00_0000 == 0
    ensures Half(y << 8) == y << 7 && Half(y << 7) == y << 6
  {
  }

  lemma HalvesFrom6(y: bv32)
    requires y & 0xFF00_0000 == 0
    ensures Half(y << 6) == y << 5 && Half(y << 5) == y << 4
  {
  }

  lemma HalvesFrom4(y: bv32)
    requires y & 0xFF00_0000 == 0
    ensures Half(y << 4) == y << 3 && Half(y << 3) == y << 2
  {
  }

  lemma HalvesFrom2(y: bv32)
    requires y & 0xFF00_0000 == 0
    ensures Half(y << 2) == y << 1 && Half(y << 1) == y
  {
  }

  lemma DoublesAreEven(w: bv32)
    ensures Even(w << 8) && Even(w << 7) && Even(w << 6) && Even(w << 5)
    ensures Even(w << 4) && Even(w << 3) && Even(w << 2) && Even(w << 1)
  {
  }

  /** Bits waiting above the low byte arrive unchanged after eight steps. */
  lemma HighBitsFallThrough(x: bv32, y: bv32)
    requires y & 0xFF00_0000 == 0
    ensures Turn(Xor(x, Up(y))) == Xor(Turn(x), y)
  {
    HalvesFrom8(y);
    HalvesFrom6(y);
    HalvesFrom4(y);
    HalvesFrom2(y);
    DoublesAreEven(y);
    BitStepSplits();
    EightSplitsAlong(BitStep, Half, Xor, Even, x,
                     y << 8, y << 7, y << 6, y << 5, y << 4, y << 3, y << 2, y << 1, y);
  }

  // ----- the register obeys the laws -----

  lemma XorCancels(x: bv32, y: bv32, z: bv32)
    ensures Xor(x, y) == Xor(x, z) ==> y == z
    ensures Xor(x, z) == Xor(y, z) ==> x == y
  {
  }

  lemma XorAbsorbs(x: bv32, y: bv32, z: bv32)
    ensures (x ^ y) ^ z == x ^ (y ^ z)
  {
  }

  lemma XorLawsHold()
    ensures R.XorLaws(REGISTER)
  {
    forall x, y, z ensures Xor(x, y) == Xor(x, z) ==> y == z { XorCancels(x, y, z); }
    forall x, y, z ensures Xor(x, z) == Xor(y, z) ==> x == y { XorCancels(x, y, z); }
    forall x, b, v ensures Xor(Xor(x, Lift(b)), Up(v)) == Xor(x, R.Pack(REGISTER, b, v)) {
      XorAbsorbs(x, Lift(b), Up(v));
    }
  }

  lemma PackedDistinct(a: Byte, b: Byte, v: bv32, w: bv32)
    requires Small(v) && Small(w) && Xor(Lift(a), Up(v)) == Xor(Lift(b), Up(w))
    ensures a == b && v == w
  {
  }

  lemma PackedIsSmall(a: Byte, b: Byte, c: Byte)
    ensures Small(Xor(Lift(a), Up(0)))
    ensures Small(Xor(Lift(a), Up(Xor(Lift(b), Up(0)))))
    ensures Small(Xor(Lift(a), Up(Xor(Lift(b), Up(Xor(Lift(c), Up(0)))))))
  {
  }

  lemma PackingLawsHold()
    ensures R.PackingLaws(REGISTER)
  {
    forall a, b, c
      ensures REGISTER.small(R.Pack(REGISTER, a, 0))
      ensures REGISTER.small(R.Pack(REGISTER, a, R.Pack(REGISTER, b, 0)))
      ensures REGISTER.small(R.Pack(REGISTER, a, R.Pack(REGISTER, b, R.Pack(REGISTER, c, 0))))
    {
      PackedIsSmall(a, b, c);
    }
    PackingIsInjective();
  }

  lemma PackingIsInjective()
    ensures forall a, b, v, w | REGISTER.small(v) && REGISTER.small(w)
        && R.Pack(REGISTER, a, v) == R.Pack(REGISTER, b, w) :: a == b && v == w
  {
    forall a, b, v, w | REGISTER.small(v) && REGISTER.small(w) && R.Pack(REGISTER, a, v) == R.Pack(REGISTER, b, w)
      ensures a == b && v == w
    {
      PackedDistinct(a, b, v, w);
    }
  }

  lemma TurnLawsHold()
    ensures R.TurnLaws(REGISTER)
  {
    forall x, y | REGISTER.turn(x) == REGISTER.turn(y) ensures x == y { BitStepsInjective(x, y, 8); }
    forall x, y | REGISTER.small(y)
      ensures REGISTER.turn(REGISTER.xor(x, REGISTER.up(y))) == REGISTER.xor(REGISTER.turn(x), y)
    {
      HighBitsFallThrough(x, y);
    }
  }

  lemma ComplementInjective(x: bv32, y: bv32)
    requires !x == !y
    ensures x == y
  {
  }

  /** Two byte sequences that differ, and only inside one run of at most four bytes,
      never share a checksum. */
  lemma BurstDetected(x: seq<Byte>, y: seq<Byte>, start: nat, stop: nat)
    requires start <= stop <= |x| == |y| && stop - start <= 4
    requires x[..start] == y[..start] && x[stop..] == y[stop..] && x != y
    ensures Checksum(x) != Checksum(y)
  {
    XorLawsHold();
    PackingLawsHold();
    TurnLawsHold();
    R.BurstChangesRegister(REGISTER, ALL_ONES, x, y, start, stop);
    if Checksum(x) == Checksum(y) {
      ComplementInjective(R.Feed(REGISTER, ALL_ONES, x), R.Feed(REGISTER, ALL_ONES, y));
      assert false;
    }
  }

  lemma EightSteps(a: bv32, b: bv32, c: bv32, d: bv32, e: bv32, f: bv32, g: bv32, h: bv32, last: bv32)
    requires BitStep(a) == b && BitStep(b) == c && BitStep(c) == d && BitStep(d) == e
    requires BitStep(e) == f && BitStep(f) == g && BitStep(g) == h && BitStep(h) == last
    ensures Turn(a) == last
  {
    assert Iterate(BitStep, e, 4) == Iterate(BitStep, f, 3) == Iterate(BitStep, g, 2) == Iterate(BitStep, h, 1) == last;
    assert Iterate(BitStep, a, 8) == Iterate(BitStep, b, 7) == Iterate(BitStep, c, 6) == Iterate(BitStep, d, 5);
  }

  /** The published checksum of the single byte "a" fixes the polynomial, the initial value and the final complement. */
  lemma CheckValue()
    ensures Checksum([0x61]) == 0xE8B7BE43
  {
    EightSteps(0xFFFFFF9E, 0x7FFFFFCF, 0xD2477CC7, 0x849B3D43, 0xAFF51D81, 0xBA420DE0, 0x5D2106F0, 0x2E908378, 0x174841BC);
    var data: seq<Byte> := [0x61];
    assert data[1..] == [];
    assert R.Feed(REGISTER, ALL_ONES, data) == R.Feed(REGISTER, Turn(Xor(ALL_ONES, Lift(0x61))), []);
  }
}
