/** Unsigned integers as bytes, lowest byte first, highest byte first, or as two little-endian words. */
module Endian {
  import opened Arithmetic
  import opened Bounded

  function Power256(n: nat): (r: nat)
    ensures r > 0
  {
    if n == 0 then 1 else 0x100 * Power256(n - 1)
  }

  /** The integer held by the bytes, lowest byte first. */
  function LittleValue(bytes: Bytes): nat {
    if bytes == [] then 0 else bytes[0] + 0x100 * LittleValue(bytes[1..])
  }

  /** The low `count` bytes of the value, lowest first. */
  function LittleBytes(value: nat, count: nat): (r: Bytes)
    ensures |r| == count
  {
    if count == 0 then [] else [value % 0x100] + LittleBytes(value / 0x100, count - 1)
  }

  function BigValue(bytes: Bytes): nat {
    if bytes == [] then 0 else 0x100 * BigValue(bytes[..|bytes| - 1]) + bytes[|bytes| - 1]
  }

  function BigBytes(value: nat, count: nat): (r: Bytes)
    ensures |r| == count
  {
    if count == 0 then [] else BigBytes(value / 0x100, count - 1) + [value % 0x100]
  }

  lemma {:induction false} LittleRoundTrip(value: nat, count: nat)
    requires value < Power256(count)
    ensures LittleValue(LittleBytes(value, count)) == value
    decreases count
  {
    if count > 0 {
      LittleRoundTrip(value / 0x100, count - 1);
      assert LittleBytes(value, count)[1..] == LittleBytes(value / 0x100, count - 1);
    }
  }

  lemma {:induction false} LittleBound(bytes: Bytes)
    ensures LittleValue(bytes) < Power256(|bytes|)
    ensures LittleBytes(LittleValue(bytes), |bytes|) == bytes
    decreases |bytes|
  {
    if bytes != [] {
      LittleBound(bytes[1..]);
      var rest := LittleValue(bytes[1..]);
      assert (bytes[0] + 0x100 * rest) / 0x100 == rest;
    }
  }

  lemma {:induction false} BigRoundTrip(value: nat, count: nat)
    requires value < Power256(count)
    ensures BigValue(BigBytes(value, count)) == value
    decreases count
  {
    if count > 0 {
      BigRoundTrip(value / 0x100, count - 1);
      assert BigBytes(value, count)[..count - 1] == BigBytes(value / 0x100, count - 1);
    }
  }

  lemma {:induction false} BigBound(bytes: Bytes)
    ensures BigValue(bytes) < Power256(|bytes|)
    ensures BigBytes(BigValue(bytes), |bytes|) == bytes
    decreases |bytes|
  {
    if bytes != [] {
      var front := bytes[..|bytes| - 1];
      BigBound(front);
      assert (0x100 * BigValue(front) + bytes[|bytes| - 1]) / 0x100 == BigValue(front);
    }
  }

  lemma Powers()
    ensures Power256(1) == TWO_TO_THE_8 && Power256(2) == TWO_TO_THE_16
    ensures Power256(4) == TWO_TO_THE_32 && Power256(8) == TWO_TO_THE_64
  {
    assert Power256(2) == 0x100 * Power256(1);
    assert Power256(4) == 0x100 * (0x100 * Power256(2));
    assert Power256(8) == 0x100 * (0x100 * (0x100 * (0x100 * Power256(4))));
  }

  // ----- one integer in a given layout -----

  /** `HighWordFirst` is the router's layout of 64-bit values: two little-endian words, the high one first. */
  datatype Order = Big | Little | HighWordFirst

  function PutInt(order: Order, width: nat, value: nat): (r: Bytes)
    ensures |r| == width
  {
    match order
    case Big => BigBytes(value, width)
    case Little => LittleBytes(value, width)
    case HighWordFirst =>
      if width == 8 then LittleBytes(value / TWO_TO_THE_32, 4) + LittleBytes(value, 4) else LittleBytes(value, width)
  }

  function GetInt(order: Order, bytes: Bytes): nat {
    match order
    case Big => BigValue(bytes)
    case Little => LittleValue(bytes)
    case HighWordFirst =>
      if |bytes| == 8 then TWO_TO_THE_32 * LittleValue(bytes[..4]) + LittleValue(bytes[4..]) else LittleValue(bytes)
  }

  lemma {:induction false} LittleBytesModulo(value: nat, count: nat)
    ensures LittleBytes(value, count) == LittleBytes(value % Power256(count), count)
    decreases count
  {
    if count > 0 {
      var p := Power256(count - 1);
      LittleBytesModulo(value / 0x100, count - 1);
      SplitModulo(value, p);
      assert 0x100 * p == Power256(count);
    }
  }

  lemma SplitModulo(value: nat, p: nat)
    requires p > 0
    ensures 0x100 * p > 0 && (value % (0x100 * p)) % 0x100 == value % 0x100
    ensures (value % (0x100 * p)) / 0x100 == (value / 0x100) % p
  {
    var high, low := value / 0x100, value % 0x100;
    var q, r := high / p, high % p;
    assert high == q * p + r;
    assert value == q * (0x100 * p) + (0x100 * r + low) by {
      assert 0x100 * (q * p) == q * (0x100 * p);
    }
    assert 0x100 * r + low < 0x100 * p;
    DivisionUnique(value, 0x100 * p, q, 0x100 * r + low);
  }

  lemma IntRoundTrip(order: Order, width: nat, value: nat)
    requires value < Power256(width)
    ensures GetInt(order, PutInt(order, width, value)) == value
  {
    match order
    case Big => BigRoundTrip(value, width);
    case Little => LittleRoundTrip(value, width);
    case HighWordFirst =>
      if width == 8 { WordPair(value); } else { LittleRoundTrip(value, width); }
  }

  lemma WordPair(value: nat)
    requires value < Power256(8)
    ensures GetInt(HighWordFirst, PutInt(HighWordFirst, 8, value)) == value
  {
    Powers();
    var high, low := value / TWO_TO_THE_32, value % TWO_TO_THE_32;
    LittleRoundTrip(high, 4);
    LittleBytesModulo(value, 4);
    LittleRoundTrip(low, 4);
    var bytes := PutInt(HighWordFirst, 8, value);
    assert bytes[..4] == LittleBytes(high, 4) && bytes[4..] == LittleBytes(low, 4);
  }

  lemma WordPairBound(bytes: Bytes)
    requires |bytes| == 8
    ensures GetInt(HighWordFirst, bytes) < Power256(8)
    ensures PutInt(HighWordFirst, 8, GetInt(HighWordFirst, bytes)) == bytes
  {
    Powers();
    LittleBound(bytes[..4]);
    LittleBound(bytes[4..]);
    var high, low := LittleValue(bytes[..4]), LittleValue(bytes[4..]);
    var value := TWO_TO_THE_32 * high + low;
    DivisionUnique(value, TWO_TO_THE_32, high, low);
    LittleBytesModulo(value, 4);
    assert bytes == bytes[..4] + bytes[4..];
  }

  lemma IntBound(order: Order, bytes: Bytes)
    ensures GetInt(order, bytes) < Power256(|bytes|)
    ensures PutInt(order, |bytes|, GetInt(order, bytes)) == bytes
  {
    match order
    case Big => BigBound(bytes);
    case Little => LittleBound(bytes);
    case HighWordFirst => if |bytes| == 8 { WordPairBound(bytes); } else { LittleBound(bytes); }
  }

  // ----- digit by digit -----

  /** The bytes of the value, highest first, by their weights. */
  function High(value: nat, width: nat): Bytes {
    seq(width, i requires 0 <= i < width => value / Power256(width - 1 - i) % 0x100)
  }

  /** Lowest first. */
  function Low(value: nat, width: nat): Bytes {
    seq(width, i requires 0 <= i < width => value / Power256(i) % 0x100)
  }

  lemma DivideTwice(value: nat, p: nat)
    requires p > 0
    ensures 0x100 * p > 0 && value / 0x100 / p == value / (0x100 * p)
  {
    var q, r := value / 0x100 / p, value / 0x100 % p;
    assert value / 0x100 == q * p + r;
    assert value == q * (0x100 * p) + (0x100 * r + value % 0x100) by {
      assert 0x100 * (q * p) == q * (0x100 * p);
    }
    assert 0x100 * r + value % 0x100 < 0x100 * p;
    DivisionUnique(value, 0x100 * p, q, 0x100 * r + value % 0x100);
  }

  lemma {:induction false} LittleIsLow(value: nat, width: nat)
    ensures LittleBytes(value, width) == Low(value, width)
    decreases width
  {
    if width > 0 {
      LittleIsLow(value / 0x100, width - 1);
      forall i | 0 < i < width ensures LittleBytes(value, width)[i] == Low(value, width)[i] {
        DivideTwice(value, Power256(i - 1));
        assert LittleBytes(value, width)[i] == LittleBytes(value / 0x100, width - 1)[i - 1];
      }
    }
  }

  lemma {:induction false} BigIsHigh(value: nat, width: nat)
    ensures BigBytes(value, width) == High(value, width)
    decreases width
  {
    if width > 0 {
      BigIsHigh(value / 0x100, width - 1);
      forall i | 0 <= i < width - 1 ensures BigBytes(value, width)[i] == High(value, width)[i] {
        var p := Power256(width - 2 - i);
        DivideTwice(value, p);
        assert Power256(width - 1 - i) == 0x100 * p;
        assert BigBytes(value, width)[i] == High(value / 0x100, width - 1)[i] == value / 0x100 / p % 0x100;
      }
      assert Power256(0) == 1;
    }
  }

  /** What each byte order writes. */
  lemma IntsAreDigits(width: nat, value: nat)
    ensures PutInt(Big, width, value) == High(value, width)
    ensures PutInt(Little, width, value) == Low(value, width)
    ensures width == 8 ==> PutInt(HighWordFirst, width, value) == Low(value / 0x1_0000_0000, 4) + Low(value, 4)
  {
    BigIsHigh(value, width);
    LittleIsLow(value, width);
    LittleIsLow(value / TWO_TO_THE_32, 4);
    LittleIsLow(value, 4);
  }
}
