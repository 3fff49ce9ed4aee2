/** Bytes as numbers and as bit vectors. */
module ByteConversion {

  lemma VectorComesBack(b: bv8)
    ensures (b as int) as bv8 == b
  {
  }

  lemma OneMore(b: bv8)
    requires b != 0xFF
    ensures (b + 1) as int == b as int + 1
  {
  }

  /** Every number below 256 is a bit vector. */
  lemma {:induction false} VectorOf(a: nat) returns (b: bv8)
    requires a < 256
    ensures b as int == a
  {
    if a == 0 {
      b := 0;
    } else {
      var before := VectorOf(a - 1);
      assert 0xFF as bv8 as int == 255;
      OneMore(before);
      b := before + 1;
    }
  }

  lemma ByteComesBack(a: nat)
    requires a < 256
    ensures (a as bv8) as int == a
  {
    var b := VectorOf(a);
    VectorComesBack(b);
  }

  lemma WordComesBack(a: bv32)
    ensures (a as int) as bv32 == a
  {
  }

  lemma WordsDiffer(a: bv32, b: bv32)
    requires a != b
    ensures a as int != b as int
  {
    WordComesBack(a);
    WordComesBack(b);
  }
}
