/** One reader and writer for all message layouts of the program. A shape describes a layout; encoding pushes the
    fields in order, decoding takes them off the front and fails where the readers of the program throw. */
module Wire {
  import opened Bounded
  import opened Endian

  datatype Shape =
    | UInt(width: nat, order: Order)
    | Raw(length: nat)                                       // a fixed-size array
    | Text(order: Order)                                     // 32-bit size, then the bytes
    | Empty
    | Then(first: Shape, rest: Shape)
    | Counted(order: Order, between: Shape, item: Shape)     // 32-bit count, other fields, then that many items
    | Nested(order: Order, inner: Shape)                     // 32-bit size of an encoding, then the encoding

  const LITTLE32 := UInt(4, Little)
  const WORDS64 := UInt(8, HighWordFirst)

  datatype Datum =
    | Num(value: nat)
    | Blob(bytes: Bytes)
    | Unit
    | Pair(fst: Datum, snd: Datum)
    | List(header: Datum, items: seq<Datum>)

  datatype Parse = Fail | Parsed(datum: Datum, rest: Bytes)

  datatype ParseItems = FailItems | ParsedItems(items: seq<Datum>, rest: Bytes)

  /** The values a program variable of this layout can hold. */
  predicate Typed(s: Shape, d: Datum)
    decreases s, 0, 0
  {
    match s
    case UInt(width, _) => d.Num? && d.value < Power256(width)
    case Raw(length) => d.Blob? && |d.bytes| == length
    case Text(_) => d.Blob?
    case Empty => d.Unit?
    case Then(first, rest) => d.Pair? && Typed(first, d.fst) && Typed(rest, d.snd)
    case Counted(_, between, item) => d.List? && Typed(between, d.header) && TypedItems(item, d.items)
    case Nested(_, inner) => Typed(inner, d)
  }

  predicate TypedItems(s: Shape, items: seq<Datum>)
    decreases s, 1, |items|
  {
    items == [] || (Typed(s, items[0]) && TypedItems(s, items[1..]))
  }

  /** A size is written as 32 bits, whatever it is. */
  function PutSize(order: Order, size: nat): (r: Bytes)
    ensures |r| == 4
  {
    PutInt(order, 4, size % TWO_TO_THE_32)
  }

  function Encode(s: Shape, d: Datum): Bytes
    requires Typed(s, d)
    decreases s, 0, 0
  {
    match s
    case UInt(width, order) => PutInt(order, width, d.value)
    case Raw(_) => d.bytes
    case Text(order) => PutSize(order, |d.bytes|) + d.bytes
    case Empty => []
    case Then(first, rest) => Encode(first, d.fst) + Encode(rest, d.snd)
    case Counted(order, between, item) =>
      PutSize(order, |d.items|) + (Encode(between, d.header) + EncodeItems(item, d.items))
    case Nested(order, inner) => PutSize(order, |Encode(inner, d)|) + Encode(inner, d)
  }

  function EncodeItems(s: Shape, items: seq<Datum>): Bytes
    requires TypedItems(s, items)
    decreases s, 1, |items|
  {
    if items == [] then [] else Encode(s, items[0]) + EncodeItems(s, items[1..])
  }

  function Decode(s: Shape, b: Bytes): Parse
    decreases s, 0, 0
  {
    match s
    case UInt(width, order) => if |b| < width then Fail else Parsed(Num(GetInt(order, b[..width])), b[width..])
    case Raw(length) => if |b| < length then Fail else Parsed(Blob(b[..length]), b[length..])
    case Text(order) =>
      if |b| < 4 then Fail else
      var size := GetInt(order, b[..4]);
      if |b| - 4 < size then Fail else Parsed(Blob(b[4..4 + size]), b[4 + size..])
    case Empty => Parsed(Unit, b)
    case Then(first, rest) =>
      var p := Decode(first, b);
      if p.Fail? then Fail else
      var q := Decode(rest, p.rest);
      if q.Fail? then Fail else Parsed(Pair(p.datum, q.datum), q.rest)
    case Counted(order, between, item) =>
      if |b| < 4 then Fail else
      var p := Decode(between, b[4..]);
      if p.Fail? then Fail else
      var q := DecodeItems(item, GetInt(order, b[..4]), p.rest);
      if q.FailItems? then Fail else Parsed(List(p.datum, q.items), q.rest)
    case Nested(order, inner) =>
      if |b| < 4 then Fail else
      var size := GetInt(order, b[..4]);
      if |b| - 4 < size then Fail else
      var p := Decode(inner, b[4..4 + size]);
      if p.Fail? then Fail else Parsed(p.datum, b[4 + size..])
  }

  function DecodeItems(s: Shape, n: nat, b: Bytes): ParseItems
    decreases s, 1, n
  {
    if n == 0 then ParsedItems([], b) else
    var p := Decode(s, b);
    if p.Fail? then FailItems else
    var q := DecodeItems(s, n - 1, p.rest);
    if q.FailItems? then FailItems else ParsedItems([p.datum] + q.items, q.rest)
  }

  /** Every size that has to be written can be written. */
  predicate Fits(s: Shape, d: Datum)
    requires Typed(s, d)
    decreases s, 0, 0
  {
    match s
    case Text(_) => |d.bytes| < TWO_TO_THE_32
    case Then(first, rest) => Fits(first, d.fst) && Fits(rest, d.snd)
    case Counted(_, between, item) => |d.items| < TWO_TO_THE_32 && Fits(between, d.header) && FitsItems(item, d.items)
    case Nested(_, inner) => |Encode(inner, d)| < TWO_TO_THE_32 && Fits(inner, d)
    case _ => true
  }

  predicate FitsItems(s: Shape, items: seq<Datum>)
    requires TypedItems(s, items)
    decreases s, 1, |items|
  {
    items == [] || (Fits(s, items[0]) && FitsItems(s, items[1..]))
  }

  // ----- decoding undoes encoding -----

  lemma SizeValue(order: Order, size: nat)
    requires size < TWO_TO_THE_32
    ensures GetInt(order, PutSize(order, size)) == size
  {
    assert Power256(4) == TWO_TO_THE_32 by { Powers(); }
    IntRoundTrip(order, 4, size);
  }

  lemma FrontAndRest(front: Bytes, rest: Bytes)
    ensures (front + rest)[..|front|] == front
    ensures (front + rest)[|front|..] == rest
  {
  }

  lemma SizeRoundTrip(order: Order, size: nat, rest: Bytes)
    requires size < TWO_TO_THE_32
    ensures GetInt(order, (PutSize(order, size) + rest)[..4]) == size
    ensures (PutSize(order, size) + rest)[4..] == rest
  {
    SizeValue(order, size);
    FrontAndRest(PutSize(order, size), rest);
  }

  predicate Leaf(s: Shape) {
    s.UInt? || s.Raw? || s.Text? || s.Empty?
  }

  lemma RoundTripLeaf(s: Shape, d: Datum, suffix: Bytes)
    requires Leaf(s) && Typed(s, d) && Fits(s, d)
    ensures Decode(s, Encode(s, d) + suffix) == Parsed(d, suffix)
  {
    var b := Encode(s, d) + suffix;
    match s
    case UInt(width, order) =>
      assert b[..width] == Encode(s, d) && b[width..] == suffix;
      IntRoundTrip(order, width, d.value);
    case Raw(length) => assert b[..length] == d.bytes && b[length..] == suffix;
    case Text(order) =>
      assert b == PutSize(order, |d.bytes|) + (d.bytes + suffix);
      SizeRoundTrip(order, |d.bytes|, d.bytes + suffix);
      assert b[4..4 + |d.bytes|] == d.bytes && b[4 + |d.bytes|..] == suffix;
    case Empty => assert b == suffix;
  }

  lemma DropThenSlice(b: Bytes, n: nat)
    requires 4 + n <= |b|
    ensures b[4..4 + n] == b[4..][..n] && b[4 + n..] == b[4..][n..]
  {
  }

  lemma DecodeNested(order: Order, inner: Shape, b: Bytes, size: nat, d: Datum, rest: Bytes)
    requires 4 + size <= |b| && GetInt(order, b[..4]) == size && Decode(inner, b[4..4 + size]) == Parsed(d, rest)
    ensures Decode(Nested(order, inner), b) == Parsed(d, b[4 + size..])
  {
  }

  lemma RoundTripNested(order: Order, inner: Shape, d: Datum, e: Bytes, suffix: Bytes)
    requires |e| < TWO_TO_THE_32 && Decode(inner, e + []) == Parsed(d, [])
    ensures Decode(Nested(order, inner), (PutSize(order, |e|) + e) + suffix) == Parsed(d, suffix)
  {
    var b := PutSize(order, |e|) + (e + suffix);
    assert b == (PutSize(order, |e|) + e) + suffix;
    SizeRoundTrip(order, |e|, e + suffix);
    FrontAndRest(e, suffix);
    DropThenSlice(b, |e|);
    assert e + [] == e;
    DecodeNested(order, inner, b, |e|, d, []);
  }

  lemma {:induction false} RoundTrip(s: Shape, d: Datum, suffix: Bytes)
    requires Typed(s, d) && Fits(s, d)
    ensures Decode(s, Encode(s, d) + suffix) == Parsed(d, suffix)
    decreases s, 0, 0
  {
    match s
    case Then(first, rest) =>
      var e, f := Encode(first, d.fst), Encode(rest, d.snd);
      assert (e + f) + suffix == e + (f + suffix);
      RoundTrip(first, d.fst, f + suffix);
      RoundTrip(rest, d.snd, suffix);
    case Counted(order, between, item) =>
      var c, e, f := PutSize(order, |d.items|), Encode(between, d.header), EncodeItems(item, d.items);
      assert (c + (e + f)) + suffix == c + (e + (f + suffix));
      SizeRoundTrip(order, |d.items|, e + (f + suffix));
      RoundTrip(between, d.header, f + suffix);
      RoundTripItems(item, d.items, suffix);
    case Nested(order, inner) =>
      var e := Encode(inner, d);
      RoundTrip(inner, d, []);
      RoundTripNested(order, inner, d, e, suffix);
    case _ => RoundTripLeaf(s, d, suffix);
  }

  lemma DecodeItemsCons(s: Shape, n: nat, b: Bytes, x: Datum, middle: Bytes, items: seq<Datum>, rest: Bytes)
    requires Decode(s, b) == Parsed(x, middle) && DecodeItems(s, n, middle) == ParsedItems(items, rest)
    ensures DecodeItems(s, n + 1, b) == ParsedItems([x] + items, rest)
  {
  }

  lemma EncodeItemsCons(s: Shape, items: seq<Datum>, suffix: Bytes)
    requires items != [] && TypedItems(s, items)
    ensures EncodeItems(s, items) + suffix == Encode(s, items[0]) + (EncodeItems(s, items[1..]) + suffix)
  {
  }

  lemma {:induction false} RoundTripItems(s: Shape, items: seq<Datum>, suffix: Bytes)
    requires TypedItems(s, items) && FitsItems(s, items)
    ensures DecodeItems(s, |items|, EncodeItems(s, items) + suffix) == ParsedItems(items, suffix)
    decreases s, 1, |items|
  {
    if items == [] {
      assert EncodeItems(s, items) + suffix == suffix;
    } else {
      var x, more := items[0], items[1..];
      var b, tail := EncodeItems(s, items) + suffix, EncodeItems(s, more) + suffix;
      EncodeItemsCons(s, items, suffix);
      RoundTrip(s, x, tail);
      RoundTripItems(s, more, suffix);
      DecodeItemsCons(s, |more|, b, x, tail, more, suffix);
      assert items == [x] + more;
    }
  }

  lemma ThenDecodes(first: Shape, rest: Shape, d: Datum, tail: Bytes, e: Datum, suffix: Bytes)
    requires Typed(first, d) && Fits(first, d) && Decode(rest, tail) == Parsed(e, suffix)
    ensures Decode(Then(first, rest), Encode(first, d) + tail) == Parsed(Pair(d, e), suffix)
  {
    RoundTrip(first, d, tail);
  }

  /** A nested decoder does not ask whether it used all the bytes of its span. */
  lemma NestedSlack(order: Order, inner: Shape, d: Datum, e: Bytes, slack: Bytes, suffix: Bytes)
    requires Typed(inner, d) && Fits(inner, d) && e == Encode(inner, d) && |e| + |slack| < TWO_TO_THE_32
    ensures Decode(Nested(order, inner), PutSize(order, |e| + |slack|) + ((e + slack) + suffix)) == Parsed(d, suffix)
  {
    var size, span := |e| + |slack|, e + slack;
    var b := PutSize(order, size) + (span + suffix);
    SizeRoundTrip(order, size, span + suffix);
    FrontAndRest(span, suffix);
    DropThenSlice(b, size);
    RoundTrip(inner, d, slack);
    DecodeNested(order, inner, b, size, d, slack);
  }

  // ----- more input never changes what was decoded -----

  lemma Slices(b: Bytes, more: Bytes, i: nat, j: nat)
    requires i <= j <= |b|
    ensures (b + more)[i..j] == b[i..j]
    ensures (b + more)[j..] == b[j..] + more
  {
  }

  lemma ExtendsText(order: Order, b: Bytes, more: Bytes)
    requires Decode(Text(order), b).Parsed?
    ensures Decode(Text(order), b + more) == Decode(Text(order), b).(rest := Decode(Text(order), b).rest + more)
  {
    var size := GetInt(order, b[..4]);
    Slices(b, more, 0, 4);
    Slices(b, more, 4, 4 + size);
  }

  lemma ExtendsLeaf(s: Shape, b: Bytes, more: Bytes)
    requires Leaf(s) && Decode(s, b).Parsed?
    ensures Decode(s, b + more) == Decode(s, b).(rest := Decode(s, b).rest + more)
  {
    match s
    case UInt(width, _) => Slices(b, more, 0, width);
    case Raw(length) => Slices(b, more, 0, length);
    case Text(order) => ExtendsText(order, b, more);
    case Empty =>
  }

  lemma {:induction false} Extends(s: Shape, b: Bytes, more: Bytes)
    requires Decode(s, b).Parsed?
    ensures Decode(s, b + more) == Decode(s, b).(rest := Decode(s, b).rest + more)
    decreases s, 0, 0
  {
    match s
    case Then(first, rest) =>
      Extends(first, b, more);
      Extends(rest, Decode(first, b).rest, more);
    case Counted(order, between, item) =>
      Slices(b, more, 0, 4);
      Extends(between, b[4..], more);
      ExtendsItems(item, GetInt(order, b[..4]), Decode(between, b[4..]).rest, more);
    case Nested(order, inner) =>
      var size := GetInt(order, b[..4]);
      Slices(b, more, 0, 4);
      Slices(b, more, 4, 4 + size);
    case _ => ExtendsLeaf(s, b, more);
  }

  lemma {:induction false} ExtendsItems(s: Shape, n: nat, b: Bytes, more: Bytes)
    requires DecodeItems(s, n, b).ParsedItems?
    ensures DecodeItems(s, n, b + more) == DecodeItems(s, n, b).(rest := DecodeItems(s, n, b).rest + more)
    decreases s, 1, n
  {
    if n > 0 {
      Extends(s, b, more);
      ExtendsItems(s, n - 1, Decode(s, b).rest, more);
    }
  }

  /** Every strict prefix of an encoding is rejected. */
  lemma PrefixRejected(s: Shape, d: Datum, n: nat)
    requires Typed(s, d) && Fits(s, d) && n < |Encode(s, d)|
    ensures Decode(s, Encode(s, d)[..n]) == Fail
  {
    var b := Encode(s, d);
    if Decode(s, b[..n]).Parsed? {
      Extends(s, b[..n], b[n..]);
      assert b[..n] + b[n..] == b == b + [];
      RoundTrip(s, d, []);
      assert false;
    }
  }

  /** Encodings are uniquely readable: neither the value nor where it ends can be mistaken. */
  lemma UniquelyReadable(s: Shape, d: Datum, more: Bytes, e: Datum, other: Bytes)
    requires Typed(s, d) && Fits(s, d) && Typed(s, e) && Fits(s, e)
    requires Encode(s, d) + more == Encode(s, e) + other
    ensures d == e && more == other
  {
    RoundTrip(s, d, more);
    RoundTrip(s, e, other);
  }

  // ----- what is decoded is typed, fits, and re-encodes to the bytes consumed -----

  /** Layouts whose decoder skips nothing. */
  predicate Exact(s: Shape) {
    match s
    case Then(first, rest) => Exact(first) && Exact(rest)
    case Counted(_, between, item) => Exact(between) && Exact(item)
    case Nested(_, _) => false
    case _ => true
  }

  ghost predicate Sound(s: Shape, b: Bytes, d: Datum, rest: Bytes) {
    && Typed(s, d) && Fits(s, d)
    && |Encode(s, d)| + |rest| <= |b|
    && (Exact(s) ==> b == Encode(s, d) + rest)
  }

  lemma SizeBound(order: Order, b: Bytes)
    requires |b| == 4
    ensures GetInt(order, b) < TWO_TO_THE_32 && PutSize(order, GetInt(order, b)) == b
  {
    Powers();
    IntBound(order, b);
  }

  ghost predicate SoundItems(s: Shape, n: nat, b: Bytes, items: seq<Datum>, rest: Bytes) {
    && |items| == n && TypedItems(s, items) && FitsItems(s, items)
    && |EncodeItems(s, items)| + |rest| <= |b|
    && (Exact(s) ==> b == EncodeItems(s, items) + rest)
  }

  lemma SoundLeaf(s: Shape, b: Bytes)
    requires Leaf(s) && Decode(s, b).Parsed?
    ensures Sound(s, b, Decode(s, b).datum, Decode(s, b).rest)
  {
    match s
    case UInt(width, order) => IntBound(order, b[..width]); assert b == b[..width] + b[width..];
    case Raw(length) => assert b == b[..length] + b[length..];
    case Text(order) =>
      SizeBound(order, b[..4]);
      var size := GetInt(order, b[..4]);
      assert b == b[..4] + b[4..4 + size] + b[4 + size..];
    case Empty => assert b == [] + b;
  }

  lemma SoundThen(first: Shape, rest: Shape, b: Bytes, x: Datum, middle: Bytes, y: Datum, end: Bytes)
    requires Sound(first, b, x, middle) && Sound(rest, middle, y, end)
    ensures Sound(Then(first, rest), b, Pair(x, y), end)
  {
    var e, f := Encode(first, x), Encode(rest, y);
    assert Encode(Then(first, rest), Pair(x, y)) == e + f;
    assert e + (f + end) == (e + f) + end;
  }

  lemma Regroup(c: Bytes, e: Bytes, f: Bytes, end: Bytes)
    ensures c + (e + (f + end)) == (c + (e + f)) + end
  {
  }

  lemma SoundCounted(order: Order, between: Shape, item: Shape, b: Bytes, x: Datum, middle: Bytes,
                     items: seq<Datum>, end: Bytes)
    requires |b| >= 4 && Sound(between, b[4..], x, middle)
    requires SoundItems(item, GetInt(order, b[..4]), middle, items, end)
    ensures Sound(Counted(order, between, item), b, List(x, items), end)
  {
    SizeBound(order, b[..4]);
    var c, e, f := b[..4], Encode(between, x), EncodeItems(item, items);
    assert Encode(Counted(order, between, item), List(x, items)) == c + (e + f);
    if Exact(Counted(order, between, item)) {
      assert b == c + b[4..] && b[4..] == e + (f + end);
      Regroup(c, e, f, end);
    }
  }

  lemma SoundNested(order: Order, inner: Shape, b: Bytes, size: nat, x: Datum, middle: Bytes)
    requires |b| >= 4 && size == GetInt(order, b[..4]) && 4 + size <= |b|
    requires Sound(inner, b[4..4 + size], x, middle)
    ensures Sound(Nested(order, inner), b, x, b[4 + size..])
  {
    SizeBound(order, b[..4]);
    assert |Encode(Nested(order, inner), x)| == 4 + |Encode(inner, x)|;
  }

  lemma SoundCons(s: Shape, n: nat, b: Bytes, x: Datum, middle: Bytes, items: seq<Datum>, end: Bytes)
    requires Sound(s, b, x, middle) && SoundItems(s, n, middle, items, end)
    ensures SoundItems(s, n + 1, b, [x] + items, end)
  {
    var e, f := Encode(s, x), EncodeItems(s, items);
    assert ([x] + items)[1..] == items;
    assert EncodeItems(s, [x] + items) == e + f;
    assert e + (f + end) == (e + f) + end;
  }

  lemma {:induction false} DecodeIsSound(s: Shape, b: Bytes)
    requires Decode(s, b).Parsed?
    ensures Sound(s, b, Decode(s, b).datum, Decode(s, b).rest)
    decreases s, 0, 0
  {
    match s
    case Then(first, rest) =>
      var p := Decode(first, b);
      DecodeIsSound(first, b);
      DecodeIsSound(rest, p.rest);
      var q := Decode(rest, p.rest);
      SoundThen(first, rest, b, p.datum, p.rest, q.datum, q.rest);
    case Counted(order, between, item) =>
      var n, p := GetInt(order, b[..4]), Decode(between, b[4..]);
      DecodeIsSound(between, b[4..]);
      DecodeItemsIsSound(item, n, p.rest);
      var q := DecodeItems(item, n, p.rest);
      SoundCounted(order, between, item, b, p.datum, p.rest, q.items, q.rest);
    case Nested(order, inner) =>
      var size := GetInt(order, b[..4]);
      DecodeIsSound(inner, b[4..4 + size]);
      var p := Decode(inner, b[4..4 + size]);
      SoundNested(order, inner, b, size, p.datum, p.rest);
    case _ => SoundLeaf(s, b);
  }

  lemma {:induction false} DecodeItemsIsSound(s: Shape, n: nat, b: Bytes)
    requires DecodeItems(s, n, b).ParsedItems?
    ensures SoundItems(s, n, b, DecodeItems(s, n, b).items, DecodeItems(s, n, b).rest)
    decreases s, 1, n
  {
    if n == 0 {
      assert b == [] + b;
    } else {
      var p := Decode(s, b);
      DecodeIsSound(s, b);
      DecodeItemsIsSound(s, n - 1, p.rest);
      var q := DecodeItems(s, n - 1, p.rest);
      SoundCons(s, n - 1, b, p.datum, p.rest, q.items, q.rest);
    }
  }

  /** The round trip holds exactly for the values whose sizes fit into 32 bits. */
  lemma RoundTripsExactly(s: Shape, d: Datum, suffix: Bytes)
    requires Typed(s, d)
    ensures Decode(s, Encode(s, d) + suffix) == Parsed(d, suffix) <==> Fits(s, d)
  {
    if Fits(s, d) {
      RoundTrip(s, d, suffix);
    } else if Decode(s, Encode(s, d) + suffix) == Parsed(d, suffix) {
      DecodeIsSound(s, Encode(s, d) + suffix);
      assert false;
    }
  }
}
