/** A message is a record: a flat list of fields, written and read in order. */
module Records {
  import opened Bounded
  import opened Endian
  import opened Wire

  /** The shape of fields written one after the other. */
  function Chain(layout: seq<Shape>): Shape {
    if layout == [] then Empty else Then(layout[0], Chain(layout[1..]))
  }

  function Tuple(fields: seq<Datum>): Datum {
    if fields == [] then Unit else Pair(fields[0], Tuple(fields[1..]))
  }

  function Untuple(d: Datum): seq<Datum> {
    match d
    case Pair(first, rest) => [first] + Untuple(rest)
    case _ => []
  }

  predicate Matches(layout: seq<Shape>, fields: seq<Datum>) {
    |layout| == |fields| && forall i | 0 <= i < |fields| :: Typed(layout[i], fields[i])
  }

  predicate AllFit(layout: seq<Shape>, fields: seq<Datum>)
    requires Matches(layout, fields)
  {
    forall i | 0 <= i < |fields| :: Fits(layout[i], fields[i])
  }

  lemma {:induction false} TupleMatches(layout: seq<Shape>, fields: seq<Datum>)
    requires Matches(layout, fields)
    ensures Typed(Chain(layout), Tuple(fields))
    ensures Fits(Chain(layout), Tuple(fields)) <==> AllFit(layout, fields)
    ensures Untuple(Tuple(fields)) == fields
  {
    if fields != [] {
      var more, rest := layout[1..], fields[1..];
      assert forall i | 0 <= i < |rest| :: more[i] == layout[i + 1] && rest[i] == fields[i + 1];
      TupleMatches(more, rest);
      if AllFit(more, rest) && Fits(layout[0], fields[0]) {
        forall i | 0 <= i < |fields| ensures Fits(layout[i], fields[i]) {
          assert i > 0 ==> fields[i] == rest[i - 1] && layout[i] == more[i - 1];
        }
      }
    }
  }

  lemma {:induction false} UntupleMatches(layout: seq<Shape>, d: Datum)
    requires Typed(Chain(layout), d)
    ensures Matches(layout, Untuple(d)) && Tuple(Untuple(d)) == d
  {
    if layout != [] {
      UntupleMatches(layout[1..], d.snd);
      assert Untuple(d)[1..] == Untuple(d.snd);
      forall i | 0 <= i < |layout| ensures Typed(layout[i], Untuple(d)[i]) {
        if i > 0 {
          assert layout[i] == layout[1..][i - 1] && Untuple(d)[i] == Untuple(d.snd)[i - 1];
        }
      }
    }
  }

  function Write(layout: seq<Shape>, fields: seq<Datum>): Bytes
    requires Matches(layout, fields)
  {
    TupleMatches(layout, fields);
    Encode(Chain(layout), Tuple(fields))
  }

  /** What the readers return; bytes after the last field are ignored. */
  function Read(layout: seq<Shape>, b: Bytes): (r: Option<seq<Datum>>)
    ensures r.Some? ==> Matches(layout, r.value) && AllFit(layout, r.value)
  {
    var p := Decode(Chain(layout), b);
    if p.Fail? then None else
    DecodeIsSound(Chain(layout), b);
    UntupleMatches(layout, p.datum);
    TupleMatches(layout, Untuple(p.datum));
    Some(Untuple(p.datum))
  }

  /** Reading gives back what was written, whatever follows, exactly when all sizes fit into 32 bits. */
  lemma ReadsBack(layout: seq<Shape>, fields: seq<Datum>, suffix: Bytes)
    requires Matches(layout, fields)
    ensures Read(layout, Write(layout, fields) + suffix) == Some(fields) <==> AllFit(layout, fields)
  {
    TupleMatches(layout, fields);
    if AllFit(layout, fields) {
      RoundTrip(Chain(layout), Tuple(fields), suffix);
    }
  }

  lemma PrefixFails(layout: seq<Shape>, fields: seq<Datum>, n: nat)
    requires Matches(layout, fields) && AllFit(layout, fields) && n < |Write(layout, fields)|
    ensures Read(layout, Write(layout, fields)[..n]) == None
  {
    TupleMatches(layout, fields);
    PrefixRejected(Chain(layout), Tuple(fields), n);
  }

  lemma ReadsUniquely(layout: seq<Shape>, fields: seq<Datum>, suffix: Bytes, others: seq<Datum>, more: Bytes)
    requires Matches(layout, fields) && AllFit(layout, fields)
    requires Matches(layout, others) && AllFit(layout, others)
    requires Write(layout, fields) + suffix == Write(layout, others) + more
    ensures fields == others && suffix == more
  {
    TupleMatches(layout, fields);
    TupleMatches(layout, others);
    UniquelyReadable(Chain(layout), Tuple(fields), suffix, Tuple(others), more);
  }

  /** An accepted input starts with the encoding of what was read, when the layout skips nothing. */
  lemma ReadsWhatWasWritten(layout: seq<Shape>, b: Bytes)
    requires Read(layout, b).Some? && Exact(Chain(layout))
    ensures Write(layout, Read(layout, b).value) <= b
  {
    DecodeIsSound(Chain(layout), b);
    UntupleMatches(layout, Decode(Chain(layout), b).datum);
  }

  lemma {:induction false} ChainIsExact(layout: seq<Shape>)
    requires forall i | 0 <= i < |layout| :: Exact(layout[i])
    ensures Exact(Chain(layout))
  {
    if layout != [] {
      assert forall i | 0 <= i < |layout| - 1 :: layout[1..][i] == layout[i + 1];
      ChainIsExact(layout[1..]);
    }
  }

  // ----- one field at a time -----

  lemma WriteStep(layout: seq<Shape>, fields: seq<Datum>, i: nat)
    requires Matches(layout, fields) && i < |fields|
    ensures Matches(layout[i..], fields[i..]) && Matches(layout[i + 1..], fields[i + 1..])
    ensures Write(layout[i..], fields[i..]) == Encode(layout[i], fields[i]) + Write(layout[i + 1..], fields[i + 1..])
  {
    assert layout[i..][1..] == layout[i + 1..] && fields[i..][1..] == fields[i + 1..];
    var later, laterFields := layout[i..], fields[i..];
    forall k | 0 <= k < |later| ensures Typed(later[k], laterFields[k]) {
      assert Typed(layout[i + k], fields[i + k]);
    }
    var last, lastFields := layout[i + 1..], fields[i + 1..];
    forall k | 0 <= k < |last| ensures Typed(last[k], lastFields[k]) {
      assert Typed(layout[i + 1 + k], fields[i + 1 + k]);
    }
  }

  lemma WriteFirst(layout: seq<Shape>, fields: seq<Datum>)
    requires Matches(layout, fields) && fields != []
    ensures Matches(layout[1..], fields[1..])
    ensures Write(layout, fields) == Encode(layout[0], fields[0]) + Write(layout[1..], fields[1..])
  {
    assert layout[0..] == layout && fields[0..] == fields;
    WriteStep(layout, fields, 0);
  }

  /** Writing two groups of fields is writing one after the other. */
  lemma {:induction false} WriteAppends(layout: seq<Shape>, fields: seq<Datum>, more: seq<Shape>, others: seq<Datum>)
    requires Matches(layout, fields) && Matches(more, others)
    ensures Matches(layout + more, fields + others)
    ensures Write(layout + more, fields + others) == Write(layout, fields) + Write(more, others)
    decreases |fields|
  {
    if fields == [] {
      assert layout + more == more && fields + others == others;
      assert Write(layout, fields) == [];
    } else {
      WriteFirst(layout, fields);
      WriteAppends(layout[1..], fields[1..], more, others);
      assert (layout + more)[1..] == layout[1..] + more && (fields + others)[1..] == fields[1..] + others;
      WriteFirst(layout + more, fields + others);
      assert (layout + more)[0] == layout[0] && (fields + others)[0] == fields[0];
    }
  }

  /** What each field is written as. */
  function Parts(layout: seq<Shape>, fields: seq<Datum>): seq<Bytes>
    requires Matches(layout, fields)
  {
    seq(|fields|, i requires 0 <= i < |fields| => Encode(layout[i], fields[i]))
  }

  /** A record is its fields, one after the other. */
  lemma {:induction false} WriteIsParts(layout: seq<Shape>, fields: seq<Datum>)
    requires Matches(layout, fields)
    ensures Write(layout, fields) == Concat(Parts(layout, fields))
    decreases |fields|
  {
    if fields == [] {
      assert Write(layout, fields) == [];
    } else {
      WriteFirst(layout, fields);
      WriteIsParts(layout[1..], fields[1..]);
      assert Parts(layout, fields)[1..] == Parts(layout[1..], fields[1..]);
    }
  }

  lemma {:induction false} ItemsAreParts(s: Shape, items: seq<Datum>, parts: seq<Bytes>)
    requires TypedItems(s, items) && |parts| == |items|
    requires forall i | 0 <= i < |items| :: Typed(s, items[i]) && Encode(s, items[i]) == parts[i]
    ensures EncodeItems(s, items) == Concat(parts)
    decreases |items|
  {
    if items != [] { ItemsAreParts(s, items[1..], parts[1..]); }
  }

  lemma DecodeStep(layout: seq<Shape>, i: nat, b: Bytes)
    requires i < |layout|
    ensures Decode(Chain(layout[i..]), b) == Decode(Then(layout[i], Chain(layout[i + 1..])), b)
  {
    assert layout[i..][1..] == layout[i + 1..];
  }

  // ----- lists -----

  lemma {:induction false} ItemsTyped(s: Shape, items: seq<Datum>)
    ensures TypedItems(s, items) <==> forall i | 0 <= i < |items| :: Typed(s, items[i])
  {
    if items != [] {
      ItemsTyped(s, items[1..]);
      assert forall i | 0 < i < |items| :: items[i] == items[1..][i - 1];
    }
  }

  lemma {:induction false} ItemsFit(s: Shape, items: seq<Datum>)
    requires TypedItems(s, items) && forall i | 0 <= i < |items| :: Typed(s, items[i])
    ensures FitsItems(s, items) <==> forall i | 0 <= i < |items| :: Fits(s, items[i])
  {
    if items != [] {
      ItemsTyped(s, items[1..]);
      ItemsFit(s, items[1..]);
      assert forall i | 0 < i < |items| :: items[i] == items[1..][i - 1];
    }
  }

  // ----- lists of strings -----

  predicate Short(b: Bytes) {
    |b| < TWO_TO_THE_32
  }

  predicate AllShort(texts: seq<Bytes>) {
    |texts| < TWO_TO_THE_32 && forall i | 0 <= i < |texts| :: Short(texts[i])
  }

  function TextList(order: Order): Shape {
    Counted(order, Empty, Text(order))
  }

  function Texts(texts: seq<Bytes>): Datum {
    List(Unit, seq(|texts|, i requires 0 <= i < |texts| => Blob(texts[i])))
  }

  function TextsOf(order: Order, d: Datum): (r: seq<Bytes>)
    requires Typed(TextList(order), d)
    ensures Texts(r) == d
  {
    ItemsTyped(Text(order), d.items);
    var r := seq(|d.items|, i requires 0 <= i < |d.items| => d.items[i].bytes);
    assert Texts(r).items == d.items by {
      assert forall i | 0 <= i < |d.items| :: Texts(r).items[i] == Blob(r[i]) == d.items[i];
    }
    assert Typed(Empty, d.header);
    r
  }

  lemma SameTexts(a: seq<Bytes>, b: seq<Bytes>)
    requires Texts(a) == Texts(b)
    ensures a == b
  {
    assert |Texts(a).items| == |a| && |Texts(b).items| == |b|;
    assert forall i | 0 <= i < |a| :: Texts(a).items[i] == Blob(a[i]) && Texts(b).items[i] == Blob(b[i]);
  }

  lemma TextsTyped(order: Order, texts: seq<Bytes>)
    ensures Typed(TextList(order), Texts(texts))
    ensures Fits(TextList(order), Texts(texts)) <==> AllShort(texts)
    ensures TextsOf(order, Texts(texts)) == texts
  {
    var items := Texts(texts).items;
    ItemsTyped(Text(order), items);
    ItemsFit(Text(order), items);
    assert forall i | 0 <= i < |items| :: items[i] == Blob(texts[i]) && (Fits(Text(order), items[i]) <==> Short(texts[i]));
    var back := TextsOf(order, Texts(texts));
    assert forall i | 0 <= i < |texts| :: Texts(back).items[i] == items[i];
  }
}
