/** When two file queries count as the same: their strings, and the checksums of these, which are their numbers. */
module QueryIdentity {
  import Crc32
  import opened Bounded
  import opened ByteConversion
  import opened QueryModel

  const BAR: u8 := 0x7C

  predicate BarFree(text: Bytes) {
    BAR !in text
  }

  predicate AllBarFree(texts: seq<Bytes>) {
    forall i | 0 <= i < |texts| :: BarFree(texts[i])
  }

  lemma BarShows(a: Bytes, x: Bytes, b: Bytes, y: Bytes)
    requires a + [BAR] + x == b + [BAR] + y && |a| < |b|
    ensures BAR in x
  {
    var left, right := a + [BAR] + x, b + [BAR] + y;
    assert right[|b|] == BAR && left[|b|] == x[|b| - |a| - 1];
  }

  /** Where the last bar stands, the last term begins. */
  lemma LastTermIsReadable(a: Bytes, x: Bytes, b: Bytes, y: Bytes)
    requires BarFree(x) && BarFree(y) && a + [BAR] + x == b + [BAR] + y
    ensures a == b && x == y
  {
    if |a| < |b| {
      BarShows(a, x, b, y);
    } else if |b| < |a| {
      BarShows(b, y, a, x);
    } else {
      var left, right := a + [BAR] + x, b + [BAR] + y;
      assert a == left[..|a|] && b == right[..|b|] && x == left[|a| + 1..] && y == right[|b| + 1..];
    }
  }

  lemma {:induction false} TermsShow(file: Bytes, terms: seq<Bytes>)
    requires BarFree(file)
    ensures terms != [] ==> BAR in QueryString(file, terms)
    ensures terms == [] ==> QueryString(file, terms) == file
  {
    if terms != [] {
      var before := QueryString(file, terms[..|terms| - 1]);
      assert (before + [BAR] + terms[|terms| - 1])[|before|] == BAR;
    }
  }

  /** Without bars in names and terms, queries for different files or with different terms have different strings. */
  lemma {:induction false} StringsAreUnambiguous(file: Bytes, terms: seq<Bytes>, other: Bytes, others: seq<Bytes>)
    requires BarFree(file) && AllBarFree(terms) && BarFree(other) && AllBarFree(others)
    ensures QueryString(file, terms) == QueryString(other, others) <==> file == other && terms == others
    decreases |terms|
  {
    TermsShow(file, terms);
    TermsShow(other, others);
    if terms != [] && others != [] && QueryString(file, terms) == QueryString(other, others) {
      var m, n := |terms| - 1, |others| - 1;
      LastTermIsReadable(QueryString(file, terms[..m]), terms[m], QueryString(other, others[..n]), others[n]);
      StringsAreUnambiguous(file, terms[..m], other, others[..n]);
      assert terms == terms[..m] + [terms[m]] && others == others[..n] + [others[n]];
    }
  }

  /** A bar in a name reads as the beginning of a term, so such queries are taken for one another. */
  lemma {:induction false} BarsAreAmbiguous(file: Bytes, term: Bytes, terms: seq<Bytes>)
    ensures QueryString(file + [BAR] + term, terms) == QueryString(file, [term] + terms)
    ensures QueryId(file + [BAR] + term, terms) == QueryId(file, [term] + terms)
    decreases |terms|
  {
    var all := [term] + terms;
    if terms == [] {
      assert all[..0] == [] && QueryString(file, all[..0]) == file;
    } else {
      BarsAreAmbiguous(file, term, terms[..|terms| - 1]);
      assert all[..|all| - 1] == [term] + terms[..|terms| - 1];
    }
  }

  lemma SameSlices(x: Bytes, y: Bytes, start: nat, stop: nat)
    requires start <= stop <= |x| == |y| && x[..start] == y[..start] && x[stop..] == y[stop..]
    ensures AsBytes(x)[..start] == AsBytes(y)[..start] && AsBytes(x)[stop..] == AsBytes(y)[stop..]
    ensures x != y ==> AsBytes(x) != AsBytes(y)
  {
    forall i | 0 <= i < start ensures AsBytes(x)[i] == AsBytes(y)[i] { assert x[i] == x[..start][i] == y[..start][i]; }
    forall i | stop <= i < |x| ensures AsBytes(x)[i] == AsBytes(y)[i] {
      assert x[i] == x[stop..][i - stop] == y[stop..][i - stop];
    }
    if x != y && AsBytes(x) == AsBytes(y) {
      forall i | 0 <= i < |x| ensures x[i] == y[i] {
        assert AsBytes(x)[i] == AsBytes(y)[i];
        ByteComesBack(x[i]);
        ByteComesBack(y[i]);
      }
    }
  }

  /** Two queries whose strings differ only inside four consecutive bytes, in the file or in a term, have different
      numbers, so no router takes one for the other. */
  lemma NearbyQueriesDiffer(file: Bytes, terms: seq<Bytes>, other: Bytes, others: seq<Bytes>, start: nat, stop: nat)
    requires var x, y := QueryString(file, terms), QueryString(other, others);
      && start <= stop <= |x| == |y| && stop - start <= 4 && x != y
      && x[..start] == y[..start] && x[stop..] == y[stop..]
    ensures QueryId(file, terms) != QueryId(other, others)
  {
    var x, y := QueryString(file, terms), QueryString(other, others);
    SameSlices(x, y, start, stop);
    Crc32.BurstDetected(AsBytes(x), AsBytes(y), start, stop);
    WordsDiffer(Crc32.Checksum(AsBytes(x)), Crc32.Checksum(AsBytes(y)));
  }
}
