/** The length-prefixed byte stream both revision scripts feed to SHA-256
    (scripts/clawdi-image-release-plan.ts `hashInputs`,
    scripts/whatsapp-sidecar-deployment-revision.ts).

    Names and values are the UTF-8 bytes that `hash.update` sees. */
module HashFraming {
  import opened NameOrder
  import opened Utf8

  const COLON: Byte := 58
  const ZERO: Byte := 48

  /** A number as a template literal prints it. */
  function Decimal(n: nat): (d: Bytes)
    ensures d != [] && forall i :: 0 <= i < |d| ==> ZERO <= d[i] <= ZERO + 9
  {
    if n < 10 then [ZERO + n] else Decimal(n / 10) + [ZERO + n % 10]
  }

  function Header(bytes: Bytes): Bytes {
    Decimal(|bytes|) + [COLON]
  }

  function FrameEntry(name: Bytes, value: Bytes): Bytes {
    Header(name) + (name + ([COLON] + (Header(value) + value)))
  }

  function Frame(es: seq<(Bytes, Bytes)>): Bytes {
    if es == [] then [] else FrameEntry(es[0].0, es[0].1) + Frame(es[1..])
  }

  lemma FrameAppend(es: seq<(Bytes, Bytes)>, e: (Bytes, Bytes))
    ensures Frame(es + [e]) == Frame(es) + FrameEntry(e.0, e.1)
  {
    if es == [] {
      assert ([] + [e])[1..] == [];
    } else {
      assert (es + [e])[1..] == es[1..] + [e];
      FrameAppend(es[1..], e);
    }
  }

  /** The bytes hashed for a `Map` with the given insertion order. */
  method HashStream(less: (Bytes, Bytes) -> bool, inputs: seq<(Bytes, Bytes)>) returns (stream: Bytes)
    ensures stream == Frame(SortByName(less, inputs))
  {
    var sorted := SortByName(less, inputs);
    stream := [];
    for i := 0 to |sorted|
      invariant stream == Frame(sorted[..i])
    {
      var (name, value) := sorted[i];
      assert sorted[..i + 1] == sorted[..i] + [sorted[i]];
      FrameAppend(sorted[..i], sorted[i]);
      stream := stream + (Header(name) + (name + ([COLON] + (Header(value) + value))));
    }
    assert sorted[..|sorted|] == sorted;
  }

  // ---- the stream determines the entries ----

  lemma {:induction false} DecimalInjective(m: nat, n: nat)
    requires Decimal(m) == Decimal(n)
    ensures m == n
  {
    var a, b := Decimal(m), Decimal(n);
    OneDigit(m);
    OneDigit(n);
    if m >= 10 {
      assert Decimal(m / 10) == a[..|a| - 1] == b[..|b| - 1] == Decimal(n / 10);
      DecimalInjective(m / 10, n / 10);
      assert a[|a| - 1] == b[|b| - 1];
    } else {
      assert a[0] == b[0];
    }
  }

  lemma OneDigit(n: nat)
    ensures |Decimal(n)| == 1 <==> n < 10
  {
    if n >= 10 {
      assert |Decimal(n / 10)| > 0;
    }
  }

  /** The first colon ends the digits. */
  lemma ColonEndsDigits(n: nat, x: Bytes, i: nat)
    requires i < |Decimal(n) + [COLON] + x| && (Decimal(n) + [COLON] + x)[i] == COLON
    ensures i >= |Decimal(n)|
  {
  }

  /** A length is read back up to its colon. */
  lemma HeaderSplits(m: nat, n: nat, x: Bytes, y: Bytes)
    requires Decimal(m) + [COLON] + x == Decimal(n) + [COLON] + y
    ensures m == n && x == y
  {
    var a, b := Decimal(m), Decimal(n);
    var s := a + [COLON] + x;
    assert s[|a|] == COLON && s[|b|] == COLON;
    ColonEndsDigits(m, x, |b|);
    ColonEndsDigits(n, y, |a|);
    assert a == s[..|a|] && b == s[..|b|];
    assert x == s[|a| + 1..] && y == s[|b| + 1..];
    DecimalInjective(m, n);
  }

  lemma FieldSplits(f: Bytes, g: Bytes, x: Bytes, y: Bytes)
    requires Header(f) + (f + x) == Header(g) + (g + y)
    ensures f == g && x == y
  {
    HeaderSplits(|f|, |g|, f + x, g + y);
    var s := f + x;
    assert s == g + y;
    assert f == s[..|f|] && g == s[..|g|];
    assert x == s[|f|..] && y == s[|g|..];
  }

  lemma EntrySplits(e: (Bytes, Bytes), f: (Bytes, Bytes), x: Bytes, y: Bytes)
    requires FrameEntry(e.0, e.1) + x == FrameEntry(f.0, f.1) + y
    ensures e == f && x == y
  {
    var ex := [COLON] + (Header(e.1) + (e.1 + x));
    var fy := [COLON] + (Header(f.1) + (f.1 + y));
    assert FrameEntry(e.0, e.1) + x == Header(e.0) + (e.0 + ex);
    assert FrameEntry(f.0, f.1) + y == Header(f.0) + (f.0 + fy);
    FieldSplits(e.0, f.0, ex, fy);
    assert ex[1..] == Header(e.1) + (e.1 + x) && fy[1..] == Header(f.1) + (f.1 + y);
    FieldSplits(e.1, f.1, x, y);
  }

  lemma {:induction false} FrameInjective(es: seq<(Bytes, Bytes)>, fs: seq<(Bytes, Bytes)>)
    requires Frame(es) == Frame(fs)
    ensures es == fs
  {
    FrameIsEmpty(es);
    FrameIsEmpty(fs);
    if es != [] {
      EntrySplits(es[0], fs[0], Frame(es[1..]), Frame(fs[1..]));
      FrameInjective(es[1..], fs[1..]);
      assert es == [es[0]] + es[1..] && fs == [fs[0]] + fs[1..];
    }
  }

  lemma FrameIsEmpty(es: seq<(Bytes, Bytes)>)
    ensures Frame(es) == [] <==> es == []
  {
    if es != [] {
      assert |FrameEntry(es[0].0, es[0].1)| > 0;
    }
  }

  /** What a `Map` holds, whatever the order its entries were set in. */
  ghost function Contents(es: seq<(Bytes, Bytes)>): set<(Bytes, Bytes)> {
    set e | e in es
  }

  /** The stream does not confuse different maps, whatever the comparison. */
  lemma StreamHoldsContents(less: (Bytes, Bytes) -> bool, es: seq<(Bytes, Bytes)>, fs: seq<(Bytes, Bytes)>)
    requires Frame(SortByName(less, es)) == Frame(SortByName(less, fs))
    ensures Contents(es) == Contents(fs)
  {
    var s, t := SortByName(less, es), SortByName(less, fs);
    SameEntries(s, es);
    SameEntries(t, fs);
    FrameInjective(s, t);
  }

  /** Two maps give the same bytes exactly when they hold the same entries: the stream neither
      confuses different maps nor depends on insertion order. */
  lemma StreamDeterminesMap(less: (Bytes, Bytes) -> bool, es: seq<(Bytes, Bytes)>, fs: seq<(Bytes, Bytes)>)
    requires DistinctNames(es) && DistinctNames(fs)
    requires StrictTotal(less, NameSet(es)) && StrictTotal(less, NameSet(fs))
    ensures Frame(SortByName(less, es)) == Frame(SortByName(less, fs)) <==> Contents(es) == Contents(fs)
  {
    if Frame(SortByName(less, es)) == Frame(SortByName(less, fs)) {
      StreamHoldsContents(less, es, fs);
    }
    if Contents(es) == Contents(fs) {
      assert forall e :: e in es <==> e in Contents(es);
      assert forall e :: e in fs <==> e in Contents(fs);
      SameSort(less, es, fs);
    }
  }

  /** With a hash that separates byte streams, the digest separates exactly the different maps. */
  lemma DigestSeparatesMaps<D(!new)>(
      hash: Bytes -> D, less: (Bytes, Bytes) -> bool, es: seq<(Bytes, Bytes)>, fs: seq<(Bytes, Bytes)>)
    requires forall a, b :: hash(a) == hash(b) ==> a == b
    requires DistinctNames(es) && DistinctNames(fs)
    requires StrictTotal(less, NameSet(es)) && StrictTotal(less, NameSet(fs))
    ensures hash(Frame(SortByName(less, es))) == hash(Frame(SortByName(less, fs))) <==> Contents(es) == Contents(fs)
  {
    StreamDeterminesMap(less, es, fs);
  }

  /** The bytes are the same for every insertion order exactly when the comparison ties on no two
      names; the scripts' own orders are fixed by their sorted listings. */
  lemma StreamForgetsOrderExactlyWhen(less: (Bytes, Bytes) -> bool, es: seq<(Bytes, Bytes)>)
    requires DistinctNames(es) && Consistent(less, NameSet(es))
    ensures
      (forall fs :: Reorders(fs, es) ==> Frame(SortByName(less, fs)) == Frame(SortByName(less, es)))
        <==> StrictTotal(less, NameSet(es))
  {
    SortForgetsOrderExactlyWhen(less, es);
    if forall fs :: Reorders(fs, es) ==> Frame(SortByName(less, fs)) == Frame(SortByName(less, es)) {
      forall fs | Reorders(fs, es)
        ensures SortByName(less, fs) == SortByName(less, es)
      {
        FrameInjective(SortByName(less, fs), SortByName(less, es));
      }
    }
  }
}
