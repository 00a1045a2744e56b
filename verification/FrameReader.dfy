/** A reader of the hashed byte stream, written from the format alone: a decimal length, a colon,
    that many bytes of name, a colon, a decimal length, a colon, that many bytes of value. */
module FrameReader {
  import opened Common
  import opened NameOrder
  import opened Utf8
  import opened HashFraming

  /** The digits at the start, added to `acc` from left to right, and what follows them. */
  function ReadNumber(s: Bytes, acc: nat): (nat, Bytes) {
    if s != [] && 48 <= s[0] <= 57 then ReadNumber(s[1..], 10 * acc + (s[0] - 48)) else (acc, s)
  }

  /** A length with its colon and that many bytes. */
  function ReadField(s: Bytes): Option<(Bytes, Bytes)> {
    var (n, rest) := ReadNumber(s, 0);
    if rest != [] && rest[0] == 58 && n < |rest| then Some((rest[1..n + 1], rest[n + 1..])) else None
  }

  lemma NumberShrinks(s: Bytes, acc: nat)
    ensures |ReadNumber(s, acc).1| <= |s|
  {
  }

  function ReadEntries(s: Bytes): Option<seq<(Bytes, Bytes)>>
    decreases |s|
  {
    if s == [] then Some([]) else
      NumberShrinks(s, 0);
      match ReadField(s)
      case None => None
      case Some((name, rest)) =>
        if rest == [] || rest[0] != 58 then None else
          NumberShrinks(rest[1..], 0);
          match ReadField(rest[1..])
          case None => None
          case Some((value, others)) =>
            var es := ReadEntries(others);
            if es.Some? then Some([(name, value)] + es.value) else None
  }

  /** A printed number is read as itself, whatever follows it. */
  lemma {:induction false} NumberIsRead(n: nat, y: Bytes)
    ensures ReadNumber(Decimal(n) + y, 0) == ReadNumber(y, n)
    decreases n
  {
    if n < 10 {
      assert (Decimal(n) + y)[1..] == y;
    } else {
      var digit := [ZERO + n % 10];
      NumberIsRead(n / 10, digit + y);
      assert Decimal(n) + y == Decimal(n / 10) + (digit + y);
      assert (digit + y)[1..] == y;
      assert 10 * (n / 10) + n % 10 == n;
    }
  }

  lemma FieldIsRead(f: Bytes, y: Bytes)
    ensures ReadField(Header(f) + (f + y)) == Some((f, y))
  {
    var rest := [COLON] + (f + y);
    NumberIsRead(|f|, rest);
    assert Header(f) + (f + y) == Decimal(|f|) + rest;
    assert rest[1..|f| + 1] == f && rest[|f| + 1..] == y;
  }

  /** The stream of any entries is read back as those entries, in their order. */
  lemma {:induction false} StreamIsRead(es: seq<(Bytes, Bytes)>)
    ensures ReadEntries(Frame(es)) == Some(es)
  {
    if es != [] {
      var (name, value) := es[0];
      var others := Frame(es[1..]);
      var rest := [COLON] + (Header(value) + (value + others));
      assert Frame(es) == Header(name) + (name + rest);
      FieldIsRead(name, rest);
      assert rest[1..] == Header(value) + (value + others);
      FieldIsRead(value, others);
      StreamIsRead(es[1..]);
      assert Frame(es) != [] by {
        assert Decimal(|name|) != [];
      }
      assert es == [(name, value)] + es[1..];
    }
  }

  /** What is hashed for a map is read back as its entries in the order of their names, each with its
      own value. */
  lemma HashedStreamIsRead(less: (Bytes, Bytes) -> bool, es: seq<(Bytes, Bytes)>)
    requires DistinctNames(es) && StrictTotal(less, NameSet(es))
    ensures
      var r := ReadEntries(Frame(SortByName(less, es)));
      && r.Some? && multiset(r.value) == multiset(es)
      && forall i, j :: 0 <= i < j < |r.value| ==> less(r.value[i].0, r.value[j].0)
  {
    StreamIsRead(SortByName(less, es));
    SortSorts(less, es);
  }
}
