/** `stableStringify` (scripts/clawdi-image-release-plan.ts,
    scripts/whatsapp-sidecar-deployment-revision.ts): JSON text with sorted object keys.

    Texts are sequences of UTF-16 code units, as JavaScript strings are. */
module CanonicalJson {
  import opened Common
  import opened NameOrder

  type Unit = x: int | 0 <= x < 0x10000
  type Text = seq<Unit>

  /** The units of a literal below the surrogates. */
  function Units(s: string): (t: Text)
    requires forall i :: 0 <= i < |s| ==> s[i] as int < 0xD800
    ensures |t| == |s| && forall i :: 0 <= i < |s| ==> t[i] == s[i] as int
  {
    seq(|s|, i requires 0 <= i < |s| => s[i] as int)
  }

  /** A parsed value. A number is given by the text JavaScript prints for it; `NonFinite` is a
      NaN or an infinity, which YAML can express and which prints as `null`. Object members are
      in property order. */
  datatype Json =
    | Null
    | Bool(b: bool)
    | Number(literal: Text)
    | NonFinite
    | String(s: Text)
    | Array(items: seq<Json>)
    | Object(members: seq<(Text, Json)>)

  /** The value a tree denotes as printed: object members without their order. */
  datatype Value =
    | NullValue
    | BoolValue(b: bool)
    | NumberValue(literal: Text)
    | StringValue(s: Text)
    | ArrayValue(items: seq<Value>)
    | ObjectValue(members: map<Text, Value>)

  /** The value of a member; names are distinct wherever this is used. */
  function Lookup(ms: seq<(Text, Json)>, name: Text): (i: nat)
    requires exists k :: 0 <= k < |ms| && ms[k].0 == name
    ensures i < |ms| && ms[i].0 == name
  {
    if ms[0].0 == name then 0
    else
      assert exists k :: 0 <= k < |ms| - 1 && ms[1..][k].0 == name by {
        var k :| 0 <= k < |ms| && ms[k].0 == name;
        assert ms[1..][k - 1].0 == name;
      }
      1 + Lookup(ms[1..], name)
  }

  predicate Has(ms: seq<(Text, Json)>, name: Text) {
    exists k :: 0 <= k < |ms| && ms[k].0 == name
  }

  /** A property of a record; anything else has none. */
  function Field(j: Json, name: Text): Option<Json> {
    if j.Object? && Has(j.members, name) then Some(j.members[Lookup(j.members, name)].1) else None
  }

  ghost function Meaning(j: Json): Value {
    match j
    case Null | NonFinite => NullValue
    case Bool(b) => BoolValue(b)
    case Number(n) => NumberValue(n)
    case String(s) => StringValue(s)
    case Array(items) => ArrayValue(seq(|items|, i requires 0 <= i < |items| => Meaning(items[i])))
    case Object(ms) => ObjectValue(map name | name in NameSet(ms) :: Meaning(ms[Lookup(ms, name)].1))
  }

  // ---- string quoting, section 7 of RFC 8259 ----

  const QUOTE: Unit := 34
  const COMMA: Unit := 44
  const COLON: Unit := 58
  const BACKSLASH: Unit := 92

  predicate IsLead(c: Unit) { 0xD800 <= c < 0xDC00 }
  predicate IsTrail(c: Unit) { 0xDC00 <= c < 0xE000 }

  function HexDigit(d: int): Unit
    requires 0 <= d < 16
  {
    if d < 10 then 48 + d else 87 + d
  }

  function UnicodeEscape(c: Unit): Text {
    [BACKSLASH, 117, HexDigit(c / 16 / 16 / 16), HexDigit(c / 16 / 16 % 16), HexDigit(c / 16 % 16), HexDigit(c % 16)]
  }

  /** The letter of a two-character escape, if the unit has one. */
  function ShortEscape(c: Unit): Text {
    if c == QUOTE then [QUOTE]
    else if c == BACKSLASH then [BACKSLASH]
    else if c == 8 then [98]
    else if c == 9 then [116]
    else if c == 10 then [110]
    else if c == 12 then [102]
    else if c == 13 then [114]
    else []
  }

  /** How many units the next piece of quoted text covers: two for a surrogate pair. */
  function PieceLength(s: Text): nat
    requires s != []
  {
    if IsLead(s[0]) && |s| > 1 && IsTrail(s[1]) then 2 else 1
  }

  function Piece(s: Text): Text
    requires s != []
  {
    var c := s[0];
    if ShortEscape(c) != [] then [BACKSLASH] + ShortEscape(c)
    else if PieceLength(s) == 2 then s[..2]
    else if c < 32 || IsLead(c) || IsTrail(c) then UnicodeEscape(c)
    else [c]
  }

  function QuotedBody(s: Text): Text {
    if s == [] then [] else Piece(s) + QuotedBody(s[PieceLength(s)..])
  }

  function Quote(s: Text): Text {
    [QUOTE] + (QuotedBody(s) + [QUOTE])
  }

  // ---- the printer ----

  function Join(parts: seq<Text>): Text {
    if parts == [] then []
    else if |parts| == 1 then parts[0]
    else parts[0] + ([COMMA] + Join(parts[1..]))
  }

  /** The members an object prints, in order. */
  function SortedMembers(less: (Text, Text) -> bool, j: Json): (r: seq<(Text, Json)>)
    requires j.Object?
    ensures forall i :: 0 <= i < |r| ==> r[i].1 < j
  {
    var r := SortByName(less, j.members);
    assert forall i :: 0 <= i < |r| ==> r[i].1 < j by {
      SameEntries(r, j.members);
      forall i | 0 <= i < |r|
        ensures r[i].1 < j
      {
        assert r[i] in r;
        var k :| 0 <= k < |j.members| && j.members[k] == r[i];
      }
    }
    r
  }

  function PrintMember(less: (Text, Text) -> bool, m: (Text, Json)): Text
    decreases m.1, 1
  {
    Quote(m.0) + ([COLON] + Print(less, m.1))
  }

  function Print(less: (Text, Text) -> bool, j: Json): Text
    decreases j, 0
  {
    match j
    case Null | NonFinite => [110, 117, 108, 108]
    case Bool(b) => if b then [116, 114, 117, 101] else [102, 97, 108, 115, 101]
    case Number(n) => n
    case String(s) => Quote(s)
    case Array(items) =>
      [91] + (Join(seq(|items|, i requires 0 <= i < |items| => Print(less, items[i]))) + [93])
    case Object(_) =>
      var ms := SortedMembers(less, j);
      [123] + (Join(seq(|ms|, i requires 0 <= i < |ms| =>
        PrintMember(less, ms[i]))) + [125])
  }

  // ---- well-formed trees ----

  predicate IsNumberUnit(c: Unit) {
    48 <= c <= 57 || c == 43 || c == 45 || c == 46 || c == 101
  }

  predicate IsNumber(n: Text) {
    n != [] && (n[0] == 45 || 48 <= n[0] <= 57) && forall i :: 0 <= i < |n| ==> IsNumberUnit(n[i])
  }

  ghost predicate AreDigits(t: Text) {
    t != [] && forall c :: c in t ==> 48 <= c <= 57
  }

  /** Every number that JavaScript prints qualifies: a sign, digits, a fraction and an exponent. */
  lemma PrintedNumbersQualify(minus: bool, whole: Text, fraction: Option<Text>, exponent: Option<(bool, Text)>)
    requires AreDigits(whole) && (fraction.Some? ==> AreDigits(fraction.value))
    requires exponent.Some? ==> AreDigits(exponent.value.1)
    ensures IsNumber(
      (if minus then [45] else []) + whole + (if fraction.Some? then [46] + fraction.value else [])
      + if exponent.Some? then [101, if exponent.value.0 then 45 else 43] + exponent.value.1 else [])
  {
    var sign: Text := if minus then [45] else [];
    var f := if fraction.Some? then [46] + fraction.value else [];
    var e := if exponent.Some? then [101, if exponent.value.0 then 45 else 43] + exponent.value.1 else [];
    var n := sign + whole + f + e;
    assert n[0] == (if minus then 45 else whole[0]);
    assert whole[0] in whole;
    forall i | 0 <= i < |n|
      ensures IsNumberUnit(n[i])
    {
      assert n[i] in sign || n[i] in whole || n[i] in f || n[i] in e;
    }
  }

  /** Number texts are number texts and object keys are distinct. */
  ghost predicate WellFormed(j: Json) {
    match j
    case Number(n) => IsNumber(n)
    case Array(items) => forall i :: 0 <= i < |items| ==> WellFormed(items[i])
    case Object(ms) => DistinctNames(ms) && forall i :: 0 <= i < |ms| ==> WellFormed(ms[i].1)
    case _ => true
  }

  /** The comparison orders the keys of each object. */
  ghost predicate Ordered(less: (Text, Text) -> bool, j: Json) {
    match j
    case Array(items) => forall i :: 0 <= i < |items| ==> Ordered(less, items[i])
    case Object(ms) => StrictTotal(less, NameSet(ms)) && forall i :: 0 <= i < |ms| ==> Ordered(less, ms[i].1)
    case _ => true
  }

  lemma FieldIsWellFormed(j: Json, name: Text)
    requires WellFormed(j) && Field(j, name).Some?
    ensures WellFormed(Field(j, name).value)
  {}

  // ---- reading quoted text back ----

  lemma PieceSplits(s: Text, t: Text, x: Text, y: Text)
    requires s != [] && t != [] && Piece(s) + x == Piece(t) + y
    ensures PieceLength(s) == PieceLength(t)
    ensures s[..PieceLength(s)] == t[..PieceLength(t)] && x == y
  {
    var p, q := Piece(s), Piece(t);
    var w := p + x;
    assert w == q + y;
    assert p == w[..|p|] && q == w[..|q|] && x == w[|p|..] && y == w[|q|..];
    assert w[0] == p[0] == q[0];
    if p[0] == BACKSLASH {
      assert w[1] == p[1] == q[1];
      if p[1] == 117 {
        UnicodeEscapeInjective(s[0], t[0]);
      }
    } else if |p| == 2 {
      assert w[1] == p[1];
    }
  }

  lemma HexDigitInjective(d: int, e: int)
    requires 0 <= d < 16 && 0 <= e < 16 && HexDigit(d) == HexDigit(e)
    ensures d == e
  {}

  lemma UnicodeEscapeInjective(c: Unit, d: Unit)
    requires UnicodeEscape(c) == UnicodeEscape(d)
    ensures c == d
  {
    var e, f := UnicodeEscape(c), UnicodeEscape(d);
    assert e[2] == f[2] && e[3] == f[3] && e[4] == f[4] && e[5] == f[5];
    HexDigitInjective(c % 16, d % 16);
    HexDigitInjective(c / 16 % 16, d / 16 % 16);
    HexDigitInjective(c / 16 / 16 % 16, d / 16 / 16 % 16);
    HexDigitInjective(c / 16 / 16 / 16, d / 16 / 16 / 16);
  }

  lemma BodyStep(s: Text, x: Text)
    requires s != []
    ensures QuotedBody(s) + x == Piece(s) + (QuotedBody(s[PieceLength(s)..]) + x)
    ensures Piece(s)[0] != QUOTE
  {}

  /** Text that begins with a quote has an empty body before it. */
  lemma BodyIsEmpty(s: Text, u: Text)
    requires u != [] && u[0] == QUOTE
    ensures (QuotedBody(s) + u)[0] == QUOTE <==> s == []
  {
    if s != [] {
      BodyStep(s, u);
    }
  }

  /** A quoted string ends at its own closing quote and determines the string. */
  lemma {:induction false} BodySplits(s: Text, t: Text, x: Text, y: Text)
    requires QuotedBody(s) + ([QUOTE] + x) == QuotedBody(t) + ([QUOTE] + y)
    ensures s == t && x == y
    decreases |s|
  {
    BodyIsEmpty(s, [QUOTE] + x);
    BodyIsEmpty(t, [QUOTE] + y);
    if s == [] {
      QuoteEnds(x, y);
    } else {
      var k := FirstPieceSplits(s, t, [QUOTE] + x, [QUOTE] + y);
      BodySplits(s[k..], t[k..], x, y);
      assert s == s[..k] + s[k..] && t == t[..k] + t[k..];
    }
  }

  lemma FirstPieceSplits(s: Text, t: Text, u: Text, v: Text) returns (k: nat)
    requires s != [] && t != [] && QuotedBody(s) + u == QuotedBody(t) + v
    ensures 0 < k <= |s| && k <= |t| && s[..k] == t[..k]
    ensures QuotedBody(s[k..]) + u == QuotedBody(t[k..]) + v
  {
    k := PieceLength(s);
    var l := PieceLength(t);
    BodyStep(s, u);
    BodyStep(t, v);
    PieceSplits(s, t, QuotedBody(s[k..]) + u, QuotedBody(t[l..]) + v);
  }

  lemma QuoteEnds(x: Text, y: Text)
    requires QuotedBody([]) + ([QUOTE] + x) == QuotedBody([]) + ([QUOTE] + y)
    ensures x == y
  {
    var u, v := [QUOTE] + x, [QUOTE] + y;
    assert [] + u == u && [] + v == v;
    assert x == u[1..] && y == v[1..];
  }

  lemma QuoteStep(s: Text, x: Text)
    ensures Quote(s) + x == [QUOTE] + (QuotedBody(s) + ([QUOTE] + x))
    ensures (Quote(s) + x)[1..] == QuotedBody(s) + ([QUOTE] + x)
  {}

  lemma QuoteSplits(s: Text, t: Text, x: Text, y: Text)
    requires Quote(s) + x == Quote(t) + y
    ensures s == t && x == y
  {
    QuoteStep(s, x);
    QuoteStep(t, y);
    BodySplits(s, t, x, y);
  }

  // ---- reading a printed value back ----

  /** What may follow a value. */
  predicate Follows(x: Text) {
    x == [] || x[0] == COMMA || x[0] == 93 || x[0] == 125
  }

  lemma PrintFirst(less: (Text, Text) -> bool, j: Json)
    requires WellFormed(j)
    ensures Print(less, j) != [] && !Follows(Print(less, j))
  {}

  lemma JoinStep(parts: seq<Text>, z: Text)
    requires parts != []
    ensures Join(parts) + z == parts[0] + (if |parts| == 1 then z else [COMMA] + (Join(parts[1..]) + z))
  {
    if |parts| > 1 {
      Regroup(parts[0], [COMMA], Join(parts[1..]), z);
    }
  }

  lemma Regroup(a: Text, b: Text, c: Text, z: Text)
    ensures (a + (b + c)) + z == a + (b + (c + z))
  {}

  /** A number ends before the first unit that no number holds. */
  lemma NumberEnds(m: Text, x: Text, i: nat)
    requires IsNumber(m) && i <= |m + x| && (i < |m + x| ==> !IsNumberUnit((m + x)[i]))
    ensures i >= |m|
  {
  }

  lemma NumberSplits(m: Text, n: Text, x: Text, y: Text)
    requires IsNumber(m) && IsNumber(n) && Follows(x) && Follows(y) && m + x == n + y
    ensures m == n && x == y
  {
    var w := m + x;
    NumberEnds(m, x, |n|);
    NumberEnds(n, y, |m|);
    assert m == w[..|m|] && n == w[..|n|] && x == w[|m|..] && y == w[|n|..];
  }

  function ItemParts(less: (Text, Text) -> bool, j: Json): (parts: seq<Text>)
    requires j.Array?
    ensures |parts| == |j.items| && forall i :: 0 <= i < |parts| ==> parts[i] == Print(less, j.items[i])
    ensures Print(less, j) == [91] + (Join(parts) + [93])
  {
    seq(|j.items|, i requires 0 <= i < |j.items| => Print(less, j.items[i]))
  }

  function MemberParts(less: (Text, Text) -> bool, j: Json): (parts: seq<Text>)
    requires j.Object?
    ensures
      var ms := SortedMembers(less, j);
      |parts| == |ms| && forall i :: 0 <= i < |parts| ==> parts[i] == PrintMember(less, ms[i])
    ensures Print(less, j) == [123] + (Join(parts) + [125])
  {
    var ms := SortedMembers(less, j);
    seq(|ms|, i requires 0 <= i < |ms| => PrintMember(less, ms[i]))
  }

  /** What follows the first of the remaining parts of a list closed by `close`. */
  function AfterFirst(parts: seq<Text>, close: Unit, x: Text): Text
    requires parts != []
  {
    if |parts| == 1 then [close] + x else [COMMA] + (Join(parts[1..]) + ([close] + x))
  }

  lemma ListSplits(parts: seq<Text>, close: Unit, x: Text)
    requires parts != [] && (close == 93 || close == 125)
    ensures Join(parts) + ([close] + x) == parts[0] + AfterFirst(parts, close, x)
    ensures Follows(AfterFirst(parts, close, x))
  {
    JoinStep(parts, [close] + x);
  }

  /** Two lists of parts that read the same either both end here or go on in step. */
  lemma PartsInStep(p: seq<Text>, q: seq<Text>, close: Unit, x: Text, y: Text)
    requires p != [] && q != [] && close != COMMA
    requires AfterFirst(p, close, x) == AfterFirst(q, close, y)
    ensures |p| == 1 <==> |q| == 1
    ensures |p| == 1 ==> x == y
    ensures |p| > 1 ==> Join(p[1..]) + ([close] + x) == Join(q[1..]) + ([close] + y)
  {
    var u, v := AfterFirst(p, close, x), AfterFirst(q, close, y);
    assert u[0] == (if |p| == 1 then close else COMMA);
    assert v[0] == (if |q| == 1 then close else COMMA);
    assert u[1..] == (if |p| == 1 then x else Join(p[1..]) + ([close] + x));
    assert v[1..] == (if |q| == 1 then y else Join(q[1..]) + ([close] + y));
  }

  /** An exhausted list and one with parts left do not read the same. */
  lemma ExhaustedInStep(p: seq<Text>, q: seq<Text>, close: Unit, x: Text, y: Text)
    requires Join(p) + ([close] + x) == Join(q) + ([close] + y)
    requires forall i :: 0 <= i < |p| ==> p[i] != [] && p[i][0] != close
    requires forall i :: 0 <= i < |q| ==> q[i] != [] && q[i][0] != close
    ensures p == [] <==> q == []
    ensures p == [] ==> x == y
  {
    var u, v := Join(p) + ([close] + x), Join(q) + ([close] + y);
    if p == [] {
      assert u == [close] + x && u[0] == close && u[1..] == x;
      assert q == [] ==> v == [close] + y && v[1..] == y;
    }
    assert q == [] ==> v[0] == close;
    assert p != [] ==> u[0] == p[0][0];
    assert q != [] ==> v[0] == q[0][0];
  }

  /** The first unit of a text tells the kind of value. */
  lemma FirstTellsKind(less: (Text, Text) -> bool, a: Json, b: Json)
    requires WellFormed(a) && WellFormed(b)
    requires Print(less, a) != [] && Print(less, b) != [] && Print(less, a)[0] == Print(less, b)[0]
    ensures (a.Null? || a.NonFinite?) == (b.Null? || b.NonFinite?)
    ensures a.Bool? == b.Bool? && (a.Bool? ==> a.b == b.b)
    ensures a.Number? == b.Number? && a.String? == b.String? && a.Array? == b.Array? && a.Object? == b.Object?
  {}

  lemma ReadBackScalar(less: (Text, Text) -> bool, a: Json, b: Json, x: Text, y: Text)
    requires WellFormed(a) && WellFormed(b) && Follows(x) && Follows(y)
    requires !a.Array? && !a.Object? && Print(less, a) + x == Print(less, b) + y
    requires Print(less, a)[0] == Print(less, b)[0]
    ensures Meaning(a) == Meaning(b) && x == y
  {
    FirstTellsKind(less, a, b);
    if a.Number? {
      NumberSplits(a.literal, b.literal, x, y);
    } else if a.String? {
      QuoteSplits(a.s, b.s, x, y);
    } else {
      var u, v := Print(less, a) + x, Print(less, b) + y;
      assert Print(less, a) == Print(less, b);
      assert x == u[|Print(less, a)|..] && y == v[|Print(less, b)|..];
    }
  }

  lemma ListOpens(open: Unit, parts: seq<Text>, close: Unit, x: Text)
    ensures ([open] + (Join(parts) + [close]) + x)[1..] == Join(parts) + ([close] + x)
  {}

  /** A printed value, followed by whatever may follow one, determines its meaning and ends
      where it ends. */
  lemma {:induction false} ReadBack(less: (Text, Text) -> bool, a: Json, b: Json, x: Text, y: Text)
    requires WellFormed(a) && WellFormed(b) && Follows(x) && Follows(y)
    requires Print(less, a) + x == Print(less, b) + y
    ensures Meaning(a) == Meaning(b) && x == y
    decreases a, 2, 0
  {
    PrintFirst(less, a);
    PrintFirst(less, b);
    assert (Print(less, a) + x)[0] == Print(less, a)[0] && (Print(less, b) + y)[0] == Print(less, b)[0];
    FirstTellsKind(less, a, b);
    if a.Array? {
      var p, q := ItemParts(less, a), ItemParts(less, b);
      ListOpens(91, p, 93, x);
      ListOpens(91, q, 93, y);
      assert p[0..] == p && q[0..] == q;
      ReadBackItems(less, a, b, 0, x, y);
    } else if a.Object? {
      ReadBackObject(less, a, b, x, y);
      SortedMembersMean(less, a, b);
    } else {
      ReadBackScalar(less, a, b, x, y);
    }
  }

  /** The members of a printed object are read back in their printed order. */
  lemma {:induction false} ReadBackObject(less: (Text, Text) -> bool, a: Json, b: Json, x: Text, y: Text)
    requires a.Object? && b.Object? && WellFormed(a) && WellFormed(b)
    requires Print(less, a) + x == Print(less, b) + y
    ensures AgreeFrom(SortedMembers(less, a), SortedMembers(less, b), 0) && x == y
    decreases a, 1, |a.members| + 1
  {
    var p, q := MemberParts(less, a), MemberParts(less, b);
    ListOpens(123, p, 125, x);
    ListOpens(123, q, 125, y);
    assert p[0..] == p && q[0..] == q;
    ReadBackMembers(less, a, b, 0, x, y);
  }

  lemma ItemPartsAreOpen(less: (Text, Text) -> bool, j: Json, k: nat)
    requires j.Array? && WellFormed(j) && k <= |j.items|
    ensures
      var p := ItemParts(less, j)[k..];
      forall i :: 0 <= i < |p| ==> p[i] != [] && p[i][0] != 93
  {
    var p := ItemParts(less, j)[k..];
    forall i | 0 <= i < |p|
      ensures p[i] != [] && p[i][0] != 93
    {
      PrintFirst(less, j.items[k + i]);
    }
  }

  lemma {:induction false} ReadBackItems(less: (Text, Text) -> bool, a: Json, b: Json, k: nat, x: Text, y: Text)
    requires a.Array? && b.Array? && WellFormed(a) && WellFormed(b)
    requires k <= |a.items| && k <= |b.items|
    requires Join(ItemParts(less, a)[k..]) + ([93] + x) == Join(ItemParts(less, b)[k..]) + ([93] + y)
    ensures |a.items| == |b.items| && x == y
    ensures forall i :: k <= i < |a.items| ==> Meaning(a.items[i]) == Meaning(b.items[i])
    decreases a, 1, |a.items| - k
  {
    ItemsExhausted(less, a, b, k, x, y);
    if k < |a.items| {
      ReadBackItem(less, a, b, k, x, y);
      if k + 1 < |a.items| {
        ReadBackItems(less, a, b, k + 1, x, y);
      }
    }
  }

  lemma ItemsExhausted(less: (Text, Text) -> bool, a: Json, b: Json, k: nat, x: Text, y: Text)
    requires a.Array? && b.Array? && WellFormed(a) && WellFormed(b)
    requires k <= |a.items| && k <= |b.items|
    requires Join(ItemParts(less, a)[k..]) + ([93] + x) == Join(ItemParts(less, b)[k..]) + ([93] + y)
    ensures k == |a.items| <==> k == |b.items|
    ensures k == |a.items| ==> x == y
  {
    ItemPartsAreOpen(less, a, k);
    ItemPartsAreOpen(less, b, k);
    ExhaustedInStep(ItemParts(less, a)[k..], ItemParts(less, b)[k..], 93, x, y);
  }

  /** The `k`-th items agree, and both lists end after them or go on in step. */
  lemma {:induction false} ReadBackItem(less: (Text, Text) -> bool, a: Json, b: Json, k: nat, x: Text, y: Text)
    requires a.Array? && b.Array? && WellFormed(a) && WellFormed(b)
    requires k < |a.items| && k < |b.items|
    requires Join(ItemParts(less, a)[k..]) + ([93] + x) == Join(ItemParts(less, b)[k..]) + ([93] + y)
    ensures Meaning(a.items[k]) == Meaning(b.items[k])
    ensures k + 1 == |a.items| <==> k + 1 == |b.items|
    ensures k + 1 == |a.items| ==> x == y
    ensures k + 1 < |a.items| ==>
      Join(ItemParts(less, a)[k + 1..]) + ([93] + x) == Join(ItemParts(less, b)[k + 1..]) + ([93] + y)
    decreases a, 0, 0
  {
    var p, q := ItemParts(less, a)[k..], ItemParts(less, b)[k..];
    ListSplits(p, 93, x);
    ListSplits(q, 93, y);
    ReadBack(less, a.items[k], b.items[k], AfterFirst(p, 93, x), AfterFirst(q, 93, y));
    PartsInStep(p, q, 93, x, y);
    assert p[1..] == ItemParts(less, a)[k + 1..] && q[1..] == ItemParts(less, b)[k + 1..];
  }

  lemma MemberStep(less: (Text, Text) -> bool, m: (Text, Json), z: Text)
    ensures PrintMember(less, m) + z == Quote(m.0) + ([COLON] + (Print(less, m.1) + z))
    ensures PrintMember(less, m) != [] && PrintMember(less, m)[0] == QUOTE
  {}

  lemma ReadBackMember(less: (Text, Text) -> bool, m: (Text, Json), n: (Text, Json), x: Text, y: Text)
    requires WellFormed(m.1) && WellFormed(n.1) && Follows(x) && Follows(y)
    requires PrintMember(less, m) + x == PrintMember(less, n) + y
    ensures m.0 == n.0 && Meaning(m.1) == Meaning(n.1) && x == y
    decreases m.1, 3, 0
  {
    MemberStep(less, m, x);
    MemberStep(less, n, y);
    var u, v := [COLON] + (Print(less, m.1) + x), [COLON] + (Print(less, n.1) + y);
    QuoteSplits(m.0, n.0, u, v);
    assert u[1..] == Print(less, m.1) + x && v[1..] == Print(less, n.1) + y;
    ReadBack(less, m.1, n.1, x, y);
  }

  lemma SortedMembersAreWellFormed(less: (Text, Text) -> bool, j: Json)
    requires j.Object? && WellFormed(j)
    ensures forall m :: m in SortedMembers(less, j) <==> m in j.members
    ensures forall i :: 0 <= i < |SortedMembers(less, j)| ==> WellFormed(SortedMembers(less, j)[i].1)
  {
    var ms := SortedMembers(less, j);
    SameEntries(ms, j.members);
    forall i | 0 <= i < |ms|
      ensures WellFormed(ms[i].1)
    {
      assert ms[i] in j.members;
    }
  }

  lemma MemberPartsAreQuoted(less: (Text, Text) -> bool, j: Json, k: nat)
    requires j.Object? && k <= |j.members|
    ensures
      var p := MemberParts(less, j)[k..];
      forall i :: 0 <= i < |p| ==> p[i] != [] && p[i][0] == QUOTE
  {
    var ms := SortedMembers(less, j);
    forall i | k <= i < |ms|
      ensures MemberParts(less, j)[i] != [] && MemberParts(less, j)[i][0] == QUOTE
    {
      MemberStep(less, ms[i], []);
    }
  }

  /** From the `k`-th member on, both lists have the same names and meanings. */
  ghost predicate AgreeFrom(ms: seq<(Text, Json)>, ns: seq<(Text, Json)>, k: nat) {
    |ms| == |ns| && forall i :: k <= i < |ms| ==> ms[i].0 == ns[i].0 && Meaning(ms[i].1) == Meaning(ns[i].1)
  }

  lemma {:induction false} ReadBackMembers(less: (Text, Text) -> bool, a: Json, b: Json, k: nat, x: Text, y: Text)
    requires a.Object? && b.Object? && WellFormed(a) && WellFormed(b)
    requires k <= |a.members| && k <= |b.members|
    requires Join(MemberParts(less, a)[k..]) + ([125] + x) == Join(MemberParts(less, b)[k..]) + ([125] + y)
    ensures AgreeFrom(SortedMembers(less, a), SortedMembers(less, b), k) && x == y
    decreases a, 1, |a.members| - k
  {
    MembersExhausted(less, a, b, k, x, y);
    if k < |a.members| {
      ReadBackNext(less, a, b, k, x, y);
      if k + 1 < |a.members| {
        ReadBackMembers(less, a, b, k + 1, x, y);
      }
      AgreeOneMore(SortedMembers(less, a), SortedMembers(less, b), k);
    }
  }

  lemma MembersExhausted(less: (Text, Text) -> bool, a: Json, b: Json, k: nat, x: Text, y: Text)
    requires a.Object? && b.Object? && k <= |a.members| && k <= |b.members|
    requires Join(MemberParts(less, a)[k..]) + ([125] + x) == Join(MemberParts(less, b)[k..]) + ([125] + y)
    ensures k == |a.members| <==> k == |b.members|
    ensures k == |a.members| ==> x == y
  {
    MemberPartsAreQuoted(less, a, k);
    MemberPartsAreQuoted(less, b, k);
    ExhaustedInStep(MemberParts(less, a)[k..], MemberParts(less, b)[k..], 125, x, y);
  }

  lemma AgreeOneMore(ms: seq<(Text, Json)>, ns: seq<(Text, Json)>, k: nat)
    requires k < |ms| == |ns| && ms[k].0 == ns[k].0 && Meaning(ms[k].1) == Meaning(ns[k].1)
    requires k + 1 < |ms| ==> AgreeFrom(ms, ns, k + 1)
    ensures AgreeFrom(ms, ns, k)
  {}

  /** The `k`-th members agree, and both lists end after them or go on in step. */
  lemma {:induction false} ReadBackNext(less: (Text, Text) -> bool, a: Json, b: Json, k: nat, x: Text, y: Text)
    requires a.Object? && b.Object? && WellFormed(a) && WellFormed(b)
    requires k < |a.members| && k < |b.members|
    requires Join(MemberParts(less, a)[k..]) + ([125] + x) == Join(MemberParts(less, b)[k..]) + ([125] + y)
    ensures SortedMembers(less, a)[k].0 == SortedMembers(less, b)[k].0
    ensures Meaning(SortedMembers(less, a)[k].1) == Meaning(SortedMembers(less, b)[k].1)
    ensures k + 1 == |a.members| <==> k + 1 == |b.members|
    ensures k + 1 == |a.members| ==> x == y
    ensures k + 1 < |a.members| ==>
      Join(MemberParts(less, a)[k + 1..]) + ([125] + x) == Join(MemberParts(less, b)[k + 1..]) + ([125] + y)
    decreases a, 0, 0
  {
    var p, q := MemberParts(less, a)[k..], MemberParts(less, b)[k..];
    SortedMembersAreWellFormed(less, a);
    SortedMembersAreWellFormed(less, b);
    ListSplits(p, 125, x);
    ListSplits(q, 125, y);
    ReadBackMember(less, SortedMembers(less, a)[k], SortedMembers(less, b)[k], AfterFirst(p, 125, x),
      AfterFirst(q, 125, y));
    PartsInStep(p, q, 125, x, y);
    assert p[1..] == MemberParts(less, a)[k + 1..] && q[1..] == MemberParts(less, b)[k + 1..];
  }

  lemma MemberMeaning(ms: seq<(Text, Json)>, m: (Text, Json))
    requires DistinctNames(ms) && m in ms
    ensures m.0 in NameSet(ms) && ms[Lookup(ms, m.0)] == m
  {
    var i :| 0 <= i < |ms| && ms[i] == m;
    assert ms[Lookup(ms, m.0)].0 == ms[i].0;
  }

  /** `v` holds exactly the named meanings of `ms`. */
  ghost predicate Denotes(ms: seq<(Text, Json)>, v: map<Text, Value>) {
    && (forall i :: 0 <= i < |ms| ==> ms[i].0 in v && v[ms[i].0] == Meaning(ms[i].1))
    && (forall name :: name in v ==> exists i :: 0 <= i < |ms| && ms[i].0 == name)
  }

  /** The meaning of an object, read off its sorted members. */
  lemma SortedMembersDenote(less: (Text, Text) -> bool, j: Json)
    requires j.Object? && WellFormed(j)
    ensures Denotes(SortedMembers(less, j), Meaning(j).members)
  {
    var ms, v := SortedMembers(less, j), Meaning(j).members;
    SameEntries(ms, j.members);
    forall i | 0 <= i < |ms|
      ensures ms[i].0 in v && v[ms[i].0] == Meaning(ms[i].1)
    {
      assert ms[i] in ms;
      MemberMeaning(j.members, ms[i]);
    }
    forall name | name in v
      ensures exists i :: 0 <= i < |ms| && ms[i].0 == name
    {
      var m :| m in j.members && m.0 == name;
      assert m in ms;
    }
  }

  lemma SameMap(ms: seq<(Text, Json)>, ns: seq<(Text, Json)>, v: map<Text, Value>, w: map<Text, Value>)
    requires AgreeFrom(ms, ns, 0) && Denotes(ms, v) && Denotes(ns, w)
    ensures v == w
  {
    SubMap(ms, ns, v, w);
    SubMap(ns, ms, w, v);
  }

  lemma SubMap(ms: seq<(Text, Json)>, ns: seq<(Text, Json)>, v: map<Text, Value>, w: map<Text, Value>)
    requires AgreeFrom(ms, ns, 0) && Denotes(ms, v) && Denotes(ns, w)
    ensures forall name :: name in v ==> name in w && v[name] == w[name]
  {
    forall name | name in v
      ensures name in w && v[name] == w[name]
    {
      var i :| 0 <= i < |ms| && ms[i].0 == name;
      assert ns[i].0 == name;
    }
  }

  /** Objects whose sorted members agree name by name denote the same object. */
  lemma SortedMembersMean(less: (Text, Text) -> bool, a: Json, b: Json)
    requires a.Object? && b.Object? && WellFormed(a) && WellFormed(b)
    requires AgreeFrom(SortedMembers(less, a), SortedMembers(less, b), 0)
    ensures Meaning(a) == Meaning(b)
  {
    SortedMembersDenote(less, a);
    SortedMembersDenote(less, b);
    SameMap(SortedMembers(less, a), SortedMembers(less, b), Meaning(a).members, Meaning(b).members);
  }

  /** Equal meanings print the same text, whatever the property order. */
  lemma {:induction false} PrintRespectsMeaning(less: (Text, Text) -> bool, a: Json, b: Json)
    requires WellFormed(a) && WellFormed(b) && Ordered(less, a) && Ordered(less, b) && Meaning(a) == Meaning(b)
    ensures Print(less, a) == Print(less, b)
    decreases a
  {
    if a.Array? {
      var p, q := ItemParts(less, a), ItemParts(less, b);
      assert |a.items| == |Meaning(a).items| == |Meaning(b).items| == |b.items|;
      forall i | 0 <= i < |p|
        ensures p[i] == q[i]
      {
        assert Meaning(a).items[i] == Meaning(b).items[i];
        PrintRespectsMeaning(less, a.items[i], b.items[i]);
      }
      assert p == q;
    } else if a.Object? {
      var ms, ns := SortedMembers(less, a), SortedMembers(less, b);
      var p, q := MemberParts(less, a), MemberParts(less, b);
      SortedMembersAgree(less, a, b);
      SortedMembersAreWellFormed(less, a);
      SortedMembersAreWellFormed(less, b);
      SortedMembersAreOrdered(less, a);
      SortedMembersAreOrdered(less, b);
      forall i | 0 <= i < |p|
        ensures p[i] == q[i]
      {
        PrintRespectsMeaning(less, ms[i].1, ns[i].1);
      }
      assert p == q;
    }
  }

  lemma SortedMembersAreOrdered(less: (Text, Text) -> bool, j: Json)
    requires j.Object? && Ordered(less, j)
    ensures forall i :: 0 <= i < |SortedMembers(less, j)| ==> Ordered(less, SortedMembers(less, j)[i].1)
  {
    var ms := SortedMembers(less, j);
    SameEntries(ms, j.members);
    forall i | 0 <= i < |ms|
      ensures Ordered(less, ms[i].1)
    {
      assert ms[i] in j.members;
    }
  }

  lemma SortedNamesAgree(less: (Text, Text) -> bool, a: Json, b: Json)
    requires a.Object? && b.Object? && WellFormed(a) && WellFormed(b) && NameSet(a.members) == NameSet(b.members)
    requires StrictTotal(less, NameSet(a.members))
    ensures Names(SortedMembers(less, a)) == Names(SortedMembers(less, b))
  {
    SameEntries(SortedMembers(less, a), a.members);
    SameEntries(SortedMembers(less, b), b.members);
    SortSorts(less, a.members);
    SortSorts(less, b.members);
    SortedIsUnique(less, SortedMembers(less, a), SortedMembers(less, b), NameSet(a.members));
  }

  lemma SortedMembersAgree(less: (Text, Text) -> bool, a: Json, b: Json)
    requires a.Object? && b.Object? && WellFormed(a) && WellFormed(b) && Meaning(a) == Meaning(b)
    requires StrictTotal(less, NameSet(a.members))
    ensures AgreeFrom(SortedMembers(less, a), SortedMembers(less, b), 0)
  {
    var ms, ns := SortedMembers(less, a), SortedMembers(less, b);
    assert NameSet(a.members) == Meaning(a).members.Keys == Meaning(b).members.Keys == NameSet(b.members);
    SortedNamesAgree(less, a, b);
    SortedMembersDenote(less, a);
    SortedMembersDenote(less, b);
    forall i | 0 <= i < |ms|
      ensures ms[i].0 == ns[i].0 && Meaning(ms[i].1) == Meaning(ns[i].1)
    {
      assert Names(ms)[i] == Names(ns)[i];
    }
  }

  /** The text determines the value, whatever the comparison. */
  lemma TextDeterminesMeaning(less: (Text, Text) -> bool, a: Json, b: Json)
    requires WellFormed(a) && WellFormed(b) && Print(less, a) == Print(less, b)
    ensures Meaning(a) == Meaning(b)
  {
    ReadBack(less, a, b, [], []);
  }

  /** Two trees print the same text exactly when they are equal up to the order of object
      members, a non-finite number counting as null. */
  lemma TextIsFaithful(less: (Text, Text) -> bool, a: Json, b: Json)
    requires WellFormed(a) && WellFormed(b) && Ordered(less, a) && Ordered(less, b)
    ensures Print(less, a) == Print(less, b) <==> Meaning(a) == Meaning(b)
  {
    if Print(less, a) == Print(less, b) {
      TextDeterminesMeaning(less, a, b);
    }
    if Meaning(a) == Meaning(b) {
      PrintRespectsMeaning(less, a, b);
    }
  }

  /** An object prints the same for every order of its members exactly when the comparison ties on
      no two of its keys. */
  lemma ObjectForgetsOrderExactlyWhen(less: (Text, Text) -> bool, ms: seq<(Text, Json)>)
    requires WellFormed(Object(ms)) && Consistent(less, NameSet(ms))
    ensures
      (forall ns :: Reorders(ns, ms) ==> Print(less, Object(ns)) == Print(less, Object(ms)))
        <==> StrictTotal(less, NameSet(ms))
  {
    SortForgetsOrderExactlyWhen(less, ms);
    forall ns | Reorders(ns, ms)
      ensures Print(less, Object(ns)) == Print(less, Object(ms)) <==> SortByName(less, ns) == SortByName(less, ms)
    {
      SameTextSameSort(less, ns, ms);
    }
  }

  lemma SameTextSameSort(less: (Text, Text) -> bool, ns: seq<(Text, Json)>, ms: seq<(Text, Json)>)
    requires WellFormed(Object(ms)) && Reorders(ns, ms)
    ensures Print(less, Object(ns)) == Print(less, Object(ms)) <==> SortByName(less, ns) == SortByName(less, ms)
  {
    var a, b := Object(ns), Object(ms);
    assert WellFormed(a) by {
      forall i | 0 <= i < |ns|
        ensures WellFormed(ns[i].1)
      {
        assert ns[i] in ms;
      }
    }
    var s, t := SortedMembers(less, a), SortedMembers(less, b);
    if s == t {
      assert MemberParts(less, a) == MemberParts(less, b);
    }
    if Print(less, a) == Print(less, b) {
      ReadBackObject(less, a, b, [], []);
      SameEntries(s, ns);
      SameEntries(t, ms);
      assert Names(s) == Names(t);
      SameNamesSameEntries(s, t, ms);
    }
  }

  /** The one loss: a NaN or an infinity becomes indistinguishable from null. */
  lemma NonFiniteIsLost(less: (Text, Text) -> bool)
    ensures Print(less, NonFinite) == Print(less, Null) && NonFinite != Null
  {}
}
