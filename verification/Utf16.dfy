/** JavaScript strings as sequences of Unicode scalar values: what `hash.update` encodes. */
module Utf16 {
  import opened CanonicalJson

  /** Surrogates come in pairs. */
  predicate Paired(t: Text) {
    t == [] || (if PieceLength(t) == 2 then Paired(t[2..]) else !IsLead(t[0]) && !IsTrail(t[0]) && Paired(t[1..]))
  }

  function PairValue(lead: Unit, trail: Unit): (c: char)
    requires IsLead(lead) && IsTrail(trail)
    ensures c as int == 0x10000 + (lead - 0xD800) * 0x400 + (trail - 0xDC00)
  {
    (0x10000 + (lead - 0xD800) * 0x400 + (trail - 0xDC00)) as char
  }

  function UnitValue(c: Unit): char {
    if IsLead(c) || IsTrail(c) then '\U{FFFD}' else c as char
  }

  /** The scalar values of a string; a lone surrogate becomes a replacement character. */
  function Scalars(t: Text): string {
    if t == [] then []
    else if PieceLength(t) == 2 then [PairValue(t[0], t[1])] + Scalars(t[2..])
    else [UnitValue(t[0])] + Scalars(t[1..])
  }

  /** Without lone surrogates nothing is lost. */
  lemma {:induction false} ScalarsInjective(s: Text, t: Text)
    requires Paired(s) && Paired(t) && Scalars(s) == Scalars(t)
    ensures s == t
    decreases |s|
  {
    if s == [] {
      assert t == [];
    } else {
      assert t != [];
      FirstScalar(s);
      FirstScalar(t);
      var k := PieceLength(s);
      assert Scalars(s)[0] == Scalars(t)[0] && Scalars(s)[1..] == Scalars(t)[1..];
      FirstInjective(s, t);
      ScalarsInjective(s[k..], t[k..]);
      assert s == s[..k] + s[k..] && t == t[..k] + t[k..];
    }
  }

  lemma FirstScalar(t: Text)
    requires t != []
    ensures Scalars(t) != [] && Scalars(t)[1..] == Scalars(t[PieceLength(t)..])
    ensures Scalars(t)[0] == if PieceLength(t) == 2 then PairValue(t[0], t[1]) else UnitValue(t[0])
  {}

  lemma FirstInjective(s: Text, t: Text)
    requires s != [] && t != [] && Paired(s) && Paired(t) && Scalars(s)[0] == Scalars(t)[0]
    ensures PieceLength(s) == PieceLength(t) && s[..PieceLength(s)] == t[..PieceLength(t)]
  {
    FirstScalar(s);
    FirstScalar(t);
    if PieceLength(s) == 2 && PieceLength(t) == 2 {
      PairInjective(s[0], s[1], t[0], t[1]);
      assert s[..2] == [s[0], s[1]] && t[..2] == [t[0], t[1]];
    } else if PieceLength(s) == PieceLength(t) {
      assert s[..1] == [s[0]] && t[..1] == [t[0]];
    }
  }

  lemma PairInjective(a: Unit, b: Unit, c: Unit, d: Unit)
    requires IsLead(a) && IsTrail(b) && IsLead(c) && IsTrail(d) && PairValue(a, b) == PairValue(c, d)
    ensures a == c && b == d
  {}

  lemma {:induction false} PairedAppends(a: Text, b: Text)
    requires Paired(a) && Paired(b)
    ensures Paired(a + b)
    decreases |a|
  {
    if a == [] {
      assert a + b == b;
    } else {
      var k := PieceLength(a);
      PairedAppends(a[k..], b);
      assert (a + b)[k..] == a[k..] + b;
    }
  }

  // ---- printed JSON has no lone surrogates ----

  lemma PlainIsPaired(t: Text)
    requires forall i :: 0 <= i < |t| ==> !IsLead(t[i]) && !IsTrail(t[i])
    ensures Paired(t)
  {
    if t != [] {
      PlainIsPaired(t[1..]);
    }
  }

  lemma PieceIsPaired(s: Text)
    requires s != []
    ensures Paired(Piece(s))
  {
    if PieceLength(s) == 2 && ShortEscape(s[0]) == [] {
      assert Piece(s)[2..] == [];
    } else {
      PlainIsPaired(Piece(s));
    }
  }

  lemma {:induction false} BodyIsPaired(s: Text)
    ensures Paired(QuotedBody(s))
    decreases |s|
  {
    if s != [] {
      PieceIsPaired(s);
      BodyIsPaired(s[PieceLength(s)..]);
      PairedAppends(Piece(s), QuotedBody(s[PieceLength(s)..]));
    }
  }

  lemma Around(open: Text, body: Text, close: Text)
    requires Paired(open) && Paired(body) && Paired(close)
    ensures Paired(open + (body + close))
  {
    PairedAppends(body, close);
    PairedAppends(open, body + close);
  }

  lemma QuoteIsPaired(s: Text)
    ensures Paired(Quote(s))
  {
    BodyIsPaired(s);
    PlainIsPaired([QUOTE]);
    Around([QUOTE], QuotedBody(s), [QUOTE]);
  }

  lemma {:induction false} JoinIsPaired(parts: seq<Text>)
    requires forall i :: 0 <= i < |parts| ==> Paired(parts[i])
    ensures Paired(Join(parts))
    decreases |parts|
  {
    if |parts| > 1 {
      JoinIsPaired(parts[1..]);
      PlainIsPaired([COMMA]);
      Around(parts[0], [COMMA], Join(parts[1..]));
    }
  }

  lemma ListIsPaired(open: Unit, parts: seq<Text>, close: Unit)
    requires forall i :: 0 <= i < |parts| ==> Paired(parts[i])
    requires open < 0xD800 && close < 0xD800
    ensures Paired([open] + (Join(parts) + [close]))
  {
    JoinIsPaired(parts);
    PlainIsPaired([open]);
    PlainIsPaired([close]);
    Around([open], Join(parts), [close]);
  }

  /** Printed JSON has no lone surrogates, whatever its strings hold. */
  lemma {:induction false} PrintIsPaired(less: (Text, Text) -> bool, j: Json)
    requires WellFormed(j)
    ensures Paired(Print(less, j))
    decreases j
  {
    match j {
      case String(s) => QuoteIsPaired(s);
      case Array(items) =>
        forall i | 0 <= i < |items| ensures Paired(Print(less, items[i])) { PrintIsPaired(less, items[i]); }
        ListIsPaired(91, ItemParts(less, j), 93);
      case Object(_) =>
        var ms := SortedMembers(less, j);
        SortedMembersAreWellFormed(less, j);
        forall i | 0 <= i < |ms| ensures Paired(PrintMember(less, ms[i])) {
          PrintIsPaired(less, ms[i].1);
          MemberIsPaired(less, ms[i]);
        }
        ListIsPaired(123, MemberParts(less, j), 125);
      case _ => PlainIsPaired(Print(less, j));
    }
  }

  lemma MemberIsPaired(less: (Text, Text) -> bool, m: (Text, Json))
    requires Paired(Print(less, m.1))
    ensures Paired(PrintMember(less, m))
  {
    QuoteIsPaired(m.0);
    PlainIsPaired([COLON]);
    Around(Quote(m.0), [COLON], Print(less, m.1));
  }

  /** The scalar values of printed JSON still determine the text. */
  lemma PrintedIsInjective(less: (Text, Text) -> bool, a: Json, b: Json)
    requires WellFormed(a) && WellFormed(b) && Scalars(Print(less, a)) == Scalars(Print(less, b))
    ensures Print(less, a) == Print(less, b)
  {
    PrintIsPaired(less, a);
    PrintIsPaired(less, b);
    ScalarsInjective(Print(less, a), Print(less, b));
  }

  /** What is hashed of a printed tree determines its value, and is determined by it where the
      comparison orders its keys. */
  lemma HashedTextIsFaithful(less: (Text, Text) -> bool, a: Json, b: Json)
    requires WellFormed(a) && WellFormed(b)
    ensures Scalars(Print(less, a)) == Scalars(Print(less, b)) ==> Meaning(a) == Meaning(b)
    ensures Ordered(less, a) && Ordered(less, b) && Meaning(a) == Meaning(b) ==>
      Scalars(Print(less, a)) == Scalars(Print(less, b))
  {
    if Scalars(Print(less, a)) == Scalars(Print(less, b)) {
      PrintedIsInjective(less, a, b);
      TextDeterminesMeaning(less, a, b);
    }
    if Ordered(less, a) && Ordered(less, b) && Meaning(a) == Meaning(b) {
      PrintRespectsMeaning(less, a, b);
    }
  }

  // ---- only what has to be is escaped ----

  /** Neither a quote, a backslash nor a control unit. */
  ghost predicate Plain(t: Text) {
    forall c :: c in t ==> c >= 32 && c != 34 && c != 92
  }

  /** A piece is kept as it stands, or grows. */
  lemma PieceGrows(s: Text)
    requires s != []
    ensures
      var n := PieceLength(s);
      && |Piece(s)| >= n
      && (|Piece(s)| == n <==> Piece(s) == s[..n])
      && (Piece(s) == s[..n] <==> s[0] >= 32 && s[0] != 34 && s[0] != 92 && (n == 2 || !(IsLead(s[0]) || IsTrail(s[0]))))
  {
    assert |s[..PieceLength(s)]| == PieceLength(s);
  }

  lemma {:induction false} EscapesOnlyLengthen(s: Text)
    ensures |QuotedBody(s)| >= |s|
    decreases |s|
  {
    if s != [] {
      PieceGrows(s);
      EscapesOnlyLengthen(s[PieceLength(s)..]);
    }
  }

  lemma PlainSplits(s: Text, n: nat)
    requires n == 1 <= |s| || (n == 2 <= |s| && IsTrail(s[1]))
    ensures Plain(s) <==> s[0] >= 32 && s[0] != 34 && s[0] != 92 && Plain(s[n..])
  {
    assert forall c :: c in s[n..] ==> c in s;
    assert s[0] in s;
    if Plain(s[n..]) && s[0] >= 32 && s[0] != 34 && s[0] != 92 {
      forall c | c in s
        ensures c >= 32 && c != 34 && c != 92
      {
        var i :| 0 <= i < |s| && s[i] == c;
        if i >= n {
          assert s[n..][i - n] == c;
          assert c in s[n..];
        }
      }
    }
  }

  lemma QuotedStep(s: Text)
    requires s != []
    ensures
      var n := PieceLength(s);
      QuotedBody(s) == s <==> Piece(s) == s[..n] && QuotedBody(s[n..]) == s[n..]
  {
    var n := PieceLength(s);
    var rest := s[n..];
    PieceGrows(s);
    EscapesOnlyLengthen(rest);
    assert s == s[..n] + rest;
    if QuotedBody(s) == s {
      assert |Piece(s)| + |QuotedBody(rest)| == n + |rest|;
      assert QuotedBody(rest) == s[n..];
    }
  }

  /** A string is quoted as it stands exactly when its surrogates are paired and it holds neither a
      quote, a backslash nor a control unit. */
  lemma {:induction false} QuotedAsItselfExactlyWhen(s: Text)
    ensures QuotedBody(s) == s <==> Paired(s) && Plain(s)
    decreases |s|
  {
    if s != [] {
      QuotedStep(s);
      PieceGrows(s);
      PlainSplits(s, PieceLength(s));
      QuotedAsItselfExactlyWhen(s[PieceLength(s)..]);
    }
  }

  /** One unit takes one unit, or two when it has a letter of its own, or six. */
  lemma EscapeLength(c: Unit)
    ensures |QuotedBody([c])| ==
      if c in {8, 9, 10, 12, 13, 34, 92} then 2 else if c < 32 || 0xD800 <= c < 0xE000 then 6 else 1
  {
    assert [c][1..] == [];
  }
}
