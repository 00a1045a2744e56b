/** A reader of JSON text after RFC 8259, on UTF-16 code units, and the proof that it reads back what
    `stableStringify` prints. It accepts no insignificant whitespace, of which none is printed, and
    takes a number for the longest run of the characters that numbers are written in. */
module JsonReader {
  import opened Common
  import opened NameOrder
  import opened CanonicalJson

  // ---- strings, section 7 ----

  function HexValue(c: Unit): Option<int> {
    if '0' as int <= c <= '9' as int then Some(c - '0' as int)
    else if 'a' as int <= c <= 'f' as int then Some(c - 'a' as int + 10)
    else if 'A' as int <= c <= 'F' as int then Some(c - 'A' as int + 10)
    else None
  }

  /** The unit that four hexadecimal digits stand for. */
  function FourDigits(t: Text): Option<Unit>
    requires |t| == 4
  {
    var a, b, c, d := HexValue(t[0]), HexValue(t[1]), HexValue(t[2]), HexValue(t[3]);
    if a.None? || b.None? || c.None? || d.None? then None
    else
      var n := 4096 * a.value + 256 * b.value + 16 * c.value + d.value;
      if 0 <= n < 0x10000 then Some(n) else None
  }

  /** The unit that a letter stands for behind a backslash. */
  function Unescaped(c: Unit): Option<Unit> {
    if c == '\"' as int || c == '\\' as int || c == '/' as int then Some(c)
    else if c == 'b' as int then Some(0x08)
    else if c == 'f' as int then Some(0x0C)
    else if c == 'n' as int then Some(0x0A)
    else if c == 'r' as int then Some(0x0D)
    else if c == 't' as int then Some(0x09)
    else None
  }

  function Before(c: Unit, r: Option<(Text, Text)>): Option<(Text, Text)> {
    if r.None? then None else Some(([c] + r.value.0, r.value.1))
  }

  /** The string up to its closing quotation mark, and what follows. */
  function ReadString(t: Text): (r: Option<(Text, Text)>)
    ensures r.Some? ==> |r.value.1| < |t|
    decreases |t|
  {
    if t == [] then None
    else if t[0] == '\"' as int then Some(([], t[1..]))
    else if t[0] == '\\' as int then
      if |t| < 2 then None
      else if t[1] == 'u' as int then
        if |t| < 6 || FourDigits(t[2..6]).None? then None else Before(FourDigits(t[2..6]).value, ReadString(t[6..]))
      else if Unescaped(t[1]).None? then None
      else Before(Unescaped(t[1]).value, ReadString(t[2..]))
    else if t[0] < 0x20 then None
    else Before(t[0], ReadString(t[1..]))
  }

  // ---- values, sections 3 to 6 ----

  predicate IsDigit(c: Unit) {
    '0' as int <= c <= '9' as int
  }

  /** How many of the first units may stand in a number. */
  function NumberLength(t: Text): (n: nat)
    ensures n <= |t|
  {
    if t == [] then 0
    else if IsDigit(t[0]) || t[0] in {'-' as int, '+' as int, '.' as int, 'e' as int, 'E' as int}
    then 1 + NumberLength(t[1..]) else 0
  }

  function ReadValue(t: Text): (r: Option<(Value, Text)>)
    ensures r.Some? ==> |r.value.1| < |t|
    decreases |t|, 0
  {
    if t == [] then None
    else if t[0] == '{' as int then
      if |t| > 1 && t[1] == '}' as int then Some((ObjectValue(map[]), t[2..]))
      else
        var ms := ReadMembers(t[1..]);
        if ms.None? then None else Some((ObjectValue(ms.value.0), ms.value.1))
    else if t[0] == '[' as int then
      if |t| > 1 && t[1] == ']' as int then Some((ArrayValue([]), t[2..]))
      else
        var vs := ReadElements(t[1..]);
        if vs.None? then None else Some((ArrayValue(vs.value.0), vs.value.1))
    else if t[0] == '\"' as int then
      var s := ReadString(t[1..]);
      if s.None? then None else Some((StringValue(s.value.0), s.value.1))
    else if Units("true") <= t then Some((BoolValue(true), t[4..]))
    else if Units("false") <= t then Some((BoolValue(false), t[5..]))
    else if Units("null") <= t then Some((NullValue, t[4..]))
    else if IsDigit(t[0]) || t[0] == '-' as int then
      Some((NumberValue(t[..NumberLength(t)]), t[NumberLength(t)..]))
    else None
  }

  /** The elements of an array up to its closing bracket. */
  function ReadElements(t: Text): (r: Option<(seq<Value>, Text)>)
    ensures r.Some? ==> |r.value.1| < |t|
    decreases |t|, 1
  {
    var v := ReadValue(t);
    if v.None? || v.value.1 == [] then None
    else if v.value.1[0] == ']' as int then Some(([v.value.0], v.value.1[1..]))
    else if v.value.1[0] == ',' as int then
      var vs := ReadElements(v.value.1[1..]);
      if vs.None? then None else Some(([v.value.0] + vs.value.0, vs.value.1))
    else None
  }

  /** The members of an object up to its closing brace; of equal names the last counts. */
  function ReadMembers(t: Text): (r: Option<(map<Text, Value>, Text)>)
    ensures r.Some? ==> |r.value.1| < |t|
    decreases |t|, 1
  {
    if t == [] || t[0] != '\"' as int then None
    else
      var name := ReadString(t[1..]);
      if name.None? || name.value.1 == [] || name.value.1[0] != ':' as int then None
      else
        var v := ReadValue(name.value.1[1..]);
        if v.None? || v.value.1 == [] then None
        else if v.value.1[0] == '}' as int then Some((map[name.value.0 := v.value.0], v.value.1[1..]))
        else if v.value.1[0] == ',' as int then
          var ms := ReadMembers(v.value.1[1..]);
          if ms.None? then None else Some((map[name.value.0 := v.value.0] + ms.value.0, ms.value.1))
        else None
  }

  /** The value of a whole text. */
  function Read(t: Text): Option<Value> {
    var r := ReadValue(t);
    if r.Some? && r.value.1 == [] then Some(r.value.0) else None
  }

  // ---- strings are read back ----

  lemma HexDigitIsRead(d: int)
    requires 0 <= d < 16
    ensures HexValue(HexDigit(d)) == Some(d)
  {}

  lemma DigitsOf(c: Unit)
    ensures c == 4096 * (c / 16 / 16 / 16) + 256 * (c / 16 / 16 % 16) + 16 * (c / 16 % 16) + c % 16
    ensures 0 <= c / 16 / 16 / 16 < 16
  {}

  lemma EscapeIsRead(c: Unit, x: Text)
    ensures ReadString(UnicodeEscape(c) + x) == Before(c, ReadString(x))
  {
    var t := UnicodeEscape(c) + x;
    var digits := UnicodeEscape(c)[2..6];
    DigitsOf(c);
    HexDigitIsRead(c / 16 / 16 / 16);
    HexDigitIsRead(c / 16 / 16 % 16);
    HexDigitIsRead(c / 16 % 16);
    HexDigitIsRead(c % 16);
    assert t[2..6] == digits && t[6..] == x;
    assert FourDigits(digits) == Some(c);
  }

  lemma LetterIsRead(e: Unit, x: Text)
    requires Unescaped(e).Some?
    ensures ReadString([BACKSLASH, e] + x) == Before(Unescaped(e).value, ReadString(x))
  {
    assert ([BACKSLASH, e] + x)[2..] == x;
  }

  lemma LetterStandsFor(c: Unit)
    requires ShortEscape(c) != []
    ensures |ShortEscape(c)| == 1 && Unescaped(ShortEscape(c)[0]) == Some(c)
  {
  }

  lemma ShortIsRead(c: Unit, x: Text)
    requires ShortEscape(c) != []
    ensures ReadString([BACKSLASH] + ShortEscape(c) + x) == Before(c, ReadString(x))
  {
    LetterStandsFor(c);
    LetterIsRead(ShortEscape(c)[0], x);
    assert [BACKSLASH] + ShortEscape(c) == [BACKSLASH, ShortEscape(c)[0]];
  }

  lemma PlainIsRead(c: Unit, x: Text)
    requires c >= 32 && c != QUOTE && c != BACKSLASH
    ensures ReadString([c] + x) == Before(c, ReadString(x))
  {
    assert ([c] + x)[1..] == x;
  }

  /** A piece of quoted text is read as the units it stands for. */
  lemma PieceIsRead(s: Text, x: Text)
    requires s != []
    ensures
      ReadString(Piece(s) + x) ==
        if PieceLength(s) == 1 then Before(s[0], ReadString(x)) else Before(s[0], Before(s[1], ReadString(x)))
  {
    var c := s[0];
    if ShortEscape(c) != [] {
      ShortIsRead(c, x);
    } else if PieceLength(s) == 2 {
      assert s[..2] + x == [c] + ([s[1]] + x);
      PlainIsRead(c, [s[1]] + x);
      PlainIsRead(s[1], x);
    } else if c < 32 || IsLead(c) || IsTrail(c) {
      EscapeIsRead(c, x);
    } else {
      PlainIsRead(c, x);
    }
  }

  /** The units of a piece and what was read behind them make up the string. */
  lemma PieceJoins(s: Text, x: Text)
    requires s != []
    ensures
      var read := Some((s[PieceLength(s)..], x));
      Some((s, x)) == if PieceLength(s) == 1 then Before(s[0], read) else Before(s[0], Before(s[1], read))
  {
    assert s == [s[0]] + s[1..];
    if PieceLength(s) == 2 {
      assert s == [s[0]] + ([s[1]] + s[2..]);
    }
  }

  lemma BodySplit(s: Text, y: Text)
    requires s != []
    ensures QuotedBody(s) + y == Piece(s) + (QuotedBody(s[PieceLength(s)..]) + y)
  {
  }

  /** Quoted text is read back to its closing quote. */
  lemma {:induction false} BodyIsRead(s: Text, x: Text)
    ensures ReadString(QuotedBody(s) + ([QUOTE] + x)) == Some((s, x))
    decreases |s|
  {
    if s == [] {
      assert QuotedBody(s) + ([QUOTE] + x) == [QUOTE] + x && ([QUOTE] + x)[1..] == x;
    } else {
      var tail := s[PieceLength(s)..];
      BodyIsRead(tail, x);
      BodySplit(s, [QUOTE] + x);
      PieceIsRead(s, QuotedBody(tail) + ([QUOTE] + x));
      PieceJoins(s, x);
    }
  }

  lemma QuoteIsRead(s: Text, x: Text)
    ensures (Quote(s) + x)[0] == QUOTE && ReadString((Quote(s) + x)[1..]) == Some((s, x))
  {
    QuoteStep(s, x);
    BodyIsRead(s, x);
  }

  // ---- values are read back ----

  lemma {:induction false} NumberIsRead(n: Text, x: Text)
    requires (forall i :: 0 <= i < |n| ==> IsNumberUnit(n[i])) && Follows(x)
    ensures NumberLength(n + x) == |n|
  {
    if n == [] {
      assert n + x == x;
    } else {
      assert (n + x)[1..] == n[1..] + x;
      NumberIsRead(n[1..], x);
    }
  }

  /** A literal name is read as what it stands for. */
  lemma WordIsRead(j: Json, x: Text)
    requires j.Bool? || j.Null? || j.NonFinite?
    ensures
      var p := if j.Bool? then if j.b then Units("true") else Units("false") else Units("null");
      ReadValue(p + x) == Some((Meaning(j), x))
  {
    var p := if j.Bool? then if j.b then Units("true") else Units("false") else Units("null");
    var t := p + x;
    assert t[|p|..] == x && t[..|p|] == p;
  }

  lemma NumberValueIsRead(n: Text, x: Text)
    requires IsNumber(n) && Follows(x)
    ensures ReadValue(n + x) == Some((NumberValue(n), x))
  {
    var t := n + x;
    assert t[|n|..] == x && t[..|n|] == n;
    NumberIsRead(n, x);
  }

  lemma StringValueIsRead(s: Text, x: Text)
    ensures ReadValue(Quote(s) + x) == Some((StringValue(s), x))
  {
    QuoteIsRead(s, x);
  }

  lemma WordIsPrinted(less: (Text, Text) -> bool, j: Json)
    requires j.Bool? || j.Null? || j.NonFinite?
    ensures Print(less, j) == if j.Bool? then if j.b then Units("true") else Units("false") else Units("null")
  {
  }

  lemma ScalarIsRead(less: (Text, Text) -> bool, j: Json, x: Text)
    requires WellFormed(j) && Follows(x) && !j.Array? && !j.Object?
    ensures ReadValue(Print(less, j) + x) == Some((Meaning(j), x))
  {
    match j {
      case Number(n) => NumberValueIsRead(n, x);
      case String(s) => StringValueIsRead(s, x);
      case _ =>
        WordIsPrinted(less, j);
        WordIsRead(j, x);
    }
  }

  /** A printed value is read back, and reading stops where it ends. */
  lemma {:induction false} ValueIsRead(less: (Text, Text) -> bool, j: Json, x: Text)
    requires WellFormed(j) && Follows(x)
    ensures ReadValue(Print(less, j) + x) == Some((Meaning(j), x))
    decreases j, 2, 0
  {
    if j.Array? {
      ArrayIsRead(less, j, x);
    } else if j.Object? {
      ObjectIsRead(less, j, x);
    } else {
      ScalarIsRead(less, j, x);
    }
  }

  lemma {:induction false} ArrayIsRead(less: (Text, Text) -> bool, j: Json, x: Text)
    requires j.Array? && WellFormed(j)
    ensures ReadValue(Print(less, j) + x) == Some((Meaning(j), x))
    decreases j, 1, |j.items| + 1
  {
    var p := ItemParts(less, j);
    var t := Print(less, j) + x;
    ListOpens(91, p, 93, x);
    if p == [] {
      assert t[1..] == [93] + x && t[2..] == x && t[1] == 93;
      assert Meaning(j).items == [];
    } else {
      ElementsAreRead(less, j, 0, x);
      assert p[0..] == p;
      ItemPartsAreOpen(less, j, 0);
      ListSplits(p, 93, x);
      assert t[1..][0] == p[0][0];
      assert Meaning(j).items[0..] == Meaning(j).items;
    }
  }

  lemma ElementsStep(p: seq<Text>, x: Text, v: Value, vs: seq<Value>)
    requires p != [] && ReadValue(Join(p) + ([93] + x)) == Some((v, AfterFirst(p, 93, x)))
    requires if |p| == 1 then vs == [] else ReadElements(Join(p[1..]) + ([93] + x)) == Some((vs, x))
    ensures ReadElements(Join(p) + ([93] + x)) == Some(([v] + vs, x))
  {
    var rest := AfterFirst(p, 93, x);
    if |p| == 1 {
      assert rest[1..] == x && [v] + vs == [v];
    } else {
      assert rest[1..] == Join(p[1..]) + ([93] + x);
    }
  }

  lemma ElementIsRead(less: (Text, Text) -> bool, j: Json, k: nat, x: Text)
    requires j.Array? && WellFormed(j) && k < |j.items|
    ensures
      var p := ItemParts(less, j)[k..];
      ReadValue(Join(p) + ([93] + x)) == Some((Meaning(j.items[k]), AfterFirst(p, 93, x)))
    decreases j, 1, 0
  {
    var p := ItemParts(less, j)[k..];
    ListSplits(p, 93, x);
    ValueIsRead(less, j.items[k], AfterFirst(p, 93, x));
    assert p[0] == Print(less, j.items[k]);
  }

  lemma ItemsFrom(j: Json, k: nat)
    requires j.Array? && k < |j.items|
    ensures Meaning(j).items[k..] == [Meaning(j.items[k])] + Meaning(j).items[k + 1..]
  {
  }

  lemma {:induction false} ElementsAreRead(less: (Text, Text) -> bool, j: Json, k: nat, x: Text)
    requires j.Array? && WellFormed(j) && k < |j.items|
    ensures ReadElements(Join(ItemParts(less, j)[k..]) + ([93] + x)) == Some((Meaning(j).items[k..], x))
    decreases j, 1, |j.items| - k
  {
    var p := ItemParts(less, j)[k..];
    ElementIsRead(less, j, k, x);
    ItemsFrom(j, k);
    if k + 1 < |j.items| {
      ElementsAreRead(less, j, k + 1, x);
      assert p[1..] == ItemParts(less, j)[k + 1..];
    }
    ElementsStep(p, x, Meaning(j.items[k]), Meaning(j).items[k + 1..]);
  }

  /** The named meanings of the members from the `k`-th on, of equal names the last. */
  ghost function MembersFrom(ms: seq<(Text, Json)>, k: nat): map<Text, Value>
    requires k <= |ms|
    decreases |ms| - k
  {
    if k == |ms| then map[] else map[ms[k].0 := Meaning(ms[k].1)] + MembersFrom(ms, k + 1)
  }

  lemma {:induction false} MembersFromNames(ms: seq<(Text, Json)>, k: nat, name: Text)
    requires k <= |ms|
    ensures name in MembersFrom(ms, k) <==> exists i :: k <= i < |ms| && ms[i].0 == name
    decreases |ms| - k
  {
    if k < |ms| {
      MembersFromNames(ms, k + 1, name);
      if i :| k <= i < |ms| && ms[i].0 == name && name != ms[k].0 {
        assert k + 1 <= i;
      }
    }
  }

  /** A name has one entry. */
  ghost predicate OneEntryEach(ms: seq<(Text, Json)>) {
    forall i, l :: 0 <= i < |ms| && 0 <= l < |ms| && ms[i].0 == ms[l].0 ==> ms[i] == ms[l]
  }

  lemma {:induction false} MembersFromValues(ms: seq<(Text, Json)>, k: nat, i: nat)
    requires k <= i < |ms| && OneEntryEach(ms)
    ensures ms[i].0 in MembersFrom(ms, k) && MembersFrom(ms, k)[ms[i].0] == Meaning(ms[i].1)
    decreases |ms| - k
  {
    MembersFromNames(ms, k + 1, ms[i].0);
    if ms[i].0 in MembersFrom(ms, k + 1) {
      var l :| k + 1 <= l < |ms| && ms[l].0 == ms[i].0;
      MembersFromValues(ms, k + 1, l);
    }
  }

  lemma MembersFromDenote(ms: seq<(Text, Json)>)
    requires OneEntryEach(ms)
    ensures Denotes(ms, MembersFrom(ms, 0))
  {
    forall i | 0 <= i < |ms|
      ensures ms[i].0 in MembersFrom(ms, 0) && MembersFrom(ms, 0)[ms[i].0] == Meaning(ms[i].1)
    {
      MembersFromValues(ms, 0, i);
    }
    forall name | name in MembersFrom(ms, 0)
      ensures exists i :: 0 <= i < |ms| && ms[i].0 == name
    {
      MembersFromNames(ms, 0, name);
    }
  }

  lemma ObjectMeans(less: (Text, Text) -> bool, j: Json)
    requires j.Object? && WellFormed(j)
    ensures MembersFrom(SortedMembers(less, j), 0) == Meaning(j).members
  {
    var ms := SortedMembers(less, j);
    SortedMembersDenote(less, j);
    SortedNamesHaveOneEntry(less, j);
    MembersFromDenote(ms);
    SameMap(ms, ms, MembersFrom(ms, 0), Meaning(j).members);
  }

  lemma SortedNamesHaveOneEntry(less: (Text, Text) -> bool, j: Json)
    requires j.Object? && WellFormed(j)
    ensures OneEntryEach(SortedMembers(less, j))
  {
    var ms := SortedMembers(less, j);
    SameEntries(ms, j.members);
    forall i, l | 0 <= i < |ms| && 0 <= l < |ms| && ms[i].0 == ms[l].0
      ensures ms[i] == ms[l]
    {
      assert ms[i] in j.members && ms[l] in j.members;
    }
  }

  lemma {:induction false} ObjectIsRead(less: (Text, Text) -> bool, j: Json, x: Text)
    requires j.Object? && WellFormed(j)
    ensures ReadValue(Print(less, j) + x) == Some((Meaning(j), x))
    decreases j, 1, |j.members| + 1
  {
    var p := MemberParts(less, j);
    var t := Print(less, j) + x;
    ListOpens(123, p, 125, x);
    ObjectMeans(less, j);
    if p == [] {
      assert t[1..] == [125] + x && t[2..] == x && t[1] == 125;
    } else {
      MembersAreRead(less, j, 0, x);
      assert p[0..] == p;
      MemberPartsAreQuoted(less, j, 0);
      ListSplits(p, 125, x);
      assert t[1..][0] == p[0][0];
    }
  }

  lemma {:induction false} MemberIsRead(less: (Text, Text) -> bool, m: (Text, Json), rest: Text)
    requires WellFormed(m.1) && Follows(rest)
    ensures
      var t := PrintMember(less, m) + rest;
      && t[0] == QUOTE && ReadString(t[1..]).Some? && ReadString(t[1..]).value.0 == m.0
      && var after := ReadString(t[1..]).value.1;
      after != [] && after[0] == COLON && ReadValue(after[1..]) == Some((Meaning(m.1), rest))
    decreases m.1, 3, 0
  {
    MemberStep(less, m, rest);
    var after := [COLON] + (Print(less, m.1) + rest);
    QuoteIsRead(m.0, after);
    assert after[1..] == Print(less, m.1) + rest;
    ValueIsRead(less, m.1, rest);
  }

  lemma {:induction false} MembersAreRead(less: (Text, Text) -> bool, j: Json, k: nat, x: Text)
    requires j.Object? && WellFormed(j) && k < |SortedMembers(less, j)|
    ensures
      ReadMembers(Join(MemberParts(less, j)[k..]) + ([125] + x)) ==
        Some((MembersFrom(SortedMembers(less, j), k), x))
    decreases j, 1, |SortedMembers(less, j)| - k
  {
    var ms := SortedMembers(less, j);
    var p := MemberParts(less, j)[k..];
    var rest := AfterFirst(p, 125, x);
    ListSplits(p, 125, x);
    SortedMembersAreWellFormed(less, j);
    MemberIsRead(less, ms[k], rest);
    if k + 1 == |ms| {
      assert rest[1..] == x;
      assert MembersFrom(ms, k) == map[ms[k].0 := Meaning(ms[k].1)];
    } else {
      MembersAreRead(less, j, k + 1, x);
      assert p[1..] == MemberParts(less, j)[k + 1..];
      assert rest[1..] == Join(p[1..]) + ([125] + x);
    }
  }

  /** What `stableStringify` prints is JSON, and read on its own it is the value of the tree, a
      non-finite number being null. */
  lemma PrintIsReadBack(less: (Text, Text) -> bool, j: Json)
    requires WellFormed(j)
    ensures Read(Print(less, j)) == Some(Meaning(j))
  {
    ValueIsRead(less, j, []);
    assert Print(less, j) + [] == Print(less, j);
  }
}
