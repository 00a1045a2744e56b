/** The string-literal scanner of apps/mobile/scripts/theme.ts (`stringLiterals`): contents of
    quoted strings and static template chunks, with comments skipped and template holes scanned
    as code. */
module StringLexer {

  /** What a scan collected and the source left after it. */
  datatype Scan = Scan(literals: seq<string>, rest: string)

  predicate StartsWith(s: string, prefix: string) {
    prefix <= s
  }

  /** `skipPast` from the start of `s`: what follows the first occurrence of the marker. */
  function SkipPast(s: string, marker: string): (rest: string)
    requires marker != ""
    ensures |rest| <= |s| && (s != "" ==> |rest| < |s|)
    ensures rest == s[|s| - |rest|..]
  {
    if s == "" then s
    else if StartsWith(s, marker) then s[|marker|..]
    else SkipPast(s[1..], marker)
  }

  /** The first occurrence of the marker, if there is one, is what is passed. */
  ghost predicate FirstAt(s: string, marker: string, i: nat) {
    && i + |marker| <= |s| && StartsWith(s[i..], marker)
    && forall j :: 0 <= j < i ==> !StartsWith(s[j..], marker)
  }

  /** What is left is what follows the first occurrence, or nothing when there is none. */
  lemma {:induction false} SkipPastIsFirst(s: string, marker: string)
    requires marker != ""
    ensures
      || (exists i: nat :: FirstAt(s, marker, i) && SkipPast(s, marker) == s[i + |marker|..])
      || ((forall i :: 0 <= i <= |s| ==> !StartsWith(s[i..], marker)) && SkipPast(s, marker) == "")
    decreases |s|
  {
    assert s[0..] == s;
    if s != "" && StartsWith(s, marker) {
      assert FirstAt(s, marker, 0);
    } else if s != "" {
      var t := s[1..];
      SkipPastIsFirst(t, marker);
      assert forall i :: 0 <= i <= |t| ==> t[i..] == s[i + 1..];
      if i: nat :| FirstAt(t, marker, i) && SkipPast(t, marker) == t[i + |marker|..] {
        NextOccurrence(s, marker, i);
      } else {
        forall i | 0 <= i <= |s|
          ensures !StartsWith(s[i..], marker)
        {
          if i > 0 {
            assert t[i - 1..] == s[i..];
          }
        }
      }
    }
  }

  lemma NextOccurrence(s: string, marker: string, i: nat)
    requires s != "" && marker != "" && !StartsWith(s, marker) && FirstAt(s[1..], marker, i)
    ensures FirstAt(s, marker, i + 1) && s[1..][i + |marker|..] == s[i + 1 + |marker|..]
  {
    forall j | 0 <= j < i + 1
      ensures !StartsWith(s[j..], marker)
    {
      if j == 0 {
        assert s[0..] == s;
      } else {
        assert s[j..] == s[1..][j - 1..];
      }
    }
    assert s[i + 1..] == s[1..][i..];
  }

  /** The next content character, with the backslash of an escape dropped. */
  function TakeOne(s: string): (r: (string, string))
    requires s != ""
    ensures |r.1| < |s|
  {
    if s[0] != '\\' then ([s[0]], s[1..]) else if |s| == 1 then ("", "") else ([s[1]], s[2..])
  }

  /** The content of a quoted string, from after its opening quote. */
  function ScanQuoted(s: string, quote: char): (r: (string, string))
    ensures |r.1| <= |s|
    decreases |s|
  {
    if s == "" then ("", "")
    else if s[0] == quote then ("", s[1..])
    else
      var one := TakeOne(s);
      var r := ScanQuoted(one.1, quote);
      (one.0 + r.0, r.1)
  }

  function Drop1(s: string): string {
    if s == "" then "" else s[1..]
  }

  /** The static text of a template up to its end or its next hole. */
  function ScanChunk(s: string): (r: (string, string))
    ensures |r.1| <= |s|
    ensures r.1 == "" || r.1[0] == '`' || StartsWith(r.1, "${")
    decreases |s|
  {
    if s == "" || s[0] == '`' || StartsWith(s, "${") then ("", s)
    else
      var one := TakeOne(s);
      var r := ScanChunk(one.1);
      (one.0 + r.0, r.1)
  }

  /** A template, from inside it: its static chunks and the literals of its holes, in order. */
  function ScanTemplate(s: string): (r: Scan)
    ensures |r.rest| <= |s|
    decreases |s|, 0
  {
    var c := ScanChunk(s);
    if c.1 == "" then Scan([c.0], "")
    else if c.1[0] == '`' then Scan([c.0], c.1[1..])
    else
      var hole := ScanCode(c.1[2..], true, 0);
      var after := ScanTemplate(Drop1(hole.rest));
      Scan([c.0] + hole.literals + after.literals, after.rest)
  }

  /** One round of the loop over code: the literals it pushes, what is left and the depth. */
  datatype Round = Round(literals: seq<string>, rest: string, depth: int)

  function ScanPiece(s: string, depth: int): (r: Round)
    requires s != ""
    ensures |r.rest| < |s|
    decreases |s|, 1
  {
    if StartsWith(s, "//") then Round([], SkipPast(s, "\n"), depth)
    else if StartsWith(s, "/*") then Round([], SkipPast(s, "*/"), depth)
    else if s[0] == '"' || s[0] == '\'' then
      var q := ScanQuoted(s[1..], s[0]);
      Round([q.0], q.1, depth)
    else if s[0] == '`' then
      var t := ScanTemplate(s[1..]);
      Round(t.literals, t.rest, depth)
    else Round([], s[1..], depth + (if s[0] == '{' then 1 else if s[0] == '}' then -1 else 0))
  }

  predicate EndsHole(s: string, inHole: bool, depth: int) {
    inHole && s != "" && s[0] == '}' && depth == 0
  }

  /** Code up to the end, or in a hole up to its closing brace. */
  function ScanCode(s: string, inHole: bool, depth: int): (r: Scan)
    ensures |r.rest| <= |s|
    decreases |s|, 2
  {
    if s == "" || EndsHole(s, inHole, depth) then Scan([], s)
    else
      var p := ScanPiece(s, depth);
      Prefix(p.literals, ScanCode(p.rest, inHole, p.depth))
  }

  function Prefix(literals: seq<string>, r: Scan): Scan {
    Scan(literals + r.literals, r.rest)
  }

  /** `stringLiterals`. */
  function StringLiterals(source: string): seq<string> {
    ScanCode(source, false, 0).literals
  }

  // ---- source trees ----

  /** A content character, written as it is or after a backslash. */
  datatype Unit = Unit(c: char, escaped: bool)

  datatype Piece =
    | Plain(c: char)
    | LineComment(text: string)
    | BlockComment(text: string)
    | Quoted(quote: char, content: seq<Unit>)
    | Template(parts: Parts)
    | Braces(inner: Code)

  datatype Parts = End(chunk: seq<Unit>) | Hole(chunk: seq<Unit>, code: Code, more: Parts)

  datatype Code = Nil | Cons(head: Piece, tail: Code)

  function Characters(us: seq<Unit>): string {
    if us == [] then "" else [us[0].c] + Characters(us[1..])
  }

  function Written(us: seq<Unit>): string {
    if us == [] then "" else (if us[0].escaped then ['\\', us[0].c] else [us[0].c]) + Written(us[1..])
  }

  function PrintPiece(p: Piece): string {
    match p
    case Plain(c) => [c]
    case LineComment(text) => "//" + (text + "\n")
    case BlockComment(text) => "/*" + (text + "*/")
    case Quoted(q, content) => [q] + (Written(content) + [q])
    case Template(parts) => "`" + PrintParts(parts)
    case Braces(inner) => "{" + (PrintCode(inner) + "}")
  }

  function PrintParts(t: Parts): string {
    match t
    case End(chunk) => Written(chunk) + "`"
    case Hole(chunk, code, more) => Written(chunk) + ("${" + (PrintCode(code) + ("}" + PrintParts(more))))
  }

  function PrintCode(c: Code): string {
    match c
    case Nil => ""
    case Cons(head, tail) => PrintPiece(head) + PrintCode(tail)
  }

  /** The literal contents of a tree in source order. */
  function PieceLiterals(p: Piece): seq<string> {
    match p
    case Quoted(_, content) => [Characters(content)]
    case Template(parts) => PartLiterals(parts)
    case Braces(inner) => CodeLiterals(inner)
    case _ => []
  }

  function PartLiterals(t: Parts): seq<string> {
    match t
    case End(chunk) => [Characters(chunk)]
    case Hole(chunk, code, more) => [Characters(chunk)] + CodeLiterals(code) + PartLiterals(more)
  }

  function CodeLiterals(c: Code): seq<string> {
    match c
    case Nil => []
    case Cons(head, tail) => PieceLiterals(head) + CodeLiterals(tail)
  }

  // ---- which trees print to themselves ----

  predicate ClosesComment(s: string) {
    exists i :: 0 <= i < |s| - 1 && s[i] == '*' && s[i + 1] == '/'
  }

  /** The quote and the backslash are written escaped. */
  predicate QuotedOk(us: seq<Unit>, quote: char) {
    forall i :: 0 <= i < |us| && (us[i].c == quote || us[i].c == '\\') ==> us[i].escaped
  }

  /** The backtick and the backslash are written escaped, and no plain `${` occurs. */
  predicate ChunkOk(us: seq<Unit>) {
    && (forall i :: 0 <= i < |us| && (us[i].c == '`' || us[i].c == '\\') ==> us[i].escaped)
    && (forall i :: 0 <= i < |us| - 1 ==> us[i] != Unit('$', false) || us[i + 1] != Unit('{', false))
  }

  /** A slash is followed by nothing that would open a comment. */
  predicate SlashOk(after: string) {
    after == "" || (after[0] != '/' && after[0] != '*')
  }

  predicate PieceOk(p: Piece, after: string) {
    match p
    case Plain(c) => c !in {'"', '\'', '`', '{', '}'} && (c == '/' ==> SlashOk(after))
    case LineComment(text) => '\n' !in text
    case BlockComment(text) => !ClosesComment(text) && (text == "" || text[0] != '/')
    case Quoted(q, content) => (q == '"' || q == '\'') && QuotedOk(content, q)
    case Template(parts) => PartsOk(parts)
    case Braces(inner) => CodeOk(inner, "}")
  }

  predicate PartsOk(t: Parts) {
    match t
    case End(chunk) => ChunkOk(chunk)
    case Hole(chunk, code, more) => ChunkOk(chunk) && CodeOk(code, "}") && PartsOk(more)
  }

  /** `after` is the text that follows; only its first character matters. */
  predicate CodeOk(c: Code, after: string) {
    match c
    case Nil => true
    case Cons(head, tail) => PieceOk(head, PrintCode(tail) + after) && CodeOk(tail, after)
  }

  // ---- the scan of printed text ----

  lemma {:induction false} SkipsToMarker(text: string, marker: string, rest: string)
    requires marker != ""
    requires forall i :: 0 <= i < |text| ==> !StartsWith((text + (marker + rest))[i..], marker)
    ensures SkipPast(text + (marker + rest), marker) == rest
  {
    var s := text + (marker + rest);
    if text == "" {
      assert s == marker + rest;
    } else {
      assert s[0..] == s;
      assert s[1..] == text[1..] + (marker + rest);
      forall i | 0 <= i < |text[1..]|
        ensures !StartsWith((text[1..] + (marker + rest))[i..], marker)
      {
        assert (text[1..] + (marker + rest))[i..] == s[i + 1..];
      }
      SkipsToMarker(text[1..], marker, rest);
    }
  }

  lemma LineCommentIsSkipped(text: string, rest: string)
    requires '\n' !in text
    ensures SkipPast("//" + (text + "\n") + rest, "\n") == rest
  {
    var t := "//" + text;
    assert "//" + (text + "\n") + rest == t + ("\n" + rest);
    forall i | 0 <= i < |t|
      ensures !StartsWith((t + ("\n" + rest))[i..], "\n")
    {
      assert (t + ("\n" + rest))[i..][0] == t[i];
    }
    SkipsToMarker(t, "\n", rest);
  }

  /** A block comment is skipped as a whole exactly when its text does not begin with a slash:
      the search for the closing marker starts at the opening one. */
  lemma BlockCommentIsSkippedExactlyWhen(text: string, rest: string)
    requires !ClosesComment(text)
    ensures SkipPast("/*" + (text + "*/") + rest, "*/") == rest <==> text == "" || text[0] != '/'
  {
    var t := "/*" + text;
    var s := t + ("*/" + rest);
    assert "/*" + (text + "*/") + rest == s;
    if text != "" && text[0] == '/' {
      assert s[0] == '/' && s[1] == '*' && s[2] == '/';
      assert s[1..][..2] == "*/";
      assert SkipPast(s, "*/") == SkipPast(s[1..], "*/") == s[1..][2..];
      assert |SkipPast(s, "*/")| > |rest|;
    } else {
      forall i | 0 <= i < |t|
        ensures !StartsWith(s[i..], "*/")
      {
        assert s[i..][0] == s[i] && s[i..][1] == s[i + 1];
        if 2 <= i < |t| - 1 {
          assert s[i] == text[i - 2] && s[i + 1] == text[i - 2 + 1];
        } else if i == |t| - 1 {
          assert s[i + 1] == '*';
        } else {
          assert s[0] == '/' && (i == 1 ==> s[2] == text[0]);
        }
      }
      SkipsToMarker(t, "*/", rest);
    }
  }

  lemma {:induction false} QuotedIsRead(us: seq<Unit>, quote: char, rest: string)
    requires QuotedOk(us, quote) && quote != '\\'
    ensures ScanQuoted(Written(us) + ([quote] + rest), quote) == (Characters(us), rest)
  {
    var s := Written(us) + ([quote] + rest);
    if us == [] {
      assert s == [quote] + rest;
    } else {
      QuotedIsRead(us[1..], quote, rest);
      var tail := Written(us[1..]) + ([quote] + rest);
      if us[0].escaped {
        assert s[0] == '\\' && s[1] == us[0].c && s[2..] == tail;
      } else {
        assert s[0] == us[0].c && s[1..] == tail;
      }
    }
  }

  lemma ChunkNext(us: seq<Unit>, rest: string)
    requires us != [] && ChunkOk(us) && !StartsWith(rest, "{")
    ensures us[0] == Unit('$', false) ==> !StartsWith(Written(us[1..]) + rest, "{")
  {
    var next := Written(us[1..]) + rest;
    if |us| > 1 {
      assert next[0] == (if us[1].escaped then '\\' else us[1].c);
    } else {
      assert next == rest;
    }
  }

  /** A chunk is read up to what ends it: the closing backtick or the next hole. */
  lemma {:induction false} ChunkIsRead(us: seq<Unit>, rest: string)
    requires ChunkOk(us) && (StartsWith(rest, "`") || StartsWith(rest, "${"))
    ensures ScanChunk(Written(us) + rest) == (Characters(us), rest)
    decreases |us|
  {
    var s := Written(us) + rest;
    if us == [] {
      assert s == rest;
    } else {
      var next := Written(us[1..]) + rest;
      assert rest[0] == '`' || rest[0] == '$';
      ChunkNext(us, rest);
      ChunkIsRead(us[1..], rest);
      if us[0].escaped {
        assert s[0] == '\\' && s[1] == us[0].c && s[2..] == next;
      } else {
        assert s[0] == us[0].c && s[1..] == next;
        assert StartsWith(s, "${") ==> us[0].c == '$' && StartsWith(next, "{");
      }
    }
  }

  /** Every piece but a brace group is one round. */
  lemma {:induction false} PieceIsRead(p: Piece, rest: string, depth: int)
    requires PieceOk(p, rest) && !p.Braces?
    ensures PrintPiece(p) != "" && PrintPiece(p)[0] != '}'
    ensures ScanPiece(PrintPiece(p) + rest, depth) == Round(PieceLiterals(p), rest, depth)
    decreases p, 0
  {
    match p {
      case Plain(c) => PlainIsRead(c, rest, depth);
      case LineComment(text) => LineIsRead(text, rest, depth);
      case BlockComment(text) => BlockIsRead(text, rest, depth);
      case Quoted(q, content) => QuoteIsRead(q, content, rest, depth);
      case Template(parts) =>
        PartsAreRead(parts, rest);
        TemplateIsRead(PrintParts(parts), rest, depth);
    }
  }

  lemma PlainIsRead(c: char, rest: string, depth: int)
    requires PieceOk(Plain(c), rest)
    ensures ScanPiece([c] + rest, depth) == Round([], rest, depth)
  {
    var s := [c] + rest;
    assert s[0] == c && s[1..] == rest;
    assert c == '/' && rest != "" ==> s[1] == rest[0];
  }

  lemma LineIsRead(text: string, rest: string, depth: int)
    requires '\n' !in text
    ensures ScanPiece("//" + (text + "\n") + rest, depth) == Round([], rest, depth)
  {
    LineCommentIsSkipped(text, rest);
  }

  lemma BlockIsRead(text: string, rest: string, depth: int)
    requires PieceOk(BlockComment(text), rest)
    ensures ScanPiece("/*" + (text + "*/") + rest, depth) == Round([], rest, depth)
  {
    var s := "/*" + (text + "*/") + rest;
    assert s[0] == '/' && s[1] == '*';
    BlockCommentIsSkippedExactlyWhen(text, rest);
  }

  lemma QuoteIsRead(q: char, content: seq<Unit>, rest: string, depth: int)
    requires PieceOk(Quoted(q, content), rest)
    ensures ScanPiece([q] + (Written(content) + [q]) + rest, depth) == Round([Characters(content)], rest, depth)
  {
    var s := [q] + (Written(content) + [q]) + rest;
    assert s[0] == q && s[1..] == Written(content) + ([q] + rest);
    QuotedIsRead(content, q, rest);
  }

  lemma TemplateIsRead(text: string, rest: string, depth: int)
    ensures
      var t := ScanTemplate(text + rest);
      ScanPiece("`" + text + rest, depth) == Round(t.literals, t.rest, depth)
  {
    var s := "`" + text + rest;
    assert s[0] == '`' && s[1..] == text + rest;
  }

  lemma RoundThenRest(s: string, rest: string, inHole: bool, depth: int, r: Round)
    requires s != "" && !EndsHole(s + rest, inHole, depth) && ScanPiece(s + rest, depth) == r
    ensures ScanCode(s + rest, inHole, depth) == Prefix(r.literals, ScanCode(r.rest, inHole, r.depth))
  {}

  lemma PrefixTwice(a: seq<string>, b: seq<string>, r: Scan)
    ensures Prefix(a, Prefix(b, r)) == Prefix(a + b, r)
  {}

  /** The scan of printed code followed by anything: it collects the tree's literals and goes on
      with what follows, at the same brace depth. */
  lemma {:induction false} CodeIsRead(c: Code, rest: string, inHole: bool, depth: nat)
    requires CodeOk(c, rest)
    ensures ScanCode(PrintCode(c) + rest, inHole, depth) == Prefix(CodeLiterals(c), ScanCode(rest, inHole, depth))
    decreases c, 1
  {
    match c {
      case Nil =>
        assert PrintCode(c) + rest == rest;
      case Cons(head, tail) =>
        var next := PrintCode(tail) + rest;
        assert PrintCode(c) + rest == PrintPiece(head) + next;
        CodeIsRead(tail, rest, inHole, depth);
        if head.Braces? {
          BracesAreRead(head.inner, next, inHole, depth);
        } else {
          PieceIsRead(head, next, depth);
          RoundThenRest(PrintPiece(head), next, inHole, depth, Round(PieceLiterals(head), next, depth));
        }
        PrefixTwice(PieceLiterals(head), CodeLiterals(tail), ScanCode(rest, inHole, depth));
    }
  }

  lemma BraceStep(open: bool, rest: string, inHole: bool, depth: int)
    requires open || depth > 0
    ensures ScanCode((if open then "{" else "}") + rest, inHole, depth)
         == ScanCode(rest, inHole, if open then depth + 1 else depth - 1)
  {
    var s := (if open then "{" else "}") + rest;
    assert s[1..] == rest && s[0] == (if open then '{' else '}');
    assert ScanPiece(s, depth) == Round([], rest, if open then depth + 1 else depth - 1);
    var r := ScanCode(rest, inHole, if open then depth + 1 else depth - 1);
    assert Prefix([], r) == r;
  }

  lemma {:induction false} BracesAreRead(inner: Code, rest: string, inHole: bool, depth: nat)
    requires CodeOk(inner, "}")
    ensures ScanCode("{" + (PrintCode(inner) + "}") + rest, inHole, depth)
         == Prefix(CodeLiterals(inner), ScanCode(rest, inHole, depth))
    decreases inner, 2
  {
    var close := "}" + rest;
    assert "{" + (PrintCode(inner) + "}") + rest == "{" + (PrintCode(inner) + close);
    BraceStep(true, PrintCode(inner) + close, inHole, depth);
    AfterMatters(inner, "}", close);
    CodeIsRead(inner, close, inHole, depth + 1);
    BraceStep(false, rest, inHole, depth + 1);
  }

  /** Well-formedness looks only at the first character of what follows. */
  lemma {:induction false} AfterMatters(c: Code, a: string, b: string)
    requires a != "" && b != "" && a[0] == b[0] && CodeOk(c, a)
    ensures CodeOk(c, b)
  {
    if c.Cons? {
      AfterMatters(c.tail, a, b);
      var t := PrintCode(c.tail);
      assert (t + a)[0] == (if t == "" then a[0] else t[0]);
      assert (t + b)[0] == (if t == "" then b[0] else t[0]);
    }
  }

  lemma {:induction false} PartsAreRead(t: Parts, rest: string)
    requires PartsOk(t)
    ensures ScanTemplate(PrintParts(t) + rest) == Scan(PartLiterals(t), rest)
    decreases t
  {
    var chunk := t.chunk;
    match t {
      case End(_) =>
        var close := "`" + rest;
        assert PrintParts(t) + rest == Written(chunk) + close;
        assert close[0] == '`' && close[1..] == rest;
        ChunkIsRead(chunk, close);
      case Hole(_, code, more) =>
        var after := PrintParts(more) + rest;
        var inner := PrintCode(code) + ("}" + after);
        var open := "${" + inner;
        assert PrintParts(t) + rest == Written(chunk) + open;
        assert open[0] == '$' && open[2..] == inner && StartsWith(open, "${");
        ChunkIsRead(chunk, open);
        HoleIsRead(code, after);
        PartsAreRead(more, rest);
    }
  }

  lemma {:induction false} HoleIsRead(code: Code, after: string)
    requires CodeOk(code, "}")
    ensures
      var hole := ScanCode(PrintCode(code) + ("}" + after), true, 0);
      hole.literals == CodeLiterals(code) && Drop1(hole.rest) == after
    decreases code, 2
  {
    AfterMatters(code, "}", "}" + after);
    CodeIsRead(code, "}" + after, true, 0);
    assert ScanCode("}" + after, true, 0) == Scan([], "}" + after);
  }

  /** How a source may end: with nothing more, or in a comment that the end of the source closes. */
  predicate EndingOk(ending: string) {
    || ending == ""
    || ("//" <= ending && '\n' !in ending)
    || ("/*" <= ending && !ClosesComment(ending))
  }

  lemma {:induction false} SkipsToTheEnd(s: string, marker: string)
    requires marker != "" && forall i :: 0 <= i < |s| ==> !StartsWith(s[i..], marker)
    ensures SkipPast(s, marker) == ""
    decreases |s|
  {
    if s != "" {
      assert s[0..] == s;
      forall i | 0 <= i < |s[1..]|
        ensures !StartsWith(s[1..][i..], marker)
      {
        assert s[1..][i..] == s[i + 1..];
      }
      SkipsToTheEnd(s[1..], marker);
    }
  }

  lemma LineEnding(ending: string)
    requires "//" <= ending && '\n' !in ending
    ensures ScanPiece(ending, 0) == Round([], "", 0)
  {
    forall i | 0 <= i < |ending|
      ensures !StartsWith(ending[i..], "\n")
    {
      assert ending[i..][0] == ending[i] && ending[i] in ending;
    }
    SkipsToTheEnd(ending, "\n");
  }

  lemma BlockEnding(ending: string)
    requires "/*" <= ending && !ClosesComment(ending)
    ensures ScanPiece(ending, 0) == Round([], "", 0)
  {
    assert ending[0] == '/' && ending[1] == '*';
    forall i | 0 <= i < |ending|
      ensures !StartsWith(ending[i..], "*/")
    {
      if i + 1 < |ending| {
        assert ending[i..][0] == ending[i] && ending[i..][1] == ending[i + 1];
      }
    }
    SkipsToTheEnd(ending, "*/");
  }

  lemma EndingIsSkipped(ending: string)
    requires EndingOk(ending)
    ensures ScanCode(ending, false, 0) == Scan([], "")
  {
    if ending != "" {
      if "//" <= ending && '\n' !in ending {
        LineEnding(ending);
      } else {
        BlockEnding(ending);
      }
      assert ScanCode("", false, 0) == Scan([], "");
    }
  }

  /** Round trip: printing any well-formed tree of code, comments, strings and templates, ended by
      the end of the source or by a comment that runs up to it, and scanning it returns exactly its
      literal contents in source order. */
  lemma LiteralsRoundTrip(c: Code, ending: string)
    requires EndingOk(ending) && CodeOk(c, ending)
    ensures StringLiterals(PrintCode(c) + ending) == CodeLiterals(c)
  {
    CodeIsRead(c, ending, false, 0);
    EndingIsSkipped(ending);
  }

  /** A comment whose text begins with a slash is not recognised: its opening is taken for the
      whole of it and the string inside is reported. */
  lemma SlashCommentIsMisread(content: seq<Unit>)
    requires QuotedOk(content, '"')
    ensures
      var inside := Cons(Quoted('"', content), Nil);
      var comment := Cons(BlockComment("/" + PrintCode(inside)), Nil);
      CodeLiterals(comment) == [] && StringLiterals(PrintCode(comment)) == [Characters(content)]
  {
    var inside := Cons(Quoted('"', content), Nil);
    SlashCommentText(PrintCode(inside));
    OpeningIsTakenForComment(PrintCode(inside) + "*/");
    CodeIsRead(inside, "*/", false, 0);
    ClosingMarkIsPlain();
  }

  lemma SlashCommentText(text: string)
    ensures PrintCode(Cons(BlockComment("/" + text), Nil)) == "/*/" + (text + "*/")
  {
    assert "/*" + (("/" + text) + "*/") + "" == "/*/" + (text + "*/");
  }

  lemma OpeningIsTakenForComment(rest: string)
    ensures ScanCode("/*/" + rest, false, 0) == ScanCode(rest, false, 0)
  {
    var s := "/*/" + rest;
    assert s[0] == '/' && s[1] == '*' && s[1..][..2] == "*/" && s[1..][2..] == rest;
    assert SkipPast(s, "*/") == SkipPast(s[1..], "*/") == rest;
    assert ScanPiece(s, 0) == Round([], rest, 0);
    var r := ScanCode(rest, false, 0);
    assert Prefix([], r) == r;
  }

  lemma ClosingMarkIsPlain()
    ensures ScanCode("*/", false, 0) == Scan([], "")
  {
    var end := Cons(Plain('*'), Cons(Plain('/'), Nil));
    assert PrintCode(end) == "*/";
    assert PrintCode(end) + "" == "*/";
    CodeIsRead(end, "", false, 0);
  }

  /** The scanner as the source runs it: one shared `index` and one list of literals. The index
      may run past the end by an escape or a closing delimiter that is not there. */
  class Scanner {
    const source: string
    var index: nat
    var literals: seq<string>

    constructor (source: string)
      ensures this.source == source && Left() == source && literals == []
    {
      this.source := source;
      index, literals := 0, [];
    }

    function Left(): string
      reads this
    {
      if index <= |source| then source[index..] else ""
    }

    /** The body of both content loops: an escape advances once more. */
    method ReadOne() returns (text: string)
      requires index < |source|
      modifies this`index
      ensures (text, Left()) == TakeOne(old(Left()))
    {
      text := "";
      if source[index] == '\\' {
        index := index + 1;
      }
      if index < |source| {
        text := [source[index]];
      }
      index := index + 1;
    }

    /** `quoted`, after the opening quote. */
    method ReadQuoted(quote: char)
      modifies this
      ensures
        var r := ScanQuoted(old(Left()), quote);
        literals == old(literals) + [r.0] && Left() == r.1
    {
      var value := "";
      ghost var start := Left();
      assert "" + ScanQuoted(start, quote).0 == ScanQuoted(start, quote).0;
      while index < |source| && source[index] != quote
        invariant ScanQuoted(start, quote) == (value + ScanQuoted(Left(), quote).0, ScanQuoted(Left(), quote).1)
        invariant literals == old(literals)
        decreases |Left()|
      {
        var text := ReadOne();
        TextAssociative(value, text, ScanQuoted(Left(), quote).0);
        value := value + text;
      }
      assert value + "" == value;
      index := index + 1;
      literals := literals + [value];
    }

    /** The loop of `template` up to the closing backtick or the next hole. */
    method ReadChunk() returns (chunk: string)
      modifies this`index
      ensures (chunk, Left()) == ScanChunk(old(Left()))
    {
      chunk := "";
      ghost var start := Left();
      assert "" + ScanChunk(start).0 == ScanChunk(start).0;
      while index < |source| && source[index] != '`' && !StartsWith(source[index..], "${")
        invariant ScanChunk(start) == (chunk + ScanChunk(Left()).0, ScanChunk(Left()).1)
        decreases |Left()|
      {
        var text := ReadOne();
        TextAssociative(chunk, text, ScanChunk(Left()).0);
        chunk := chunk + text;
      }
      assert chunk + "" == chunk;
    }

    /** A hole, at its `${`, past its closing brace. */
    method ReadHole()
      requires StartsWith(Left(), "${")
      modifies this
      ensures
        var r := ScanCode(old(Left())[2..], true, 0);
        literals == old(literals) + r.literals && Left() == Drop1(r.rest)
      decreases |Left()|, 0
    {
      index := index + 2;
      ReadCode(true);
      index := index + 1;
    }

    /** A hole and the chunk after it. */
    method ReadHoleAndChunk(ghost goal: Scan, ghost pushed: seq<string>) returns (ghost more: seq<string>)
      requires StartsWith(Left(), "${") && goal == AfterChunk(pushed, Left())
      modifies this
      ensures literals == old(literals) + more && |Left()| < |old(Left())|
      ensures goal == AfterChunk(pushed + more, Left()) && AtChunkEnd(Left())
      decreases |Left()|, 1
    {
      ghost var here := Left();
      AfterChunkStep(pushed, here);
      ghost var hole := ScanCode(here[2..], true, 0);
      ReadHole();
      var chunk := ReadChunk();
      literals := literals + [chunk];
      more := hole.literals + [chunk];
      assert pushed + more == pushed + hole.literals + [chunk];
    }

    /** `template`, after its opening backtick. */
    method ReadTemplate()
      modifies this
      ensures
        var r := ScanTemplate(old(Left()));
        literals == old(literals) + r.literals && Left() == r.rest
      decreases |Left()|, 2
    {
      ghost var size, goal := |Left()|, ScanTemplate(Left());
      TemplateStart(Left());
      var chunk := ReadChunk();
      literals := literals + [chunk];
      ghost var pushed := [chunk];
      while index < |source| && source[index] != '`'
        invariant |Left()| <= size && AtChunkEnd(Left())
        invariant literals == old(literals) + pushed
        invariant goal == AfterChunk(pushed, Left())
        decreases |Left()|
      {
        ghost var more := ReadHoleAndChunk(goal, pushed);
        Associative(old(literals), pushed, more);
        pushed := pushed + more;
      }
      index := index + 1;
    }

    /** One round of `code`. */
    method ReadPiece(depth: int) returns (newDepth: int)
      requires index < |source|
      modifies this
      ensures
        var r := ScanPiece(old(Left()), depth);
        literals == old(literals) + r.literals && Left() == r.rest && newDepth == r.depth
      decreases |Left()|, 3
    {
      newDepth := depth;
      var c := source[index];
      if StartsWith(source[index..], "//") {
        SkipTo("\n");
      } else if StartsWith(source[index..], "/*") {
        SkipTo("*/");
      } else if c == '"' || c == '\'' {
        index := index + 1;
        ReadQuoted(c);
      } else if c == '`' {
        index := index + 1;
        ReadTemplate();
      } else {
        if c == '{' {
          newDepth := newDepth + 1;
        }
        if c == '}' {
          newDepth := newDepth - 1;
        }
        index := index + 1;
      }
    }

    /** One round of `code` together with what it contributes to the whole scan. */
    method CodeRound(ghost goal: Scan, ghost pushed: seq<string>, inHole: bool, depth: int)
      returns (newDepth: int, ghost more: seq<string>)
      requires index < |source| && !EndsHole(Left(), inHole, depth)
      requires goal == Prefix(pushed, ScanCode(Left(), inHole, depth))
      modifies this
      ensures literals == old(literals) + more && |Left()| < |old(Left())|
      ensures goal == Prefix(pushed + more, ScanCode(Left(), inHole, newDepth))
      decreases |Left()|, 4
    {
      CodeStep(pushed, Left(), inHole, depth);
      more := ScanPiece(Left(), depth).literals;
      newDepth := ReadPiece(depth);
    }

    /** `code`, up to the end of the source or of the hole. */
    method ReadCode(inHole: bool)
      modifies this
      ensures
        var r := ScanCode(old(Left()), inHole, 0);
        literals == old(literals) + r.literals && Left() == r.rest
      decreases |Left()|, 5
    {
      var depth := 0;
      ghost var size, goal, pushed := |Left()|, ScanCode(Left(), inHole, 0), [];
      CodeStart(Left(), inHole);
      while index < |source| && !(inHole && source[index] == '}' && depth == 0)
        invariant |Left()| <= size
        invariant literals == old(literals) + pushed
        invariant goal == Prefix(pushed, ScanCode(Left(), inHole, depth))
        decreases |Left()|
      {
        ghost var more;
        depth, more := CodeRound(goal, pushed, inHole, depth);
        Associative(old(literals), pushed, more);
        pushed := pushed + more;
      }
      CodeStop(pushed, Left(), inHole, depth);
    }

    /** Moves the index past the next occurrence of the marker. */
    method SkipTo(marker: string)
      requires marker != "" && index <= |source|
      modifies this`index
      ensures Left() == SkipPast(old(Left()), marker)
    {
      var rest := SkipPast(source[index..], marker);
      index := |source| - |rest|;
    }
  }

  /** `stringLiterals` as the source runs it. */
  method CollectLiterals(source: string) returns (literals: seq<string>)
    ensures literals == StringLiterals(source)
  {
    var scanner := new Scanner(source);
    scanner.ReadCode(false);
    return scanner.literals;
  }

  lemma TextAssociative(a: string, b: string, c: string)
    ensures a + (b + c) == (a + b) + c
  {}

  lemma Associative(a: seq<string>, b: seq<string>, c: seq<string>)
    ensures (a + b) + c == a + (b + c)
  {}

  lemma CodeStart(s: string, inHole: bool)
    ensures ScanCode(s, inHole, 0) == Prefix([], ScanCode(s, inHole, 0))
  {
    var r := ScanCode(s, inHole, 0);
    assert Prefix([], r) == r;
  }

  lemma CodeStep(pushed: seq<string>, s: string, inHole: bool, depth: int)
    requires s != "" && !EndsHole(s, inHole, depth)
    ensures
      var r := ScanPiece(s, depth);
      Prefix(pushed, ScanCode(s, inHole, depth)) == Prefix(pushed + r.literals, ScanCode(r.rest, inHole, r.depth))
  {
    var r := ScanPiece(s, depth);
    PrefixTwice(pushed, r.literals, ScanCode(r.rest, inHole, r.depth));
  }

  lemma CodeStop(pushed: seq<string>, s: string, inHole: bool, depth: int)
    requires s == "" || EndsHole(s, inHole, depth)
    ensures Prefix(pushed, ScanCode(s, inHole, depth)) == Scan(pushed, s)
  {}

  /** The scan of a template whose chunk has just been pushed and which stands at its end or at a
      hole. */
  function AfterChunk(pushed: seq<string>, s: string): Scan {
    if s == "" then Scan(pushed, "")
    else if s[0] == '`' || |s| < 2 then Scan(pushed, s[1..])
    else
      var hole := ScanCode(s[2..], true, 0);
      var after := ScanTemplate(Drop1(hole.rest));
      Scan(pushed + hole.literals + after.literals, after.rest)
  }

  predicate AtChunkEnd(s: string) {
    s == "" || s[0] == '`' || StartsWith(s, "${")
  }

  lemma TemplateStart(s: string)
    ensures ScanTemplate(s) == AfterChunk([ScanChunk(s).0], ScanChunk(s).1)
  {}

  /** Past a hole and the chunk that follows it. */
  lemma AfterChunkStep(pushed: seq<string>, s: string)
    requires StartsWith(s, "${")
    ensures
      var hole := ScanCode(s[2..], true, 0);
      var c := ScanChunk(Drop1(hole.rest));
      AfterChunk(pushed, s) == AfterChunk(pushed + hole.literals + [c.0], c.1)
  {
    var hole := ScanCode(s[2..], true, 0);
    var c := ScanChunk(Drop1(hole.rest));
    if c.1 != "" && c.1[0] != '`' {
      var inner := ScanCode(c.1[2..], true, 0);
      var after := ScanTemplate(Drop1(inner.rest));
      assert pushed + hole.literals + ([c.0] + inner.literals + after.literals)
          == pushed + hole.literals + [c.0] + inner.literals + after.literals;
    }
  }
}
