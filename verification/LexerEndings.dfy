/** Sources that end too early: inside a comment, a string, a template, a hole or a brace group. */
module LexerEndings {
  import opened StringLexer

  /** How the source ends, after complete code. `lone` is a backslash with nothing behind it. */
  datatype Ending =
    | Stops
    | InComment(text: string)
    | InQuoted(quote: char, content: seq<Unit>, lone: bool)
    | InTemplate(open: Open)
    | InBraces(inner: Code, deeper: Ending)

  /** A template that is not closed: after some complete holes it ends in its text or in a hole. */
  datatype Open =
    | InText(chunk: seq<Unit>, lone: bool)
    | Past(chunk: seq<Unit>, code: Code, more: Open)
    | InHole(chunk: seq<Unit>, code: Code, deeper: Ending)

  function Backslash(lone: bool): string {
    if lone then "\\" else ""
  }

  function PrintEnding(e: Ending): string {
    match e
    case Stops => ""
    case InComment(text) => text
    case InQuoted(q, content, lone) => [q] + (Written(content) + Backslash(lone))
    case InTemplate(open) => "`" + PrintOpen(open)
    case InBraces(inner, deeper) => "{" + (PrintCode(inner) + PrintEnding(deeper))
  }

  function PrintOpen(o: Open): string {
    match o
    case InText(chunk, lone) => Written(chunk) + Backslash(lone)
    case Past(chunk, code, more) => Written(chunk) + ("${" + (PrintCode(code) + ("}" + PrintOpen(more))))
    case InHole(chunk, code, deeper) => Written(chunk) + ("${" + (PrintCode(code) + PrintEnding(deeper)))
  }

  /** The literals of an ending: the unfinished ones as far as they go, and for each hole that is not
      closed the empty rest of its template. */
  function EndingLiterals(e: Ending): seq<string> {
    match e
    case Stops | InComment(_) => []
    case InQuoted(_, content, _) => [Characters(content)]
    case InTemplate(open) => OpenLiterals(open)
    case InBraces(inner, deeper) => CodeLiterals(inner) + EndingLiterals(deeper)
  }

  function OpenLiterals(o: Open): seq<string> {
    match o
    case InText(chunk, _) => [Characters(chunk)]
    case Past(chunk, code, more) => [Characters(chunk)] + CodeLiterals(code) + OpenLiterals(more)
    case InHole(chunk, code, deeper) => [Characters(chunk)] + (CodeLiterals(code) + EndingLiterals(deeper)) + [""]
  }

  predicate WellEnded(e: Ending) {
    match e
    case Stops => true
    case InComment(text) => text != "" && EndingOk(text)
    case InQuoted(q, content, _) => (q == '"' || q == '\'') && QuotedOk(content, q)
    case InTemplate(open) => OpenOk(open)
    case InBraces(inner, deeper) => CodeOk(inner, PrintEnding(deeper)) && WellEnded(deeper)
  }

  predicate OpenOk(o: Open) {
    match o
    case InText(chunk, _) => ChunkOk(chunk)
    case Past(chunk, code, more) => ChunkOk(chunk) && CodeOk(code, "}") && OpenOk(more)
    case InHole(chunk, code, deeper) => ChunkOk(chunk) && CodeOk(code, PrintEnding(deeper)) && WellEnded(deeper)
  }

  lemma {:induction false} QuotedToTheEnd(us: seq<Unit>, quote: char, lone: bool)
    requires QuotedOk(us, quote) && quote != '\\'
    ensures ScanQuoted(Written(us) + Backslash(lone), quote) == (Characters(us), "")
  {
    var s := Written(us) + Backslash(lone);
    if us == [] {
      assert s == Backslash(lone);
      assert ScanQuoted("", quote) == ("", "");
    } else {
      QuotedToTheEnd(us[1..], quote, lone);
      var tail := Written(us[1..]) + Backslash(lone);
      if us[0].escaped {
        assert s[0] == '\\' && s[1] == us[0].c && s[2..] == tail;
      } else {
        assert s[0] == us[0].c && s[1..] == tail;
      }
    }
  }

  lemma {:induction false} ChunkToTheEnd(us: seq<Unit>, lone: bool)
    requires ChunkOk(us)
    ensures ScanChunk(Written(us) + Backslash(lone)) == (Characters(us), "")
    decreases |us|
  {
    var s := Written(us) + Backslash(lone);
    if us == [] {
      assert s == Backslash(lone);
      assert ScanChunk("") == ("", "");
      if lone {
        assert s[0] == '\\' && |s| == 1 && TakeOne(s) == ("", "");
        assert !StartsWith(s, "${");
        var nothing: string := "" + "";
        assert ScanChunk(s) == (nothing, "") && nothing == "";
      }
    } else {
      var next := Written(us[1..]) + Backslash(lone);
      ChunkNext(us, Backslash(lone));
      ChunkToTheEnd(us[1..], lone);
      if us[0].escaped {
        assert s[0] == '\\' && s[1] == us[0].c && s[2..] == next;
      } else {
        assert s[0] == us[0].c && s[1..] == next;
        assert StartsWith(s, "${") ==> us[0].c == '$' && StartsWith(next, "{");
      }
    }
  }

  /** An unfinished construct is one round of the scan that reaches the end. */
  lemma OneRound(s: string, inHole: bool, depth: int, literals: seq<string>)
    requires s != "" && s[0] != '}' && ScanPiece(s, depth).literals == literals && ScanPiece(s, depth).rest == ""
    ensures ScanCode(s, inHole, depth) == Scan(literals, "")
  {
    assert ScanCode("", inHole, ScanPiece(s, depth).depth) == Scan([], "");
    assert literals + [] == literals;
  }

  lemma CommentToTheEnd(text: string, depth: int)
    requires text != "" && EndingOk(text)
    ensures ScanPiece(text, depth) == Round([], "", depth) && text[0] != '}'
  {
    if "//" <= text && '\n' !in text {
      LineEnding(text);
    } else {
      BlockEnding(text);
    }
    assert text[0] == '/' && ScanPiece(text, 0).rest == "";
  }

  /** Reading an ending collects its literals and reaches the end of the source. */
  lemma {:induction false} EndingIsRead(e: Ending, inHole: bool, depth: nat)
    requires WellEnded(e)
    ensures ScanCode(PrintEnding(e), inHole, depth) == Scan(EndingLiterals(e), "")
    decreases e, 0
  {
    var s := PrintEnding(e);
    match e {
      case Stops =>
      case InComment(text) =>
        CommentToTheEnd(text, depth);
        OneRound(s, inHole, depth, []);
      case InQuoted(q, content, lone) =>
        assert s[0] == q && s[1..] == Written(content) + Backslash(lone);
        QuotedToTheEnd(content, q, lone);
        OneRound(s, inHole, depth, [Characters(content)]);
      case InTemplate(open) =>
        assert s[0] == '`' && s[1..] == PrintOpen(open);
        OpenIsRead(open);
        OneRound(s, inHole, depth, OpenLiterals(open));
      case InBraces(inner, deeper) =>
        BraceStep(true, PrintCode(inner) + PrintEnding(deeper), inHole, depth);
        CodeThenEnding(inner, deeper, inHole, depth + 1);
    }
  }

  lemma {:induction false} CodeThenEnding(c: Code, e: Ending, inHole: bool, depth: nat)
    requires WellEnded(e) && CodeOk(c, PrintEnding(e))
    ensures
      ScanCode(PrintCode(c) + PrintEnding(e), inHole, depth) == Scan(CodeLiterals(c) + EndingLiterals(e), "")
    decreases e, 1
  {
    CodeIsRead(c, PrintEnding(e), inHole, depth);
    EndingIsRead(e, inHole, depth);
  }

  lemma {:induction false} OpenIsRead(o: Open)
    requires OpenOk(o)
    ensures ScanTemplate(PrintOpen(o)) == Scan(OpenLiterals(o), "")
    decreases o, 0
  {
    var chunk := o.chunk;
    match o {
      case InText(_, lone) => ChunkToTheEnd(chunk, lone);
      case Past(_, code, more) =>
        var after := PrintOpen(more);
        HoleOpens(chunk, PrintCode(code) + ("}" + after));
        HoleIsRead(code, after);
        OpenIsRead(more);
      case InHole(_, code, deeper) =>
        HoleOpens(chunk, PrintCode(code) + PrintEnding(deeper));
        CodeThenEnding(code, deeper, true, 0);
        assert ScanTemplate("") == Scan([""], "");
    }
  }

  lemma HoleOpens(chunk: seq<Unit>, inner: string)
    requires ChunkOk(chunk)
    ensures
      var hole := ScanCode(inner, true, 0);
      var after := ScanTemplate(Drop1(hole.rest));
      ScanTemplate(Written(chunk) + ("${" + inner)) ==
        Scan([Characters(chunk)] + hole.literals + after.literals, after.rest)
  {
    var open := "${" + inner;
    assert open[0] == '$' && open[2..] == inner && StartsWith(open, "${");
    ChunkIsRead(chunk, open);
  }

  /** A source that ends too early, however deep, yields the literals of what is complete and of what
      is not, in source order. */
  lemma UnfinishedSourceIsRead(c: Code, e: Ending)
    requires WellEnded(e) && CodeOk(c, PrintEnding(e))
    ensures StringLiterals(PrintCode(c) + PrintEnding(e)) == CodeLiterals(c) + EndingLiterals(e)
  {
    CodeThenEnding(c, e, false, 0);
  }

  // ---- every text can be written ----

  /** The text with every character escaped. */
  function Escaped(text: string): seq<Unit> {
    seq(|text|, i requires 0 <= i < |text| => Unit(text[i], true))
  }

  lemma {:induction false} EscapedIsText(text: string)
    ensures Characters(Escaped(text)) == text
  {
    if text != "" {
      assert Escaped(text)[1..] == Escaped(text[1..]);
      EscapedIsText(text[1..]);
    }
  }

  /** Any texts are the literals of some source of quoted strings, with either quote. */
  lemma {:induction false} TextsCanBeQuoted(texts: seq<string>, quote: char) returns (c: Code)
    requires quote == '"' || quote == '\''
    ensures CodeOk(c, "") && StringLiterals(PrintCode(c)) == texts && CodeLiterals(c) == texts
  {
    if texts == [] {
      c := Nil;
    } else {
      EscapedIsText(texts[0]);
      var rest := TextsCanBeQuoted(texts[1..], quote);
      c := Cons(Quoted(quote, Escaped(texts[0])), rest);
      assert texts == [texts[0]] + texts[1..];
    }
    LiteralsRoundTrip(c, "");
    assert PrintCode(c) + "" == PrintCode(c);
  }

  lemma {:induction false} TextsCanBeParts(texts: seq<string>) returns (t: Parts)
    requires texts != []
    ensures PartsOk(t) && PartLiterals(t) == texts
  {
    EscapedIsText(texts[0]);
    if |texts| == 1 {
      t := End(Escaped(texts[0]));
    } else {
      var more := TextsCanBeParts(texts[1..]);
      t := Hole(Escaped(texts[0]), Nil, more);
      assert texts == [texts[0]] + [] + texts[1..];
    }
  }

  /** And, unless there are none, of one template whose empty holes separate them. */
  lemma TextsCanBeTemplate(texts: seq<string>) returns (c: Code)
    requires texts != []
    ensures CodeOk(c, "") && StringLiterals(PrintCode(c)) == texts && CodeLiterals(c) == texts
  {
    var t := TextsCanBeParts(texts);
    c := Cons(Template(t), Nil);
    assert CodeLiterals(c) == texts + [] == texts;
    LiteralsRoundTrip(c, "");
    assert PrintCode(c) + "" == PrintCode(c);
  }
}
