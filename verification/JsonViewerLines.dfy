/** The viewer shows the highlighted text line by line, next to the lines of the text itself. */
module JsonViewerLines {
  import opened Text
  import opened JsonViewer

  function Render(p: Piece): string {
    match p
    case Plain(c) => [c]
    case Span(color, token) => Wrap(color, token)
  }

  function RenderAll(ps: seq<Piece>): string {
    if ps == [] then "" else Render(ps[0]) + RenderAll(ps[1..])
  }

  /** Pieces as the highlighter makes them. */
  predicate Clean(p: Piece) {
    match p
    case Plain(c) => c != '<' && c != '>'
    case Span(color, token) => '"' !in color && '\n' !in color && NoAngles(token)
  }

  predicate AllClean(ps: seq<Piece>) {
    forall i :: 0 <= i < |ps| ==> Clean(ps[i])
  }

  lemma RenderCons(p: Piece, ps: seq<Piece>)
    ensures RenderAll([p] + ps) == Render(p) + RenderAll(ps)
  {
    assert ([p] + ps)[1..] == ps;
  }

  lemma {:induction false} ReplaceRenders(prevWord: bool, t: string)
    ensures Replace(prevWord, t) == RenderAll(Lex(prevWord, t))
    decreases |t|
  {
    hide MatchLen, Color, Wrap;
    if t != "" {
      var n := MatchLen(prevWord, t);
      if n == 0 {
        ReplaceRenders(IsWord(t[0]), t[1..]);
        RenderCons(Plain(t[0]), Lex(IsWord(t[0]), t[1..]));
      } else {
        ReplaceRenders(IsWord(t[n - 1]), t[n..]);
        RenderCons(Span(Color(t[..n]), t[..n]), Lex(IsWord(t[n - 1]), t[n..]));
      }
    }
  }

  lemma CleanCons(p: Piece, ps: seq<Piece>)
    requires Clean(p) && AllClean(ps)
    ensures AllClean([p] + ps)
  {
  }

  lemma NoAnglesParts(t: string, n: nat)
    requires NoAngles(t) && n <= |t|
    ensures NoAngles(t[..n]) && NoAngles(t[n..])
  {
  }

  lemma NoAnglesFirst(t: string)
    requires NoAngles(t) && t != ""
    ensures t[0] != '<' && t[0] != '>'
  {
  }

  lemma {:induction false} LexClean(prevWord: bool, t: string)
    requires NoAngles(t)
    ensures AllClean(Lex(prevWord, t))
    decreases |t|
  {
    hide MatchLen, Color, NoAngles;
    if t != "" {
      var n := MatchLen(prevWord, t);
      if n == 0 {
        NoAnglesParts(t, 1);
        NoAnglesFirst(t);
        LexClean(IsWord(t[0]), t[1..]);
        CleanCons(Plain(t[0]), Lex(IsWord(t[0]), t[1..]));
      } else {
        NoAnglesParts(t, n);
        LexClean(IsWord(t[n - 1]), t[n..]);
        ColorIsQuotable(t[..n]);
        CleanCons(Span(Color(t[..n]), t[..n]), Lex(IsWord(t[n - 1]), t[n..]));
      }
    }
  }

  /** No span runs over a line end. */
  predicate NoBrokenSpan(ps: seq<Piece>) {
    forall i :: 0 <= i < |ps| && ps[i].Span? ==> '\n' !in ps[i].text
  }

  /** Every line is well formed by itself. */
  predicate AllRead(lines: seq<string>) {
    forall i :: 0 <= i < |lines| ==> ReadHtml(lines[i]).Some?
  }

  /** Each line reads as the text line beside it. */
  predicate ReadAs(lines: seq<string>, texts: seq<string>) {
    |lines| == |texts| && forall i :: 0 <= i < |lines| ==>
      ReadHtml(lines[i]).Some? && TextOf(ReadHtml(lines[i]).value) == texts[i]
  }

  function Count(s: string, c: char): nat {
    if s == "" then 0 else (if s[0] == c then 1 else 0) + Count(s[1..], c)
  }

  lemma {:induction false} CountConcat(a: string, b: string, c: char)
    ensures Count(a + b, c) == Count(a, c) + Count(b, c)
  {
    if a == "" {
      assert a + b == b;
    } else {
      assert (a + b)[1..] == a[1..] + b;
      CountConcat(a[1..], b, c);
    }
  }

  lemma {:induction false} CountAbsent(a: string, c: char)
    requires c !in a
    ensures Count(a, c) == 0
  {
    if a != "" {
      CountAbsent(a[1..], c);
    }
  }

  lemma {:induction false} SplitCount(s: string, c: char)
    ensures |Split(s, c)| == 1 + Count(s, c)
  {
    if s != "" {
      SplitCount(s[1..], c);
    }
  }

  lemma CountWrap(color: string, token: string)
    requires '\n' !in color
    ensures Count(Wrap(color, token), '\n') == Count(token, '\n')
  {
    CountAbsent(OPEN + color + MID, '\n');
    CountAbsent(CLOSE, '\n');
    CountConcat(OPEN + color + MID, token, '\n');
    CountConcat(OPEN + color + MID + token, CLOSE, '\n');
  }

  lemma {:induction false} SameLineCount(ps: seq<Piece>)
    requires AllClean(ps)
    ensures |Split(RenderAll(ps), '\n')| == |Split(TextOf(ps), '\n')|
  {
    SplitCount(RenderAll(ps), '\n');
    SplitCount(TextOf(ps), '\n');
    SameNewlines(ps);
  }

  lemma {:induction false} SameNewlines(ps: seq<Piece>)
    requires AllClean(ps)
    ensures Count(RenderAll(ps), '\n') == Count(TextOf(ps), '\n')
  {
    if ps != [] {
      SameNewlines(ps[1..]);
      CountConcat(Render(ps[0]), RenderAll(ps[1..]), '\n');
      match ps[0]
      case Plain(c) => CountConcat([c], TextOf(ps[1..]), '\n');
      case Span(color, token) =>
        assert Clean(ps[0]);
        CountWrap(color, token);
        CountConcat(token, TextOf(ps[1..]), '\n');
    }
  }

  lemma SplitNewline(s: string)
    ensures Split("\n" + s, '\n') == [""] + Split(s, '\n')
  {
    assert ("\n" + s)[1..] == s;
  }

  lemma {:induction false} UntilAbsent(a: string, c: char)
    requires c !in a
    ensures Until(a, c) == |a|
  {
    if a != "" {
      assert a[0] in a;
      UntilAbsent(a[1..], c);
    }
  }

  lemma CutAbsent(text: string)
    requires '<' !in text
    ensures Cut(text, CLOSE).None?
  {
    UntilAbsent(text, '<');
    assert text[|text|..] == "";
  }

  /** Without a closing tag, nothing is read. */
  lemma UnclosedUnread(color: string, text: string)
    requires '"' !in color && '<' !in text
    ensures ReadHtml(OPEN + color + MID + text).None?
  {
    hide Cut;
    var h := OPEN + color + MID + text;
    assert h == OPEN + (color + MID + text);
    assert h[|OPEN|..] == color + MID + text;
    CutExact(color, MID, text);
    CutAbsent(text);
    assert h[0] == OPEN[0] == '<';
  }

  /** A span whose text runs over a line end leaves a first line without its closing tag. */
  lemma BrokenSpanUnread(color: string, token: string, rest: string)
    requires Clean(Span(color, token)) && '\n' in token
    ensures ReadHtml(Split(Wrap(color, token) + rest, '\n')[0]).None?
  {
    hide ReadHtml, Until;
    var k := Until(token, '\n');
    assert token[..|token|] == token;
    var first := token[..k];
    var head := OPEN + color + MID + first;
    var tail := token[k + 1..] + CLOSE + rest;
    assert token == first + "\n" + token[k + 1..];
    assert Wrap(color, token) + rest == head + ("\n" + tail);
    assert '\n' !in head by {
      assert '\n' !in OPEN && '\n' !in MID;
    }
    SplitPrefix(head, "\n" + tail, '\n');
    SplitNewline(tail);
    assert head + "" == head;
    UnclosedUnread(color, first);
  }

  /** What one more piece in front does to the lines. */
  ghost predicate LinesOk(ps: seq<Piece>) {
    var lines := Split(RenderAll(ps), '\n');
    && (AllRead(lines) <==> NoBrokenSpan(ps))
    && (NoBrokenSpan(ps) ==> ReadAs(lines, Split(TextOf(ps), '\n')))
  }

  lemma PlainLines(c: char, rest: seq<Piece>)
    requires c != '<' && c != '>' && LinesOk(rest)
    ensures LinesOk([Plain(c)] + rest)
  {
    hide ReadHtml, Split, NoBrokenSpan, AllRead, ReadAs;
    assert ([Plain(c)] + rest)[1..] == rest;
    NoBrokenSpanCons(Plain(c), rest);
    RenderCons(Plain(c), rest);
    var lines, texts := Split(RenderAll(rest), '\n'), Split(TextOf(rest), '\n');
    if c == '\n' {
      SplitNewline(RenderAll(rest));
      SplitNewline(TextOf(rest));
      EmptyLine();
      ConsLine("", lines, "", texts);
    } else {
      SplitPrefix([c], RenderAll(rest), '\n');
      SplitPrefix([c], TextOf(rest), '\n');
      ReadPlain(c, lines[0]);
      FirstLine([c], lines, [c], texts, Plain(c));
    }
  }

  lemma EmptyLine()
    ensures ReadHtml("") == Some([]) && TextOf([]) == ""
  {
  }

  lemma NoBrokenSpanCons(p: Piece, rest: seq<Piece>)
    ensures NoBrokenSpan([p] + rest) <==> NoBrokenSpan(rest) && (p.Span? ==> '\n' !in p.text)
  {
    var ps := [p] + rest;
    assert ps[0] == p;
    assert forall i :: 0 <= i < |rest| ==> ps[i + 1] == rest[i];
  }

  lemma BrokenLines(color: string, token: string, rest: seq<Piece>)
    requires Clean(Span(color, token)) && '\n' in token
    ensures LinesOk([Span(color, token)] + rest)
  {
    hide ReadHtml, Split, Wrap;
    RenderCons(Span(color, token), rest);
    BrokenSpanUnread(color, token, RenderAll(rest));
    NoBrokenSpanCons(Span(color, token), rest);
  }

  lemma WrapOneLine(color: string, token: string)
    requires '\n' !in color && '\n' !in token
    ensures '\n' !in Wrap(color, token)
  {
    assert '\n' !in OPEN && '\n' !in MID && '\n' !in CLOSE;
  }

  lemma WholeLines(color: string, token: string, rest: seq<Piece>)
    requires Clean(Span(color, token)) && '\n' !in token && LinesOk(rest)
    ensures LinesOk([Span(color, token)] + rest)
  {
    hide ReadHtml, Split, Wrap, NoBrokenSpan, AllRead, ReadAs;
    var p := Span(color, token);
    assert ([p] + rest)[1..] == rest;
    var lines, texts := Split(RenderAll(rest), '\n'), Split(TextOf(rest), '\n');
    RenderCons(p, rest);
    NoBrokenSpanCons(p, rest);
    WrapOneLine(color, token);
    SplitPrefix(Wrap(color, token), RenderAll(rest), '\n');
    SplitPrefix(token, TextOf(rest), '\n');
    ReadSpan(color, token, lines[0]);
    FirstLine(Wrap(color, token), lines, token, texts, p);
  }

  lemma SpanLines(color: string, token: string, rest: seq<Piece>)
    requires Clean(Span(color, token)) && LinesOk(rest)
    ensures LinesOk([Span(color, token)] + rest)
  {
    hide LinesOk;
    if '\n' in token {
      BrokenLines(color, token, rest);
    } else {
      WholeLines(color, token, rest);
    }
  }

  lemma CleanPlain(c: char)
    requires Clean(Plain(c))
    ensures c != '<' && c != '>'
  {
  }

  lemma NoLines()
    ensures LinesOk([])
  {
    EmptyLine();
  }

  lemma {:induction false} LinesOfPieces(ps: seq<Piece>)
    requires AllClean(ps)
    ensures LinesOk(ps)
  {
    hide Clean, LinesOk;
    if ps == [] {
      NoLines();
    } else {
      var rest := ps[1..];
      LinesOfPieces(rest);
      assert ps == [ps[0]] + rest;
      assert Clean(ps[0]);
      match ps[0]
      case Plain(c) => CleanPlain(c); PlainLines(c, rest);
      case Span(color, token) => SpanLines(color, token, rest);
    }
  }

  lemma ConsLine(html: string, lines: seq<string>, text: string, texts: seq<string>)
    requires ReadHtml(html).Some? && TextOf(ReadHtml(html).value) == text
    ensures AllRead([html] + lines) <==> AllRead(lines)
    ensures ReadAs(lines, texts) ==> ReadAs([html] + lines, [text] + texts)
  {
    hide ReadHtml, TextOf;
    if AllRead([html] + lines) {
      forall i | 0 <= i < |lines| ensures ReadHtml(lines[i]).Some? {
        assert ([html] + lines)[i + 1] == lines[i];
      }
    }
  }

  /** Putting a piece in front of the first line. */
  lemma FirstLine(html: string, lines: seq<string>, text: string, texts: seq<string>, p: Piece)
    requires lines != [] && texts != [] && ReadHtml(html + lines[0]) == Prepend(p, ReadHtml(lines[0]))
    requires text == match p case Plain(c) => [c] case Span(_, s) => s
    ensures AllRead([html + lines[0]] + lines[1..]) <==> AllRead(lines)
    ensures ReadAs(lines, texts) ==> ReadAs([html + lines[0]] + lines[1..], [text + texts[0]] + texts[1..])
  {
    hide ReadHtml;
    var lines' := [html + lines[0]] + lines[1..];
    if AllRead(lines') {
      forall i | 0 <= i < |lines| ensures ReadHtml(lines[i]).Some? {
        assert ReadHtml(lines'[i]).Some?;
      }
    }
  }

  lemma EscapeCharOneLine(c: char)
    requires c != '\n'
    ensures '\n' !in EscapeChar(c)
  {
  }

  lemma {:induction false} SplitEscaped(s: string)
    ensures |Split(Escaped(s), '\n')| == |Split(s, '\n')|
    ensures forall i :: 0 <= i < |Split(s, '\n')| ==> Split(Escaped(s), '\n')[i] == Escaped(Split(s, '\n')[i])
  {
    hide EscapeChar;
    if s != "" {
      hide Split;
      var c, rest := s[0], s[1..];
      SplitEscaped(rest);
      assert s == [c] + rest;
      if c == '\n' {
        assert EscapeChar('\n') == "\n" by { NewlineStays(); }
        SplitNewline(Escaped(rest));
        SplitNewline(rest);
      } else {
        EscapeCharOneLine(c);
        SplitPrefix(EscapeChar(c), Escaped(rest), '\n');
        SplitPrefix([c], rest, '\n');
        var first := Split(rest, '\n')[0];
        assert ([c] + first)[1..] == first;
      }
    }
  }

  lemma NewlineStays()
    ensures EscapeChar('\n') == "\n"
  {
  }

  /** Each highlighted line is well formed by itself and shows the text line beside it. */
  predicate ShowsLines(html: seq<string>, lines: seq<string>) {
    |html| == |lines| && forall i :: 0 <= i < |html| ==>
      ReadHtml(html[i]).Some? && Unescape(TextOf(ReadHtml(html[i]).value)) == lines[i]
  }

  /**
   For every text the highlighted form has as many lines as the text, and line by line it is well
   formed and shows the text unless a token runs over a line end.
   */
  lemma HighlightedLines(json: string)
    ensures var html, lines := Split(SyntaxHighlight(json), '\n'), Split(json, '\n');
            var whole := NoBrokenSpan(Lex(false, EscapeHtml(json)));
            |html| == |lines| && (AllRead(html) <==> whole) && (ShowsLines(html, lines) <==> whole)
  {
    EscapeIsCharwise(json);
    EscapedNoAngles(json);
    var t := Escaped(json);
    var tokens := Lex(false, t);
    ReplaceRenders(false, t);
    LexClean(false, t);
    LexText(false, t);
    SameLineCount(tokens);
    LinesOfPieces(tokens);
    SplitEscaped(json);
    var html, lines := Split(SyntaxHighlight(json), '\n'), Split(json, '\n');
    if NoBrokenSpan(tokens) {
      forall i | 0 <= i < |html| ensures Unescape(TextOf(ReadHtml(html[i]).value)) == lines[i] {
        UnescapeEscaped(lines[i]);
      }
    }
  }

  lemma {:induction false} EscapedPlain(s: string)
    requires '&' !in s && NoAngles(s)
    ensures Escaped(s) == s
  {
    if s != "" {
      assert s[0] in s;
      EscapedPlain(s[1..]);
    }
  }
}
