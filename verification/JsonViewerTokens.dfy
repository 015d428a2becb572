/**
 What the viewer colours: in every JSON text exactly its keys, strings, numbers, booleans and nulls,
 in order, each in its own colour; and when its lines match the lines of the text.
 */
module JsonViewerTokens {
  import opened Text
  import opened JsonText
  import opened JsonViewer
  import opened JsonViewerLines
  import Json

  /** The coloured tokens a text should show, in reading order, in HTML-escaped text. */
  function Tokens(t: Tree): seq<Piece>
    decreases t, 0
  {
    match t
    case Null => [Span("var(--text-muted)", "null")]
    case Bool(b) => [Span("#F5A623", if b then "true" else "false")]
    case Num(text) => [Span("#60A5FA", text)]
    case Str(body) => [Span("#2EBD85", Escaped(Quoted(body)))]
    case Arr(items, _) => ItemTokens(items)
    case Obj(members, _) => MemberTokens(members)
  }

  function ItemTokens(items: seq<Padded>): seq<Piece>
    decreases items, 0
  {
    if items == [] then [] else Tokens(items[0].value) + ItemTokens(items[1..])
  }

  /** A key is coloured together with its colon and what stands between them. */
  function KeySpan(m: Member): Piece {
    Span("#E2A828", Escaped(Quoted(m.key) + m.gap + ":"))
  }

  function MemberTokens(members: seq<Member>): seq<Piece>
    decreases members, 0
  {
    if members == [] then []
    else [KeySpan(members[0])] + Tokens(members[0].value.value) + MemberTokens(members[1..])
  }

  /** The spans found from here on. */
  function Found(prevWord: bool, t: string): seq<Piece> {
    SpansOf(Lex(prevWord, t))
  }

  // ---------- characters between tokens ----------

  /** A character no match starts at. */
  predicate Inert(c: char) {
    c != '"' && c != '-' && !IsWord(c)
  }

  predicate AllInert(a: string) {
    forall i :: 0 <= i < |a| ==> Inert(a[i])
  }

  lemma NoMatchAtInert(prevWord: bool, t: string)
    requires t != "" && Inert(t[0])
    ensures MatchLen(prevWord, t) == 0
  {
  }

  lemma FoundPlain(prevWord: bool, t: string)
    requires t != "" && MatchLen(prevWord, t) == 0
    ensures Found(prevWord, t) == Found(IsWord(t[0]), t[1..])
  {
    var rest := Lex(IsWord(t[0]), t[1..]);
    assert ([Plain(t[0])] + rest)[1..] == rest;
  }

  lemma FoundSpan(prevWord: bool, t: string, token: string, rest: string)
    requires t == token + rest && token != "" && MatchLen(prevWord, t) == |token|
    ensures Found(prevWord, t) == [Span(Color(token), token)] + Found(IsWord(token[|token| - 1]), rest)
  {
    assert t[..|token|] == token && t[|token|..] == rest;
    var tail := Lex(IsWord(token[|token| - 1]), rest);
    assert ([Span(Color(token), token)] + tail)[1..] == tail;
  }

  lemma {:induction false} SkipInert(prevWord: bool, a: string, rest: string)
    requires AllInert(a) && (a == "" ==> !prevWord)
    ensures Found(prevWord, a + rest) == Found(false, rest)
  {
    if a == "" {
      assert a + rest == rest;
    } else {
      assert (a + rest)[1..] == a[1..] + rest;
      NoMatchAtInert(prevWord, a + rest);
      FoundPlain(prevWord, a + rest);
      SkipInert(false, a[1..], rest);
    }
  }

  lemma BlankInert(b: Blank)
    ensures AllInert(b) && Escaped(b) == b
  {
    EscapedPlain(b);
  }

  /** What may follow a value: nothing, white space or one of `,]}`, and no colon behind white space. */
  predicate Follow(rest: string) {
    (rest == "" || rest[0] in " \t\n\r,]}") && ColonLen(rest) == 0
  }

  lemma AfterValue(prevWord: bool, rest: string)
    requires Follow(rest)
    ensures Found(prevWord, rest) == Found(false, rest)
  {
    if rest != "" {
      NoMatchAtInert(prevWord, rest);
      NoMatchAtInert(false, rest);
      FoundPlain(prevWord, rest);
      FoundPlain(false, rest);
    }
  }

  lemma {:induction false} FollowAfterBlank(b: Blank, rest: string)
    requires Follow(rest)
    ensures Follow(b + rest)
  {
    if b == "" {
      assert b + rest == rest;
    } else {
      FollowAfterBlank(b[1..], rest);
      assert (b + rest)[1..] == b[1..] + rest;
    }
  }

  /** It ends numbers and words. */
  lemma FollowStops(rest: string)
    requires Follow(rest)
    ensures rest == "" || (!IsWord(rest[0]) && !IsDigit(rest[0]) && rest[0] != '.' && rest[0] !in "eE")
  {
  }

  lemma FollowAt(c: char, rest: string)
    requires c in ",]}"
    ensures Follow([c] + rest)
  {
  }

  lemma {:induction false} ColonAfterBlank(b: Blank, rest: string)
    ensures ColonLen(b + (":" + rest)) == |b| + 1
  {
    var t := b + (":" + rest);
    if b == "" {
      assert t == ":" + rest;
    } else {
      ColonAfterBlank(b[1..], rest);
      assert t[1..] == b[1..] + (":" + rest);
    }
  }

  // ---------- strings ----------

  lemma BodyUnit(u: string, rest: string)
    requires IsUnit(u)
    ensures Body(u + rest) == match Body(rest) case None => None case Some(k) => Some(|u| + k)
  {
    var t := u + rest;
    assert t[0] == u[0];
    assert UnitLen(t) == |u| by {
      assert t[..|u|] == u;
      if |u| >= 2 { assert t[1] == u[1]; }
      if |t| >= 6 { assert t[..6][0] == t[0] && t[..6][1] == t[1]; }
      if |t| >= 2 { assert t[..2][0] == t[0] && t[..2][1] == t[1]; }
    }
    assert t[|u|..] == rest;
  }

  lemma {:induction false} BodyRaw(a: string, rest: string)
    requires '"' !in a && '\\' !in a
    ensures Body(a + rest) == match Body(rest) case None => None case Some(k) => Some(|a| + k)
  {
    hide Body;
    if a == "" {
      assert a + rest == rest;
    } else {
      assert a[0] in a;
      BodyRaw(a[1..], rest);
      BodyUnit([a[0]], a[1..] + rest);
      assert a + rest == [a[0]] + (a[1..] + rest);
    }
  }

  lemma EscapedOne(c: char)
    ensures Escaped([c]) == EscapeChar(c)
  {
    assert [c][1..] == "";
    assert Escaped("") == "";
  }

  /** A character of a string, escaped for HTML, is one escape or plain characters. */
  lemma EscapedStringChar(s: string, q: string)
    requires CharLen(s) > 0 && q == Escaped(s[..CharLen(s)])
    ensures IsUnit(q) || ('"' !in q && '\\' !in q)
    ensures '\n' !in q
  {
    hide Escaped;
    var c := s[..CharLen(s)];
    if |c| == 1 {
      assert c == [s[0]];
      EscapedOne(s[0]);
    } else {
      assert forall i :: 0 <= i < |c| ==> c[i] == s[i];
      EscapedPlain(c);
    }
  }

  lemma EscapedStringStep(s: string)
    requires CharLen(s) > 0
    ensures Escaped(s) == Escaped(s[..CharLen(s)]) + Escaped(s[CharLen(s)..])
  {
    assert s == s[..CharLen(s)] + s[CharLen(s)..];
    EscapedConcat(s[..CharLen(s)], s[CharLen(s)..]);
  }

  lemma {:induction false} BodyOfString(s: StringText, end: string)
    requires Body(end) == Some(1)
    ensures Body(Escaped(s) + end) == Some(|Escaped(s)| + 1)
    decreases |s|
  {
    hide Body, Escaped, IsUnit, CharLen;
    if s == "" {
      Nothing(end);
    } else {
      var first, rest := Escaped(s[..CharLen(s)]), Escaped(s[CharLen(s)..]);
      BodyOfString(s[CharLen(s)..], end);
      EscapedStringStep(s);
      EscapedStringChar(s, first);
      if IsUnit(first) {
        BodyUnit(first, rest + end);
      } else {
        BodyRaw(first, rest + end);
      }
      assert first + rest + end == first + (rest + end);
    }
  }

  lemma Nothing(rest: string)
    ensures Escaped("") + rest == rest && |Escaped("")| == 0
  {
  }

  lemma {:induction false} StringOnOneLine(s: StringText)
    ensures '\n' !in Escaped(s)
    decreases |s|
  {
    hide Escaped, CharLen;
    if s == "" {
      Nothing("");
    } else {
      StringOnOneLine(s[CharLen(s)..]);
      EscapedStringStep(s);
      EscapedStringChar(s, Escaped(s[..CharLen(s)]));
    }
  }

  /** Escaping distributes, seen in front of more text. */
  lemma EscapedOnto(a: string, b: string, rest: string)
    ensures Escaped(a + b) + rest == Escaped(a) + (Escaped(b) + rest)
  {
    hide Escaped;
    EscapedConcat(a, b);
  }

  lemma EscapedQuoted(s: string)
    ensures Escaped(Quoted(s)) == "\"" + Escaped(s) + "\""
  {
    EscapedConcat("\"", s);
    EscapedConcat("\"" + s, "\"");
    EscapedPlain("\"");
  }

  lemma QuoteEnds(rest: string)
    ensures Body("\"" + rest) == Some(1)
  {
  }

  lemma StringLen(s: StringText, rest: string)
    ensures MatchLen(false, Escaped(Quoted(s)) + rest) == |Escaped(Quoted(s))| + ColonLen(rest)
  {
    hide Body, Escaped, ColonLen, KeywordLen, NumberLen;
    var body := Escaped(s);
    EscapedQuoted(s);
    QuoteEnds(rest);
    BodyOfString(s, "\"" + rest);
    var t := Escaped(Quoted(s)) + rest;
    assert t == "\"" + (body + ("\"" + rest));
    assert t[1..] == body + ("\"" + rest);
    assert t[|body| + 2..] == rest;
  }

  lemma LexString(s: StringText, rest: string)
    requires Follow(rest)
    ensures Found(false, Escaped(Quoted(s)) + rest) == [Span(GREEN, Escaped(Quoted(s)))] + Found(false, rest)
  {
    hide Found, Escaped, MatchLen, ColonLen;
    var token := Escaped(Quoted(s));
    EscapedQuoted(s);
    StringLen(s, rest);
    FoundSpan(false, token + rest, token, rest);
    AfterValue(IsWord(token[|token| - 1]), rest);
  }

  lemma KeyToken(key: string, gap: Blank)
    ensures Escaped(Quoted(key) + gap + ":") == Escaped(Quoted(key)) + gap + ":"
    ensures Color(Escaped(Quoted(key)) + gap + ":") == GOLD
  {
    EscapedQuoted(key);
    EscapedConcat(Quoted(key), gap);
    EscapedConcat(Quoted(key) + gap, ":");
    BlankInert(gap);
    EscapedPlain(":");
  }

  lemma LexKey(m: Member, rest: string)
    ensures Found(false, Escaped(Quoted(m.key) + m.gap + ":") + rest) == [KeySpan(m)] + Found(false, rest)
  {
    hide Found, Escaped, MatchLen, ColonLen, Quoted, Color;
    KeyToken(m.key, m.gap);
    var quoted := Escaped(Quoted(m.key));
    var token := quoted + m.gap + ":";
    StringLen(m.key, m.gap + (":" + rest));
    ColonAfterBlank(m.gap, rest);
    assert token + rest == quoted + (m.gap + (":" + rest));
    FoundSpan(false, token + rest, token, rest);
  }

  // ---------- literals and numbers ----------

  lemma {:induction false} NotContained(s: string, p: string)
    requires p != "" && p[0] !in s
    ensures !Contains(s, p)
  {
    if s != "" {
      assert s[0] in s;
      NotContained(s[1..], p);
    }
  }

  lemma LiteralKeyword(token: string, rest: string)
    requires token == "true" || token == "false" || token == "null"
    requires rest == "" || !IsWord(rest[0])
    ensures KeywordLen(false, token + rest) == |token|
  {
    var t := token + rest;
    assert token <= t && t[0] == token[0];
    assert rest != "" ==> t[|token|] == rest[0];
    if token == "true" {
      assert !("null" <= t) && !("false" <= t);
    } else if token == "false" {
      assert !("null" <= t) && !("true" <= t);
    }
  }

  lemma LiteralLen(token: string, rest: string)
    requires token == "true" || token == "false" || token == "null"
    requires Follow(rest)
    ensures MatchLen(false, token + rest) == |token| && Escaped(token) == token
  {
    hide KeywordLen, NumberLen, Escaped, Body, ColonLen;
    LiteralKeyword(token, rest);
    assert (token + rest)[0] == token[0] != '"';
    EscapedPlain(token);
  }

  lemma LexLiteral(token: string, rest: string)
    requires token == "true" || token == "false" || token == "null"
    requires Follow(rest)
    ensures var color := if token == "null" then MUTED else AMBER;
            Found(false, Escaped(token) + rest) == [Span(color, token)] + Found(false, rest)
  {
    hide Found, MatchLen, Escaped;
    LiteralLen(token, rest);
    FoundSpan(false, token + rest, token, rest);
    if token == "null" {
      NotContained(token, "true");
      NotContained(token, "false");
    }
    AfterValue(IsWord(token[|token| - 1]), rest);
  }

  lemma FracExact(frac: string, rest: string)
    requires frac == "" || (frac[0] == '.' && IsDigitRun(frac[1..]))
    requires rest == "" || (!IsDigit(rest[0]) && rest[0] != '.')
    ensures FracLen(frac + rest) == |frac|
  {
    if frac == "" {
      assert frac + rest == rest;
    } else {
      assert (frac + rest)[1..] == frac[1..] + rest;
      DigitPrefixExact(frac[1..], rest);
    }
  }

  lemma ExpExact(exp: string, rest: string)
    requires exp == "" || (exp[0] in "eE" && Json.IsExponent(exp[1..]))
    requires rest == "" || (!IsDigit(rest[0]) && rest[0] !in "eE")
    ensures ExpLen(exp + rest) == |exp|
  {
    var t := exp + rest;
    if exp == "" {
      assert t == rest;
    } else {
      assert t[1] == exp[1];
      var sign := if exp[1] in "+-" then 1 else 0;
      var digits := exp[1 + sign..];
      assert IsDigitRun(digits) by {
        if sign == 0 { assert exp[1..][0] == exp[1]; } else { assert exp[1..][1..] == digits; }
      }
      DigitPrefixExact(digits, rest);
      assert t[1 + sign..] == digits + rest;
    }
  }

  lemma UnsignedExact(whole: string, frac: string, exp: string, rest: string)
    requires Json.IsNumber("", whole, frac, exp)
    requires Follow(rest)
    ensures UnsignedLen(whole + (frac + (exp + rest))) == |whole| + |frac| + |exp|
  {
    hide DigitPrefix, FracLen, ExpLen, Json.IsExponent, Follow;
    FollowStops(rest);
    var afterFrac := exp + rest;
    var afterWhole := frac + afterFrac;
    var t := whole + afterWhole;
    DigitPrefixExact(whole, afterWhole);
    assert t[|whole|..] == afterWhole;
    FracExact(frac, afterFrac);
    assert t[|whole| + |frac|..] == afterFrac;
    ExpExact(exp, rest);
  }

  lemma NumberExact(sign: string, whole: string, frac: string, exp: string, rest: string)
    requires Json.IsNumber(sign, whole, frac, exp)
    requires Follow(rest)
    ensures NumberLen(sign + (whole + (frac + (exp + rest)))) == |sign| + |whole| + |frac| + |exp|
  {
    hide UnsignedLen, Json.IsExponent;
    UnsignedExact(whole, frac, exp, rest);
    var unsigned := whole + (frac + (exp + rest));
    assert unsigned[0] == whole[0];
    if sign == "" {
      assert sign + unsigned == unsigned;
    } else {
      assert (sign + unsigned)[1..] == unsigned;
    }
  }

  lemma NumberOnto(sign: string, whole: string, frac: string, exp: string, rest: string)
    ensures sign + whole + frac + exp + rest == sign + (whole + (frac + (exp + rest)))
  {
    assert sign + whole + frac + exp + rest == sign + whole + frac + (exp + rest);
    assert sign + whole + frac + (exp + rest) == sign + whole + (frac + (exp + rest));
  }

  predicate NumberChar(c: char) {
    IsDigit(c) || c in "+-.eE"
  }

  lemma NumberChars(sign: string, whole: string, frac: string, exp: string)
    requires Json.IsNumber(sign, whole, frac, exp)
    ensures forall c :: c in sign + whole + frac + exp ==> NumberChar(c)
    ensures (sign + whole)[0] == '-' || IsDigit((sign + whole)[0])
  {
    if exp != "" {
      var e := exp[1..];
      assert forall c :: c in exp ==> c == exp[0] || c in e;
      assert IsDigitRun(e) || (e[0] in "+-" && IsDigitRun(e[1..]));
      assert forall c :: c in e ==> c == e[0] || c in e[1..];
    }
    if frac != "" {
      assert forall c :: c in frac ==> c == frac[0] || c in frac[1..];
    }
  }

  lemma NumberTextLen(text: Json.NumberText, rest: string)
    requires Follow(rest)
    ensures text != "" && MatchLen(false, text + rest) == |text|
  {
    hide NumberLen, KeywordLen, Body, ColonLen;
    var sign, whole, frac, exp :| Json.IsNumber(sign, whole, frac, exp) && text == sign + whole + frac + exp;
    NumberOnto(sign, whole, frac, exp, rest);
    NumberExact(sign, whole, frac, exp, rest);
    NumberChars(sign, whole, frac, exp);
    assert text[0] == (sign + whole)[0] == (text + rest)[0];
    NoKeyword(text + rest);
  }

  lemma NoKeyword(t: string)
    requires t != "" && t[0] !in "tfn"
    ensures KeywordLen(false, t) == 0
  {
  }

  lemma NumberTextColor(text: Json.NumberText)
    ensures text != "" && Color(text) == BLUE && '\n' !in text && Escaped(text) == text
  {
    hide Contains, Escaped;
    var sign, whole, frac, exp :| Json.IsNumber(sign, whole, frac, exp) && text == sign + whole + frac + exp;
    NumberChars(sign, whole, frac, exp);
    assert text[0] == (sign + whole)[0];
    NotContained(text, "true");
    NotContained(text, "false");
    NotContained(text, "null");
    EscapedPlain(text);
  }

  lemma LexNumber(text: Json.NumberText, rest: string)
    requires Follow(rest)
    ensures Found(false, Escaped(text) + rest) == [Span(BLUE, text)] + Found(false, rest)
  {
    hide Found, MatchLen, Escaped, Color;
    NumberTextLen(text, rest);
    NumberTextColor(text);
    FoundSpan(false, text + rest, text, rest);
    AfterValue(IsWord(text[|text| - 1]), rest);
  }

  // ---------- whole texts ----------

  lemma {:induction false} LexTree(t: Tree, rest: string)
    requires Follow(rest)
    ensures Found(false, Escaped(PrintTree(t)) + rest) == Tokens(t) + Found(false, rest)
    decreases t, 0
  {
    hide Found, Escaped, Follow, Quoted, PrintItems, PrintMembers;
    match t
    case Null => LexLiteral("null", rest);
    case Bool(b) => LexLiteral(if b then "true" else "false", rest);
    case Num(text) => LexNumber(text, rest);
    case Str(body) => LexString(body, rest);
    case Arr(items, inside) =>
      if items == [] {
        Bracketed('[', inside, ']', rest);
        LexBlank(inside, "]" + rest);
      } else {
        Bracketed('[', PrintItems(items), ']', rest);
        LexItems(items, "]" + rest);
      }
    case Obj(members, inside) =>
      if members == [] {
        Bracketed('{', inside, '}', rest);
        LexBlank(inside, "}" + rest);
      } else {
        Bracketed('{', PrintMembers(members), '}', rest);
        LexMembers(members, "}" + rest);
      }
  }

  lemma LexBlank(b: Blank, rest: string)
    ensures Found(false, Escaped(b) + rest) == Found(false, rest)
  {
    hide Found, Escaped;
    BlankInert(b);
    SkipInert(false, b, rest);
  }

  lemma LexMark(c: char, rest: string)
    requires c in "[]{},"
    ensures Escaped([c]) == [c] && Found(false, [c] + rest) == Found(false, rest)
  {
    hide Found, Escaped;
    EscapedPlain([c]);
    SkipInert(false, [c], rest);
  }

  lemma Bracketed(open: char, inside: string, close: char, rest: string)
    requires open in "[{" && close in "]}"
    ensures Follow([close] + rest)
    ensures Found(false, Escaped([open] + inside + [close]) + rest) == Found(false, Escaped(inside) + ([close] + rest))
    ensures Found(false, [close] + rest) == Found(false, rest)
  {
    hide Found, Escaped, Follow;
    EscapedOnto([open] + inside, [close], rest);
    EscapedOnto([open], inside, Escaped([close]) + rest);
    LexMark(open, Escaped(inside) + ([close] + rest));
    LexMark(close, rest);
    FollowAt(close, rest);
  }

  lemma {:induction false} LexPadded(p: Padded, rest: string)
    requires Follow(rest)
    ensures Found(false, Escaped(PrintPadded(p)) + rest) == Tokens(p.value) + Found(false, rest)
    decreases p, 0
  {
    hide Found, Escaped, Follow, PrintTree, Tokens;
    var value, after := PrintTree(p.value), Escaped(p.after) + rest;
    EscapedOnto(p.before + value, p.after, rest);
    EscapedOnto(p.before, value, after);
    LexBlank(p.before, Escaped(value) + after);
    BlankInert(p.after);
    FollowAfterBlank(p.after, rest);
    LexTree(p.value, after);
    LexBlank(p.after, rest);
  }

  /** The text after the first item or member: a comma and the others. */
  lemma Continued(more: string, rest: string)
    ensures Follow(Escaped("," + more) + rest)
    ensures Found(false, Escaped("," + more) + rest) == Found(false, Escaped(more) + rest)
  {
    hide Found, Escaped, Follow;
    var text := Escaped(more) + rest;
    EscapedOnto(",", more, rest);
    LexMark(',', text);
    FollowAt(',', text);
  }

  lemma {:induction false} LexItems(items: seq<Padded>, rest: string)
    requires items != [] && Follow(rest)
    ensures Found(false, Escaped(PrintItems(items)) + rest) == ItemTokens(items) + Found(false, rest)
    decreases items, 0
  {
    hide Found, Escaped, Follow, PrintPadded, Tokens;
    var first := PrintPadded(items[0]);
    if |items| == 1 {
      assert first + "" == first;
      LexPadded(items[0], rest);
      assert ItemTokens(items[1..]) == [];
    } else {
      var more := PrintItems(items[1..]);
      EscapedOnto(first, "," + more, rest);
      Continued(more, rest);
      LexPadded(items[0], Escaped("," + more) + rest);
      LexItems(items[1..], rest);
    }
  }

  lemma {:induction false} LexMember(m: Member, rest: string)
    requires Follow(rest)
    ensures Found(false, Escaped(PrintMember(m)) + rest) == [KeySpan(m)] + Tokens(m.value.value) + Found(false, rest)
    decreases m, 0
  {
    hide Found, Escaped, Follow, PrintPadded, Quoted, Tokens, KeySpan;
    var key, value := Quoted(m.key) + m.gap + ":", PrintPadded(m.value);
    assert PrintMember(m) == m.before + (key + value);
    EscapedOnto(m.before, key + value, rest);
    LexBlank(m.before, Escaped(key + value) + rest);
    EscapedOnto(key, value, rest);
    LexKey(m, Escaped(value) + rest);
    LexPadded(m.value, rest);
  }

  lemma {:induction false} LexMembers(members: seq<Member>, rest: string)
    requires members != [] && Follow(rest)
    ensures Found(false, Escaped(PrintMembers(members)) + rest) == MemberTokens(members) + Found(false, rest)
    decreases members, 0
  {
    hide Found, Escaped, Follow, PrintMember, Tokens, KeySpan;
    var first := PrintMember(members[0]);
    if |members| == 1 {
      assert first + "" == first;
      LexMember(members[0], rest);
      assert MemberTokens(members[1..]) == [];
    } else {
      var more := PrintMembers(members[1..]);
      EscapedOnto(first, "," + more, rest);
      Continued(more, rest);
      LexMember(members[0], Escaped("," + more) + rest);
      LexMembers(members[1..], rest);
    }
  }

  lemma FoundNothing()
    ensures Follow("") && Found(false, "") == []
  {
  }

  lemma TextFound(p: Padded)
    ensures Found(false, EscapeHtml(PrintPadded(p))) == Tokens(p.value)
  {
    hide Found, Escaped, EscapeHtml, Follow, PrintPadded, Tokens;
    var json := PrintPadded(p);
    EscapeIsCharwise(json);
    FoundNothing();
    LexPadded(p, "");
    assert Escaped(json) + "" == Escaped(json);
  }

  /** The HTML of pieces: a span with its colour around each token. */
  function Html(ps: seq<Piece>): string {
    if ps == [] then ""
    else
      (match ps[0]
       case Plain(c) => [c]
       case Span(color, token) => "<span style=\"color:" + color + "\">" + token + "</span>")
      + Html(ps[1..])
  }

  lemma {:induction false} RenderedHtml(ps: seq<Piece>)
    ensures RenderAll(ps) == Html(ps)
  {
    if ps != [] {
      RenderedHtml(ps[1..]);
    }
  }

  /**
   In every JSON text, whatever its white space and escapes, the coloured spans are exactly its keys,
   strings, numbers, booleans and nulls, in order, each in its own colour; the output is the HTML of
   these spans and the characters between them.
   */
  lemma HighlightClassifies(p: Padded)
    ensures var html := SyntaxHighlight(PrintPadded(p));
            var read := ReadHtml(html);
            read.Some? && SpansOf(read.value) == Tokens(p.value) && html == Html(read.value)
  {
    var json := PrintPadded(p);
    EscapeIsCharwise(json);
    EscapedNoAngles(json);
    ReplaceReadsBack(false, Escaped(json));
    ReplaceRenders(false, Escaped(json));
    RenderedHtml(Lex(false, Escaped(json)));
    hide ReadHtml, Escaped, EscapeHtml, Replace, Lex, PrintPadded, Tokens, RenderAll, Html;
    TextFound(p);
  }

  // ---------- tokens over a line end ----------

  /** No key stands on another line than its colon. */
  predicate KeysWithColons(t: Tree)
    decreases t, 0
  {
    match t
    case Arr(items, _) => forall i :: 0 <= i < |items| ==> KeysWithColons(items[i].value)
    case Obj(members, _) =>
      forall i :: 0 <= i < |members| ==> '\n' !in members[i].gap && KeysWithColons(members[i].value.value)
    case _ => true
  }

  lemma NoBrokenSpanConcat(a: seq<Piece>, b: seq<Piece>)
    ensures NoBrokenSpan(a + b) <==> NoBrokenSpan(a) && NoBrokenSpan(b)
  {
    var ps := a + b;
    assert forall i :: 0 <= i < |a| ==> ps[i] == a[i];
    assert forall i :: 0 <= i < |b| ==> ps[i + |a|] == b[i];
  }

  lemma KeySpanBroken(m: Member)
    ensures NoBrokenSpan([KeySpan(m)]) <==> '\n' !in m.gap
  {
    hide Escaped;
    KeyToken(m.key, m.gap);
    EscapedQuoted(m.key);
    StringOnOneLine(m.key);
    assert [KeySpan(m)][0] == KeySpan(m);
  }

  lemma {:induction false} BrokenTokens(t: Tree)
    ensures NoBrokenSpan(Tokens(t)) <==> KeysWithColons(t)
    decreases t, 0
  {
    match t
    case Num(text) => NumberTextColor(text);
    case Str(body) => StringOnOneLine(body); EscapedQuoted(body);
    case Arr(items, _) => BrokenItemTokens(items);
    case Obj(members, _) => BrokenMemberTokens(members);
    case _ =>
  }

  lemma {:induction false} BrokenItemTokens(items: seq<Padded>)
    ensures NoBrokenSpan(ItemTokens(items)) <==> forall i :: 0 <= i < |items| ==> KeysWithColons(items[i].value)
    decreases items, 0
  {
    hide NoBrokenSpan, KeysWithColons, Tokens;
    if items == [] {
      NoTokens();
    } else {
      var rest := items[1..];
      BrokenTokens(items[0].value);
      BrokenItemTokens(rest);
      NoBrokenSpanConcat(Tokens(items[0].value), ItemTokens(rest));
      assert forall i :: 0 <= i < |rest| ==> items[i + 1] == rest[i];
    }
  }

  lemma NoTokens()
    ensures NoBrokenSpan([])
  {
  }

  lemma {:induction false} BrokenMemberTokens(members: seq<Member>)
    ensures NoBrokenSpan(MemberTokens(members)) <==>
            forall i :: 0 <= i < |members| ==> '\n' !in members[i].gap && KeysWithColons(members[i].value.value)
    decreases members, 0
  {
    hide NoBrokenSpan, KeysWithColons, Tokens, KeySpan;
    if members == [] {
      NoTokens();
    } else {
      var m, rest := members[0], members[1..];
      KeySpanBroken(m);
      BrokenTokens(m.value.value);
      BrokenMemberTokens(rest);
      NoBrokenSpanConcat([KeySpan(m)], Tokens(m.value.value));
      NoBrokenSpanConcat([KeySpan(m)] + Tokens(m.value.value), MemberTokens(rest));
      assert forall i :: 0 <= i < |rest| ==> members[i + 1] == rest[i];
    }
  }

  lemma {:induction false} BrokenSpansOf(ps: seq<Piece>)
    ensures NoBrokenSpan(SpansOf(ps)) <==> NoBrokenSpan(ps)
  {
    if ps != [] {
      BrokenSpansOf(ps[1..]);
      NoBrokenSpanConcat([ps[0]], ps[1..]);
      NoBrokenSpanConcat(if ps[0].Span? then [ps[0]] else [], SpansOf(ps[1..]));
      assert ps == [ps[0]] + ps[1..];
    }
  }

  /**
   For every JSON text the highlighted form has the lines of the text.  Each of them is well formed
   by itself, and shows its line of the text, if and only if no key stands on another line than its
   colon: only there a span runs over a line end.
   */
  lemma LinesOfText(p: Padded)
    ensures var json := PrintPadded(p);
            var html, lines := Split(SyntaxHighlight(json), '\n'), Split(json, '\n');
            && |html| == |lines|
            && (AllRead(html) <==> KeysWithColons(p.value))
            && (ShowsLines(html, lines) <==> KeysWithColons(p.value))
  {
    hide Lex, Split, EscapeHtml, PrintPadded, Tokens, KeysWithColons, ShowsLines, AllRead, NoBrokenSpan;
    HighlightedLines(PrintPadded(p));
    TextFound(p);
    BrokenSpansOf(Lex(false, EscapeHtml(PrintPadded(p))));
    BrokenTokens(p.value);
  }

  /** The member `"a"`, a line end, `:1`. */
  lemma SplitMember() returns (m: Member)
    ensures m.gap == "\n" && PrintMember(m) == "\"a\"\n:1"
  {
    assert Json.IsNumber("", "1", "", "") && "1" == "" + "1" + "" + "";
    assert IsStringText("a") by { assert "a"[1..] == ""; }
    var one := Padded("", Num("1"), "");
    assert PrintPadded(one) == "1";
    m := Member("", "a", "\n", one);
    assert Quoted("a") == "\"a\"";
    assert PrintMember(m) == "" + "\"a\"" + "\n" + ":" + "1";
  }

  lemma PrintOneMember(m: Member, text: string)
    requires PrintMember(m) == text
    ensures PrintPadded(Padded("", Obj([m], ""), "")) == "{" + text + "}"
  {
    assert PrintMembers([m]) == text + "";
    assert PrintTree(Obj([m], "")) == "{" + text + "}";
    assert "" + ("{" + text + "}") + "" == "{" + text + "}";
  }

  /** A text whose lines do not match: a key on one line, its colon on the next. */
  lemma KeyOverTwoLines()
    ensures !AllRead(Split(SyntaxHighlight("{\"a\"\n:1}"), '\n'))
  {
    hide Split, SyntaxHighlight, AllRead, PrintMember, PrintPadded;
    var m := SplitMember();
    var p := Padded("", Obj([m], ""), "");
    PrintOneMember(m, "\"a\"\n:1");
    assert "{" + "\"a\"\n:1" + "}" == "{\"a\"\n:1}";
    assert p.value.members[0] == m && '\n' in m.gap;
    LinesOfText(p);
  }

  // ---------- printed values ----------

  /** The tokens a value should show. */
  function ValueTokens(v: Json.Json): seq<Piece>
    decreases v, 0
  {
    match v
    case Null => [Span("var(--text-muted)", "null")]
    case Bool(b) => [Span("#F5A623", if b then "true" else "false")]
    case Num(text) => [Span("#60A5FA", text)]
    case Str(s) => [Span("#2EBD85", Escaped(Json.Quote(s)))]
    case Arr(items) => ItemValueTokens(items)
    case Obj(fields) => FieldValueTokens(fields)
  }

  function ItemValueTokens(items: seq<Json.Json>): seq<Piece>
    decreases items, 0
  {
    if items == [] then [] else ValueTokens(items[0]) + ItemValueTokens(items[1..])
  }

  function FieldValueTokens(fields: seq<Json.Field>): seq<Piece>
    decreases fields, 0
  {
    if fields == [] then []
    else
      [Span("#E2A828", Escaped(Json.Quote(fields[0].key) + ":"))] + ValueTokens(fields[0].value)
      + FieldValueTokens(fields[1..])
  }

  lemma {:induction false} LayoutTokens(v: Json.Json, ind: nat)
    ensures Tokens(Layout(v, ind)) == ValueTokens(v) && KeysWithColons(Layout(v, ind))
    decreases v, 0
  {
    hide Escaped;
    match v
    case Arr(items) => LayoutItemTokens(items, ind);
    case Obj(fields) => LayoutFieldTokens(fields, ind);
    case _ =>
  }

  lemma {:induction false} LayoutItemTokens(items: seq<Json.Json>, ind: nat)
    ensures ItemTokens(LayoutItems(items, ind)) == ItemValueTokens(items)
    ensures var laid := LayoutItems(items, ind); forall i :: 0 <= i < |laid| ==> KeysWithColons(laid[i].value)
    decreases items, 0
  {
    hide Layout, Tokens, ValueTokens, KeysWithColons;
    if items != [] {
      LayoutTokens(items[0], ind + 2);
      LayoutItemTokens(items[1..], ind);
      assert LayoutItems(items, ind)[1..] == LayoutItems(items[1..], ind);
    }
  }

  lemma {:induction false} LayoutFieldTokens(fields: seq<Json.Field>, ind: nat)
    ensures MemberTokens(LayoutFields(fields, ind)) == FieldValueTokens(fields)
    ensures var laid := LayoutFields(fields, ind);
            forall i :: 0 <= i < |laid| ==> '\n' !in laid[i].gap && KeysWithColons(laid[i].value.value)
    decreases fields, 0
  {
    hide Layout, Tokens, ValueTokens, KeysWithColons, Escaped;
    if fields != [] {
      LayoutTokens(fields[0].value, ind + 2);
      LayoutFieldTokens(fields[1..], ind);
      assert LayoutFields(fields, ind)[1..] == LayoutFields(fields[1..], ind);
      var key := Json.Quote(fields[0].key);
      assert key + "" + ":" == key + ":";
    }
  }

  /** A value as the viewer prints it: its tokens in their colours, and the same lines. */
  lemma PrintedValue(v: Json.Json)
    ensures var json := Json.Stringify(v, 0);
            var read := ReadHtml(SyntaxHighlight(json));
            && read.Some? && SpansOf(read.value) == ValueTokens(v)
            && ShowsLines(Split(SyntaxHighlight(json), '\n'), Split(json, '\n'))
  {
    hide Layout, Tokens, ValueTokens, KeysWithColons, Split, ShowsLines, SyntaxHighlight, ReadHtml, PrintTree;
    var p := Padded("", Layout(v, 0), "");
    LayoutPrints(v, 0);
    LayoutTokens(v, 0);
    assert PrintPadded(p) == Json.Stringify(v, 0);
    HighlightClassifies(p);
    LinesOfText(p);
  }
}
