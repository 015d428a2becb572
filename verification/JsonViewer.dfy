/**
 The JSON highlighter of the admin viewer: escape the text for HTML, find the tokens with one
 regular expression, wrap each in a coloured span, split the result into lines.
 */
module JsonViewer {
  import opened Text

  // ---------- HTML escaping ----------

  /** `s.replace(/c/g, to)` for one character. */
  function ReplaceAll(s: string, c: char, to: string): string {
    if s == "" then "" else (if s[0] == c then to else [s[0]]) + ReplaceAll(s[1..], c, to)
  }

  function EscapeHtml(s: string): string {
    ReplaceAll(ReplaceAll(ReplaceAll(s, '&', "&amp;"), '<', "&lt;"), '>', "&gt;")
  }

  /** What a browser shows for escaped text. */
  function Unescape(t: string): string
    decreases |t|
  {
    if t == "" then ""
    else if "&amp;" <= t then "&" + Unescape(t[5..])
    else if "&lt;" <= t then "<" + Unescape(t[4..])
    else if "&gt;" <= t then ">" + Unescape(t[4..])
    else [t[0]] + Unescape(t[1..])
  }

  function EscapeChar(c: char): string {
    if c == '&' then "&amp;" else if c == '<' then "&lt;" else if c == '>' then "&gt;" else [c]
  }

  function Escaped(s: string): string {
    if s == "" then "" else EscapeChar(s[0]) + Escaped(s[1..])
  }

  lemma {:induction false} ReplaceAllConcat(a: string, b: string, c: char, to: string)
    ensures ReplaceAll(a + b, c, to) == ReplaceAll(a, c, to) + ReplaceAll(b, c, to)
  {
    if a == "" {
      assert a + b == b;
    } else {
      assert (a + b)[1..] == a[1..] + b;
      ReplaceAllConcat(a[1..], b, c, to);
    }
  }

  lemma {:induction false} ReplaceAllAbsent(a: string, c: char, to: string)
    requires c !in a
    ensures ReplaceAll(a, c, to) == a
  {
    if a != "" {
      ReplaceAllAbsent(a[1..], c, to);
    }
  }

  /** The three passes, ampersand first, escape each character once. */
  lemma {:induction false} EscapeIsCharwise(s: string)
    ensures EscapeHtml(s) == Escaped(s)
  {
    if s != "" {
      EscapeIsCharwise(s[1..]);
      var first := if s[0] == '&' then "&amp;" else [s[0]];
      var rest := ReplaceAll(s[1..], '&', "&amp;");
      ReplaceAllConcat(first, rest, '<', "&lt;");
      var first' := ReplaceAll(first, '<', "&lt;");
      assert first' == if s[0] == '<' then "&lt;" else first by {
        if s[0] == '<' {
          assert first == "<" && first[1..] == "";
          assert ReplaceAll("", '<', "&lt;") == "";
        } else {
          ReplaceAllAbsent(first, '<', "&lt;");
        }
      }
      ReplaceAllConcat(first', ReplaceAll(rest, '<', "&lt;"), '>', "&gt;");
      assert ReplaceAll(first', '>', "&gt;") == EscapeChar(s[0]) by {
        if s[0] == '>' {
          assert first' == ">" && first'[1..] == "";
          assert ReplaceAll("", '>', "&gt;") == "";
        } else {
          ReplaceAllAbsent(first', '>', "&gt;");
        }
      }
    }
  }

  lemma {:induction false} EscapedConcat(a: string, b: string)
    ensures Escaped(a + b) == Escaped(a) + Escaped(b)
  {
    if a == "" {
      assert a + b == b;
    } else {
      assert (a + b)[1..] == a[1..] + b;
      EscapedConcat(a[1..], b);
    }
  }

  lemma {:induction false} EscapedNoAngles(s: string)
    ensures NoAngles(Escaped(s))
  {
    if s != "" {
      EscapedNoAngles(s[1..]);
    }
  }

  lemma {:induction false} UnescapeEscaped(s: string)
    ensures Unescape(Escaped(s)) == s
  {
    if s != "" {
      UnescapeEscaped(s[1..]);
      var e := Escaped(s[1..]);
      assert Escaped(s) == EscapeChar(s[0]) + e;
      if s[0] == '&' {
        assert ("&amp;" + e)[5..] == e;
      } else if s[0] == '<' {
        assert ("&lt;" + e)[4..] == e && ("&lt;" + e)[1] == 'l';
      } else if s[0] == '>' {
        assert ("&gt;" + e)[4..] == e && ("&gt;" + e)[1] == 'g';
      } else {
        assert ([s[0]] + e)[1..] == e && ([s[0]] + e)[0] == s[0];
      }
    }
  }

  predicate NoAngles(s: string) {
    '<' !in s && '>' !in s
  }

  // ---------- the regular expression ----------

  /** `\w` */
  predicate IsWord(c: char) {
    IsDigit(c) || 'a' <= c <= 'z' || 'A' <= c <= 'Z' || c == '_'
  }

  /** `\s` */
  predicate IsSpace(c: char) {
    || '\t' <= c <= '\r' || c == ' ' || c == '\U{A0}' || c == '\U{1680}' || '\U{2000}' <= c <= '\U{200A}'
    || c == '\U{2028}' || c == '\U{2029}' || c == '\U{202F}' || c == '\U{205F}' || c == '\U{3000}' || c == '\U{FEFF}'
  }

  /** One turn of the string group: `\\u[\da-fA-F]{4}|\\[^u]|[^\\"]`. */
  predicate IsUnit(u: string) {
    || (|u| == 6 && u[0] == '\\' && u[1] == 'u' && IsHex(u[2]) && IsHex(u[3]) && IsHex(u[4]) && IsHex(u[5]))
    || (|u| == 2 && u[0] == '\\' && u[1] != 'u')
    || (|u| == 1 && u[0] != '\\' && u[0] != '"')
  }

  /** The unit at the front of `t`, if any: its length, or 0. */
  function UnitLen(t: string): (n: nat)
    ensures n <= |t| && (n > 0 ==> IsUnit(t[..n]))
  {
    if |t| >= 6 && IsUnit(t[..6]) then 6
    else if |t| >= 2 && IsUnit(t[..2]) then 2
    else if |t| >= 1 && IsUnit(t[..1]) then 1
    else 0
  }

  /** After an opening quote: the length of units up to and including the closing quote. */
  function Body(t: string): (r: Option<nat>)
    ensures r.Some? ==> 1 <= r.value <= |t| && t[r.value - 1] == '"'
    decreases |t|
  {
    if t == "" then None
    else if t[0] == '"' then Some(1)
    else
      var n := UnitLen(t);
      if n == 0 then None
      else
        match Body(t[n..])
        case None => None
        case Some(k) => Some(n + k)
  }

  function Concat(us: seq<string>): string {
    if us == [] then "" else us[0] + Concat(us[1..])
  }

  /** `t[..k]` is units and a closing quote. */
  ghost predicate IsBody(t: string, us: seq<string>, k: nat) {
    && 1 <= k <= |t| && t[k - 1] == '"' && Concat(us) == t[..k - 1]
    && forall u :: u in us ==> IsUnit(u)
  }

  lemma {:induction false} BodyUnique(t: string, us: seq<string>, k: nat)
    requires IsBody(t, us, k)
    ensures Body(t) == Some(k)
    decreases |us|
  {
    if us == [] {
      assert k == 1;
    } else {
      var u := us[0];
      assert t[..k - 1] == u + Concat(us[1..]);
      assert t[..|u|] == u by {
        assert t[..|u|] == t[..k - 1][..|u|];
      }
      assert IsUnit(u) && t[0] == u[0];
      assert UnitLen(t) == |u| by {
        if |t| >= 6 { assert t[..6][0] == t[0] && t[..6][1] == t[1]; }
        if |t| >= 2 { assert t[..2][0] == t[0] && t[..2][1] == t[1]; }
        assert t[..1][0] == t[0];
        assert |u| >= 2 ==> t[1] == u[1];
      }
      assert t[|u|..][..k - |u| - 1] == Concat(us[1..]);
      BodyUnique(t[|u|..], us[1..], k - |u|);
    }
  }

  lemma UnitInFront(t: string, n: nat, rest: seq<string>, k: nat)
    requires 0 < n < k <= |t| && IsUnit(t[..n]) && IsBody(t[n..], rest, k - n)
    ensures IsBody(t, [t[..n]] + rest, k)
  {
    assert ([t[..n]] + rest)[1..] == rest;
    assert t[..k - 1] == t[..n] + t[n..][..k - n - 1];
  }

  lemma {:induction false} BodyFound(t: string) returns (us: seq<string>)
    requires Body(t).Some?
    ensures IsBody(t, us, Body(t).value)
    decreases |t|
  {
    if t[0] == '"' {
      us := [];
    } else {
      hide UnitLen, IsUnit, IsBody;
      var n, k := UnitLen(t), Body(t).value;
      assert Body(t[n..]) == Some(k - n);
      var rest := BodyFound(t[n..]);
      UnitInFront(t, n, rest, k);
      us := [t[..n]] + rest;
    }
  }

  /**
   However the expression's engine backtracks, the string group ends exactly where `Body` says: there
   is a way to read units up to a closing quote at `k` if and only if that is the place it finds.
   */
  lemma BodyExact(t: string, k: nat)
    ensures Body(t) == Some(k) <==> exists us :: IsBody(t, us, k)
  {
    if Body(t) == Some(k) {
      var us := BodyFound(t);
      assert IsBody(t, us, k);
    }
    if us :| IsBody(t, us, k) {
      BodyUnique(t, us, k);
    }
  }

  /** `(\s*:)?` */
  function ColonLen(t: string): (n: nat)
    ensures n <= |t| && (n > 0 ==> t[n - 1] == ':')
  {
    if t == "" then 0
    else if t[0] == ':' then 1
    else if IsSpace(t[0]) then (var n := ColonLen(t[1..]); if n == 0 then 0 else n + 1)
    else 0
  }

  /** `\b(true|false|null)\b`, where `prevWord` says whether a word character comes before. */
  function KeywordLen(prevWord: bool, t: string): (n: nat)
    ensures n <= |t|
  {
    var n := if "true" <= t || "null" <= t then 4 else if "false" <= t then 5 else 0;
    if n == 0 || prevWord || (n < |t| && IsWord(t[n])) then 0 else n
  }

  /** `(?:\.\d*)?` */
  function FracLen(t: string): (n: nat)
    ensures n <= |t|
  {
    if t != "" && t[0] == '.' then 1 + DigitPrefix(t[1..]) else 0
  }

  /** `(?:[eE][+-]?\d+)?` */
  function ExpLen(t: string): (n: nat)
    ensures n <= |t|
  {
    if t == "" || t[0] !in "eE" then 0
    else
      var sign := if |t| > 1 && t[1] in "+-" then 1 else 0;
      var digits := DigitPrefix(t[1 + sign..]);
      if digits == 0 then 0 else 1 + sign + digits
  }

  /** `\d+(?:\.\d*)?(?:[eE][+-]?\d+)?` */
  function UnsignedLen(t: string): (n: nat)
    ensures n <= |t|
  {
    var whole := DigitPrefix(t);
    if whole == 0 then 0
    else
      var frac := FracLen(t[whole..]);
      whole + frac + ExpLen(t[whole + frac..])
  }

  /** `-?\d+(?:\.\d*)?(?:[eE][+-]?\d+)?` */
  function NumberLen(t: string): (n: nat)
    ensures n <= |t|
  {
    if t != "" && t[0] == '-' then (var n := UnsignedLen(t[1..]); if n == 0 then 0 else 1 + n)
    else UnsignedLen(t)
  }

  /** The length of the match at the front of `t`, or 0. */
  function MatchLen(prevWord: bool, t: string): (n: nat)
    requires t != ""
    ensures n <= |t|
  {
    if t[0] == '"' then
      match Body(t[1..])
      case None => 0
      case Some(k) => 1 + k + ColonLen(t[1 + k..])
    else
      var k := KeywordLen(prevWord, t);
      if k > 0 then k else NumberLen(t)
  }

  // ---------- highlighting ----------

  const GOLD := "#E2A828"
  const GREEN := "#2EBD85"
  const AMBER := "#F5A623"
  const MUTED := "var(--text-muted)"
  const BLUE := "#60A5FA"
  const OPEN := "<span style=\"color:"
  const MID := "\">"
  const CLOSE := "</span>"

  function Color(token: string): string
    requires token != ""
  {
    if token[0] == '"' then (if token[|token| - 1] == ':' then GOLD else GREEN)
    else if Contains(token, "true") || Contains(token, "false") then AMBER
    else if Contains(token, "null") then MUTED
    else BLUE
  }

  function Wrap(color: string, token: string): string {
    OPEN + color + MID + token + CLOSE
  }

  /** The global replace: at each position the match, else one character as it is. */
  function Replace(prevWord: bool, t: string): string
    decreases |t|
  {
    if t == "" then ""
    else
      var n := MatchLen(prevWord, t);
      if n == 0 then [t[0]] + Replace(IsWord(t[0]), t[1..])
      else Wrap(Color(t[..n]), t[..n]) + Replace(IsWord(t[n - 1]), t[n..])
  }

  function SyntaxHighlight(json: string): string {
    Replace(false, EscapeHtml(json))
  }

  // ---------- reading the result back ----------

  datatype Piece = Plain(c: char) | Span(color: string, text: string)

  function Until(s: string, c: char): (n: nat)
    ensures n <= |s| && c !in s[..n] && (n < |s| ==> s[n] == c)
  {
    if s == "" || s[0] == c then 0
    else
      var n := 1 + Until(s[1..], c);
      assert s[..n] == [s[0]] + s[1..][..n - 1];
      n
  }

  /** The text before the first `stop[0]` and the text after, when the whole of `stop` stands there. */
  function Cut(s: string, stop: string): (r: Option<(string, string)>)
    requires stop != ""
    ensures r.Some? ==> |r.value.1| < |s|
  {
    var n := Until(s, stop[0]);
    if stop <= s[n..] then Some((s[..n], s[n + |stop|..])) else None
  }

  /** The span at the front of `h`, if one stands there whole, and what follows it. */
  function SpanHead(h: string): (r: Option<(Piece, string)>)
    ensures r.Some? ==> |r.value.1| < |h|
  {
    if !(OPEN <= h) then None
    else
      match Cut(h[|OPEN|..], MID)
      case None => None
      case Some((color, body)) =>
        match Cut(body, CLOSE)
        case None => None
        case Some((token, rest)) => if '>' in token then None else Some((Span(color, token), rest))
  }

  /**
   A strict reader of the output: plain characters and balanced spans without spans inside, and no
   angle bracket that is not part of a span's tags.
   */
  function ReadHtml(h: string): Option<seq<Piece>>
    decreases |h|
  {
    if h == "" then Some([])
    else if h[0] == '>' then None
    else if h[0] != '<' then Prepend(Plain(h[0]), ReadHtml(h[1..]))
    else
      match SpanHead(h)
      case None => None
      case Some((span, rest)) => Prepend(span, ReadHtml(rest))
  }

  function Prepend(p: Piece, ps: Option<seq<Piece>>): Option<seq<Piece>> {
    match ps
    case None => None
    case Some(rest) => Some([p] + rest)
  }

  function TextOf(ps: seq<Piece>): string {
    if ps == [] then "" else (match ps[0] case Plain(c) => [c] case Span(_, s) => s) + TextOf(ps[1..])
  }

  function SpansOf(ps: seq<Piece>): seq<Piece> {
    if ps == [] then [] else (if ps[0].Span? then [ps[0]] else []) + SpansOf(ps[1..])
  }

  /** The tokens of a text, in order, with the characters between them. */
  function Lex(prevWord: bool, t: string): seq<Piece>
    decreases |t|
  {
    if t == "" then []
    else
      var n := MatchLen(prevWord, t);
      if n == 0 then [Plain(t[0])] + Lex(IsWord(t[0]), t[1..])
      else [Span(Color(t[..n]), t[..n])] + Lex(IsWord(t[n - 1]), t[n..])
  }

  lemma ReadPlain(c: char, rest: string)
    requires c != '<' && c != '>'
    ensures ReadHtml([c] + rest) == Prepend(Plain(c), ReadHtml(rest))
  {
    assert ([c] + rest)[1..] == rest;
  }

  lemma {:induction false} UntilExact(a: string, rest: string, c: char)
    requires c !in a && rest != "" && rest[0] == c
    ensures Until(a + rest, c) == |a|
  {
    if a == "" {
      assert a + rest == rest;
    } else {
      assert (a + rest)[1..] == a[1..] + rest;
      assert a[0] in a;
      UntilExact(a[1..], rest, c);
    }
  }

  lemma CutExact(a: string, stop: string, rest: string)
    requires stop != "" && stop[0] !in a
    ensures Cut(a + stop + rest, stop) == Some((a, rest))
  {
    assert a + stop + rest == a + (stop + rest);
    UntilExact(a, stop + rest, stop[0]);
    assert (a + (stop + rest))[|a|..] == stop + rest;
    assert (a + (stop + rest))[..|a|] == a;
    assert (a + (stop + rest))[|a| + |stop|..] == rest;
  }

  lemma ReadSpan(color: string, token: string, rest: string)
    requires '"' !in color && NoAngles(token)
    ensures ReadHtml(Wrap(color, token) + rest) == Prepend(Span(color, token), ReadHtml(rest))
  {
    hide Cut, Until;
    var h := Wrap(color, token) + rest;
    var body := token + CLOSE + rest;
    assert h == OPEN + (color + MID + body);
    assert h[|OPEN|..] == color + MID + body;
    CutExact(color, MID, body);
    CutExact(token, CLOSE, rest);
    assert h[0] == OPEN[0] == '<';
  }

  lemma ColorIsQuotable(token: string)
    requires token != ""
    ensures '"' !in Color(token) && '\n' !in Color(token)
  {
  }

  lemma {:induction false} ReplaceReadsBack(prevWord: bool, t: string)
    requires NoAngles(t)
    ensures ReadHtml(Replace(prevWord, t)) == Some(Lex(prevWord, t))
    decreases |t|
  {
    hide MatchLen, Color, Wrap;
    if t != "" {
      var n := MatchLen(prevWord, t);
      if n == 0 {
        ReplaceReadsBack(IsWord(t[0]), t[1..]);
        ReadPlain(t[0], Replace(IsWord(t[0]), t[1..]));
      } else {
        var after := IsWord(t[n - 1]);
        ReplaceReadsBack(after, t[n..]);
        ColorIsQuotable(t[..n]);
        ReadSpan(Color(t[..n]), t[..n], Replace(after, t[n..]));
      }
    }
  }

  lemma {:induction false} LexText(prevWord: bool, t: string)
    ensures TextOf(Lex(prevWord, t)) == t
    decreases |t|
  {
    hide MatchLen, Color;
    if t != "" {
      var n := MatchLen(prevWord, t);
      if n == 0 {
        LexText(IsWord(t[0]), t[1..]);
      } else {
        LexText(IsWord(t[n - 1]), t[n..]);
        assert t == t[..n] + t[n..];
      }
    }
  }

  /**
   For every text, highlighting loses nothing: the output consists of plain characters and balanced,
   non-nested spans with no other angle bracket, and its text unescapes to the input.
   */
  lemma HighlightPreservesText(json: string)
    ensures var read := ReadHtml(SyntaxHighlight(json));
            read.Some? && Unescape(TextOf(read.value)) == json
  {
    EscapeIsCharwise(json);
    EscapedNoAngles(json);
    ReplaceReadsBack(false, Escaped(json));
    LexText(false, Escaped(json));
    UnescapeEscaped(json);
  }
}
