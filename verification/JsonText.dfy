/**
 JSON texts: values together with the white space between their tokens, as the grammar of RFC 8259
 has them (sections 2 to 7), and the layout that `JSON.stringify(value, null, 2)` chooses.
 */
module JsonText {
  import opened Text
  import Json

  /** `ws` of section 2. */
  predicate IsBlank(s: string) {
    forall i :: 0 <= i < |s| ==> s[i] in " \t\n\r"
  }

  type Blank = s: string | IsBlank(s)

  /** The length of the `char` of section 7 at the front of `s`, or 0. */
  function CharLen(s: string): (n: nat)
    ensures n <= |s|
  {
    if s == "" || s[0] == '"' || s[0] < ' ' then 0
    else if s[0] != '\\' then 1
    else if |s| >= 2 && s[1] in "\"\\/bfnrt" then 2
    else if |s| >= 6 && s[1] == 'u' && IsHex(s[2]) && IsHex(s[3]) && IsHex(s[4]) && IsHex(s[5]) then 6
    else 0
  }

  /** What may stand between the quotes of a string. */
  predicate IsStringText(s: string) {
    s == "" || (CharLen(s) > 0 && IsStringText(s[CharLen(s)..]))
  }

  type StringText = s: string | IsStringText(s)

  datatype Tree =
    | Null
    | Bool(b: bool)
    | Num(text: Json.NumberText)
    | Str(body: StringText)
    | Arr(items: seq<Padded>, inside: Blank)
    | Obj(members: seq<Member>, inside: Blank)

  /** A value and the white space around it. */
  datatype Padded = Padded(before: Blank, value: Tree, after: Blank)

  /** A member of an object; `gap` is the white space between the key and its colon. */
  datatype Member = Member(before: Blank, key: StringText, gap: Blank, value: Padded)

  function Quoted(text: string): string {
    "\"" + text + "\""
  }

  function PrintTree(t: Tree): string
    decreases t, 0
  {
    match t
    case Null => "null"
    case Bool(b) => if b then "true" else "false"
    case Num(text) => text
    case Str(body) => Quoted(body)
    case Arr(items, inside) => "[" + (if items == [] then inside else PrintItems(items)) + "]"
    case Obj(members, inside) => "{" + (if members == [] then inside else PrintMembers(members)) + "}"
  }

  /** A whole text is a padded value. */
  function PrintPadded(p: Padded): string
    decreases p, 0
  {
    p.before + PrintTree(p.value) + p.after
  }

  function PrintItems(items: seq<Padded>): string
    requires items != []
    decreases items, 0
  {
    PrintPadded(items[0]) + (if |items| == 1 then "" else "," + PrintItems(items[1..]))
  }

  function PrintMember(m: Member): string
    decreases m, 0
  {
    m.before + Quoted(m.key) + m.gap + ":" + PrintPadded(m.value)
  }

  function PrintMembers(members: seq<Member>): string
    requires members != []
    decreases members, 0
  {
    PrintMember(members[0]) + (if |members| == 1 then "" else "," + PrintMembers(members[1..]))
  }

  // ---------- the layout of JSON.stringify ----------

  lemma BlankSpaces(n: nat)
    ensures IsBlank(Json.Spaces(n))
  {
    if n > 0 {
      BlankSpaces(n - 1);
    }
  }

  function NewLine(ind: nat): Blank {
    BlankSpaces(ind);
    "\n" + Json.Spaces(ind)
  }

  lemma QuoteCharIsChar(c: char, rest: string)
    ensures CharLen(Json.QuoteChar(c) + rest) == |Json.QuoteChar(c)|
  {
    var s := Json.QuoteChar(c) + rest;
    assert s[0] == Json.QuoteChar(c)[0];
    if |Json.QuoteChar(c)| > 1 {
      assert s[1] == Json.QuoteChar(c)[1];
    }
    if |Json.QuoteChar(c)| == 6 {
      assert forall i :: 0 <= i < 6 ==> s[i] == Json.QuoteChar(c)[i];
      HexDigitIsHex(c as int / 16);
      HexDigitIsHex(c as int % 16);
    }
  }

  lemma HexDigitIsHex(n: nat)
    requires n < 16
    ensures IsHex(Json.HexDigit(n))
  {
  }

  lemma {:induction false} QuoteBodyIsText(s: string)
    ensures IsStringText(Json.QuoteBody(s))
  {
    if s != "" {
      var first, rest := Json.QuoteChar(s[0]), Json.QuoteBody(s[1..]);
      QuoteCharIsChar(s[0], rest);
      QuoteBodyIsText(s[1..]);
      assert (first + rest)[|first|..] == rest;
    }
  }

  function StringBody(s: string): StringText {
    QuoteBodyIsText(s);
    Json.QuoteBody(s)
  }

  /** A value laid out with its closing bracket indented by `ind`. */
  function Layout(v: Json.Json, ind: nat): Tree
    decreases v, 1
  {
    match v
    case Null => Null
    case Bool(b) => Bool(b)
    case Num(text) => Num(text)
    case Str(s) => Str(StringBody(s))
    case Arr(items) => Arr(LayoutItems(items, ind), "")
    case Obj(fields) => Obj(LayoutFields(fields, ind), "")
  }

  function LayoutItems(items: seq<Json.Json>, ind: nat): (r: seq<Padded>)
    ensures |r| == |items|
    decreases items, 0
  {
    if items == [] then []
    else
      var after := if |items| == 1 then NewLine(ind) else "";
      [Padded(NewLine(ind + 2), Layout(items[0], ind + 2), after)] + LayoutItems(items[1..], ind)
  }

  function LayoutFields(fields: seq<Json.Field>, ind: nat): (r: seq<Member>)
    ensures |r| == |fields|
    decreases fields, 0
  {
    if fields == [] then []
    else
      var after := if |fields| == 1 then NewLine(ind) else "";
      [LayoutField(fields[0], ind, after)] + LayoutFields(fields[1..], ind)
  }

  function LayoutField(f: Json.Field, ind: nat, after: Blank): Member
    decreases f, 2
  {
    Member(NewLine(ind + 2), StringBody(f.key), "", Padded(" ", Layout(f.value, ind + 2), after))
  }

  /** What `JSON.stringify(value, null, 2)` prints is a JSON text, the one with that layout. */
  lemma {:induction false} LayoutPrints(v: Json.Json, ind: nat)
    ensures PrintTree(Layout(v, ind)) == Json.Stringify(v, ind)
    decreases v, 1
  {
    hide Json.Spaces, LayoutItems, LayoutFields, PrintItems, PrintMembers, Json.StringifyItems, Json.StringifyFields;
    match v
    case Arr(items) =>
      if items != [] {
        LayoutItemsPrint(items, ind);
        Enclosed("[", Json.StringifyItems(items, ind + 2), Json.Spaces(ind), "]");
      }
    case Obj(fields) =>
      if fields != [] {
        LayoutFieldsPrint(fields, ind);
        Enclosed("{", Json.StringifyFields(fields, ind + 2), Json.Spaces(ind), "}");
      }
    case _ =>
  }

  lemma Enclosed(open: string, inside: string, indent: string, close: string)
    ensures open + ("\n" + inside + ("\n" + indent)) + close == open + "\n" + inside + "\n" + indent + close
  {
  }

  lemma {:induction false} LayoutItemsPrint(items: seq<Json.Json>, ind: nat)
    requires items != []
    ensures PrintItems(LayoutItems(items, ind)) == "\n" + Json.StringifyItems(items, ind + 2) + NewLine(ind)
    decreases items, 0
  {
    hide Json.Spaces, Layout, PrintTree, Json.Stringify;
    var laid, rest := LayoutItems(items, ind), LayoutItems(items[1..], ind);
    LayoutPrints(items[0], ind + 2);
    assert laid[1..] == rest;
    var first := Json.Spaces(ind + 2) + Json.Stringify(items[0], ind + 2);
    assert "\n" + first == NewLine(ind + 2) + Json.Stringify(items[0], ind + 2);
    if |items| > 1 {
      LayoutItemsPrint(items[1..], ind);
      NextLine(first, Json.StringifyItems(items[1..], ind + 2), NewLine(ind));
    }
  }

  lemma NextLine(first: string, more: string, end: string)
    ensures "\n" + first + "" + ("," + ("\n" + more + end)) == "\n" + (first + (",\n" + more)) + end
  {
    assert "," + ("\n" + more + end) == ",\n" + more + end;
  }

  lemma {:induction false} LayoutFieldPrints(f: Json.Field, ind: nat, after: Blank)
    ensures PrintMember(LayoutField(f, ind, after))
            == "\n" + (Json.Spaces(ind + 2) + Json.Quote(f.key) + ": " + Json.Stringify(f.value, ind + 2)) + after
    decreases f, 2
  {
    hide Json.Spaces, Layout, PrintTree, Json.Stringify, Json.QuoteBody;
    LayoutPrints(f.value, ind + 2);
    MemberText(Json.Spaces(ind + 2), Json.Quote(f.key), Json.Stringify(f.value, ind + 2), after);
  }

  lemma MemberText(indent: string, key: string, value: string, after: string)
    ensures "\n" + indent + key + "" + ":" + (" " + value + after) == "\n" + (indent + key + ": " + value) + after
  {
    assert "\n" + indent + key + "" + ":" == "\n" + (indent + key + ":");
  }

  lemma {:induction false} LayoutFieldsPrint(fields: seq<Json.Field>, ind: nat)
    requires fields != []
    ensures PrintMembers(LayoutFields(fields, ind)) == "\n" + Json.StringifyFields(fields, ind + 2) + NewLine(ind)
    decreases fields, 0
  {
    hide Json.Spaces, Json.Stringify, Json.Quote, LayoutField, PrintMember;
    var laid, rest := LayoutFields(fields, ind), LayoutFields(fields[1..], ind);
    assert laid[1..] == rest;
    var first := Json.Spaces(ind + 2) + Json.Quote(fields[0].key) + ": " + Json.Stringify(fields[0].value, ind + 2);
    if |fields| == 1 {
      LayoutFieldPrints(fields[0], ind, NewLine(ind));
    } else {
      LayoutFieldPrints(fields[0], ind, "");
      LayoutFieldsPrint(fields[1..], ind);
      NextLine(first, Json.StringifyFields(fields[1..], ind + 2), NewLine(ind));
    }
  }
}
