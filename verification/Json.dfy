/** JSON values, and their text as `JSON.stringify(value, null, 2)` prints it. */
module Json {
  import opened Text

  /** The parts of a number, section 6 of RFC 8259. */
  predicate IsNumber(sign: string, whole: string, frac: string, exp: string) {
    && (sign == "" || sign == "-")
    && IsDigitRun(whole) && (|whole| == 1 || whole[0] != '0')
    && (frac == "" || (frac[0] == '.' && IsDigitRun(frac[1..])))
    && (exp == "" || (exp[0] in "eE" && IsExponent(exp[1..])))
  }

  predicate IsExponent(e: string) {
    IsDigitRun(e) || (e != "" && e[0] in "+-" && IsDigitRun(e[1..]))
  }

  ghost predicate IsNumberText(s: string) {
    exists sign, whole, frac, exp :: IsNumber(sign, whole, frac, exp) && s == sign + whole + frac + exp
  }

  lemma ZeroIsNumber()
    ensures IsNumberText("0")
  {
    assert IsNumber("", "0", "", "");
    assert "" + "0" + "" + "" == "0";
  }

  type NumberText = s: string | IsNumberText(s) ghost witness (ZeroIsNumber(); "0")

  datatype Json =
    | Null
    | Bool(b: bool)
    | Num(text: NumberText)
    | Str(s: string)
    | Arr(items: seq<Json>)
    | Obj(fields: seq<Field>)

  datatype Field = Field(key: string, value: Json)

  // ---------- printing ----------

  function HexDigit(n: nat): char
    requires n < 16
  {
    "0123456789abcdef"[n]
  }

  /** One character inside a printed string, section 7 of RFC 8259. */
  function QuoteChar(c: char): string {
    if c == '"' then "\\\""
    else if c == '\\' then "\\\\"
    else if c == '\U{8}' then "\\b"
    else if c == '\U{C}' then "\\f"
    else if c == '\n' then "\\n"
    else if c == '\r' then "\\r"
    else if c == '\t' then "\\t"
    else if c < ' ' then ['\\', 'u', '0', '0', HexDigit(c as int / 16), HexDigit(c as int % 16)]
    else [c]
  }

  function QuoteBody(s: string): string {
    if s == "" then "" else QuoteChar(s[0]) + QuoteBody(s[1..])
  }

  function Quote(s: string): string {
    "\"" + QuoteBody(s) + "\""
  }

  function Spaces(n: nat): string {
    if n == 0 then "" else " " + Spaces(n - 1)
  }

  /** The text of a value whose line is indented by `ind`. */
  function Stringify(v: Json, ind: nat): string
    decreases v, 1
  {
    match v
    case Null => "null"
    case Bool(b) => if b then "true" else "false"
    case Num(text) => text
    case Str(s) => Quote(s)
    case Arr(items) =>
      if items == [] then "[]" else "[\n" + StringifyItems(items, ind + 2) + "\n" + Spaces(ind) + "]"
    case Obj(fields) =>
      if fields == [] then "{}" else "{\n" + StringifyFields(fields, ind + 2) + "\n" + Spaces(ind) + "}"
  }

  function StringifyItems(items: seq<Json>, ind: nat): string
    requires items != []
    decreases items, 0
  {
    Spaces(ind) + Stringify(items[0], ind) + (if |items| == 1 then "" else ",\n" + StringifyItems(items[1..], ind))
  }

  function StringifyFields(fields: seq<Field>, ind: nat): string
    requires fields != []
    decreases fields, 0
  {
    Spaces(ind) + Quote(fields[0].key) + ": " + Stringify(fields[0].value, ind)
    + (if |fields| == 1 then "" else ",\n" + StringifyFields(fields[1..], ind))
  }
}
