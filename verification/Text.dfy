/** Strings: splitting on a character, searching, and decimal numbers. */
module Text {
  datatype Option<+T> = None | Some(value: T)

  /** `o ?? default` */
  function Or<T>(o: Option<T>, default: T): T {
    match o case Some(v) => v case None => default
  }

  // ---------- split and join ----------

  /** The pieces of `s` between occurrences of `c`; there is always at least one. */
  function Split(s: string, c: char): (r: seq<string>)
    ensures |r| >= 1
  {
    if s == "" then [""]
    else
      var rest := Split(s[1..], c);
      if s[0] == c then [""] + rest else [[s[0]] + rest[0]] + rest[1..]
  }

  function Join(parts: seq<string>, c: char): string
    requires |parts| >= 1
  {
    if |parts| == 1 then parts[0] else parts[0] + [c] + Join(parts[1..], c)
  }

  /** A prefix without `c` stays in the first piece. */
  lemma {:induction false} SplitPrefix(a: string, s: string, c: char)
    requires c !in a
    ensures Split(a + s, c) == [a + Split(s, c)[0]] + Split(s, c)[1..]
  {
    if a == "" {
      assert a + s == s;
      assert a + Split(s, c)[0] == Split(s, c)[0];
    } else {
      assert (a + s)[1..] == a[1..] + s;
      SplitPrefix(a[1..], s, c);
      assert [a[0]] + (a[1..] + Split(s, c)[0]) == a + Split(s, c)[0];
      assert a[0] in a;
    }
  }

  lemma {:induction false} SplitJoin(parts: seq<string>, c: char)
    requires |parts| >= 1
    requires forall p :: p in parts ==> c !in p
    ensures Split(Join(parts, c), c) == parts
  {
    if |parts| == 1 {
      SplitPrefix(parts[0], "", c);
      assert parts[0] + "" == parts[0];
    } else {
      var rest := Join(parts[1..], c);
      SplitJoin(parts[1..], c);
      SplitPrefix(parts[0], [c] + rest, c);
      assert parts[0] + [c] + rest == parts[0] + ([c] + rest);
      assert ([c] + rest)[1..] == rest;
      assert Split([c] + rest, c) == [""] + parts[1..];
      assert parts[0] + "" == parts[0];
    }
  }

  lemma {:induction false} JoinSplit(s: string, c: char)
    ensures Join(Split(s, c), c) == s
    ensures forall p :: p in Split(s, c) ==> c !in p
  {
    if s != "" {
      JoinSplit(s[1..], c);
      var rest := Split(s[1..], c);
      if s[0] == c {
        assert ([""] + rest)[1..] == rest;
        assert s == "" + [c] + s[1..];
      } else {
        var parts := [[s[0]] + rest[0]] + rest[1..];
        assert parts[1..] == rest[1..];
        assert Join(parts, c) == [s[0]] + Join(rest, c);
      }
    }
  }

  // ---------- searching ----------

  predicate Contains(s: string, p: string) {
    p <= s || (s != "" && Contains(s[1..], p))
  }

  lemma {:induction false} ContainsMeans(s: string, p: string)
    ensures Contains(s, p) <==> exists i :: 0 <= i <= |s| && p <= s[i..]
  {
    if p <= s {
      assert s[0..] == s;
    } else if s != "" {
      ContainsMeans(s[1..], p);
      if i :| 0 <= i <= |s| && p <= s[i..] {
        assert i > 0;
        assert s[1..][i - 1..] == s[i..];
      }
      if i :| 0 <= i <= |s[1..]| && p <= s[1..][i..] {
        assert s[1..][i..] == s[i + 1..];
      }
    }
  }

  // ---------- decimal numbers ----------

  predicate IsDigit(c: char) {
    '0' <= c <= '9'
  }

  predicate IsHex(c: char) {
    IsDigit(c) || 'a' <= c <= 'f' || 'A' <= c <= 'F'
  }

  predicate AllDigits(s: string) {
    forall i :: 0 <= i < |s| ==> IsDigit(s[i])
  }

  /** `/^\d+$/` */
  predicate IsDigitRun(s: string) {
    s != "" && AllDigits(s)
  }

  function DigitValue(c: char): nat
    requires IsDigit(c)
  {
    c as int - '0' as int
  }

  /** The number a run of decimal digits is worth. */
  function Worth(s: string): nat
    requires AllDigits(s)
  {
    if s == "" then 0 else 10 * Worth(s[..|s| - 1]) + DigitValue(s[|s| - 1])
  }

  function PowerOfTen(k: nat): nat {
    if k == 0 then 1 else 10 * PowerOfTen(k - 1)
  }

  /** Each digit is worth its distance from '0' times the power of ten of its place. */
  lemma {:induction false} WorthByPlace(s: string)
    requires AllDigits(s) && s != ""
    ensures Worth(s) == (s[0] as int - '0' as int) * PowerOfTen(|s| - 1) + Worth(s[1..])
  {
    var n := |s| - 1;
    if n == 0 {
      assert s[..0] == "" && s[1..] == "";
    } else {
      var front := s[..n];
      WorthByPlace(front);
      assert front[1..] == s[1..][..n - 1] && s[1..][n - 1] == s[n];
      var first, place := s[0] as int - '0' as int, PowerOfTen(n - 1);
      assert PowerOfTen(n) == 10 * place && 10 * (first * place) == first * (10 * place);
    }
  }

  function Digits(n: nat): (s: string)
    ensures IsDigitRun(s)
  {
    var last := [(n % 10 + '0' as int) as char];
    if n < 10 then last else Digits(n / 10) + last
  }

  lemma {:induction false} WorthOfDigits(n: nat)
    ensures Worth(Digits(n)) == n
  {
    var last := (n % 10 + '0' as int) as char;
    if n < 10 {
      assert [last][..0] == "";
    } else {
      WorthOfDigits(n / 10);
      assert Digits(n)[..|Digits(n)| - 1] == Digits(n / 10);
    }
  }

  /** `String(n)` for an integer. */
  function Print(n: int): (s: string)
    ensures s != ""
  {
    if n < 0 then "-" + Digits(-n) else Digits(n)
  }

  /** The leading run of digits. */
  function DigitPrefix(s: string): (k: nat)
    ensures k <= |s| && AllDigits(s[..k]) && (k < |s| ==> !IsDigit(s[k]))
  {
    if s == "" || !IsDigit(s[0]) then 0
    else
      var k := 1 + DigitPrefix(s[1..]);
      assert forall i :: 1 <= i < k ==> s[i] == s[1..][i - 1];
      k
  }

  /** `parseInt(s, 10)` of text without leading blanks; None is NaN. */
  function ParseInt(s: string): Option<int> {
    var negative := s != "" && s[0] == '-';
    var t := if negative then s[1..] else s;
    var k := DigitPrefix(t);
    if k == 0 then None else Some(if negative then -(Worth(t[..k]) as int) else Worth(t[..k]))
  }

  lemma {:induction false} DigitPrefixExact(d: string, rest: string)
    requires AllDigits(d) && (rest == "" || !IsDigit(rest[0]))
    ensures DigitPrefix(d + rest) == |d|
  {
    if d == "" {
      assert d + rest == rest;
    } else {
      assert (d + rest)[1..] == d[1..] + rest;
      DigitPrefixExact(d[1..], rest);
    }
  }

  lemma ReadDigits(n: nat, rest: string)
    requires rest == "" || !IsDigit(rest[0])
    ensures var d := Digits(n); DigitPrefix(d + rest) == |d| && (d + rest)[..|d|] == d && Worth(d) == n
    ensures (Digits(n) + rest)[0] != '-'
  {
    hide Worth, DigitPrefix;
    var d := Digits(n);
    WorthOfDigits(n);
    DigitPrefixExact(d, rest);
    assert (d + rest)[0] == d[0] && IsDigit(d[0]);
  }

  /** A number reads back, whatever follows its digits. */
  lemma ParsePrint(n: int, rest: string)
    requires rest == "" || !IsDigit(rest[0])
    ensures ParseInt(Print(n) + rest) == Some(n)
  {
    hide Digits, Worth, DigitPrefix;
    if n < 0 {
      ReadDigits(-n, rest);
      var t := Digits(-n) + rest;
      assert Print(n) + rest == "-" + t;
      assert ("-" + t)[1..] == t;
    } else {
      ReadDigits(n, rest);
    }
  }
}
