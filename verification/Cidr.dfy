/**
 The IPv4 and CIDR recogniser of the API-key allowlist.  JavaScript's `Number` is a parameter: all
 that is assumed of it is its value on runs of digits.
 */
module Cidr {
  import opened Text

  /** What `Number(s)` may be: not a number, infinite, an integer, or a number with a fraction. */
  datatype JsNumber = NaN | Infinite | Integer(n: int) | Fraction(r: real)

  const EXACT := 0x20_0000_0000_0000

  /** A run of digits is worth its decimal value, exactly below 2^53 and at least that from there on. */
  ghost predicate ReadsDigits(number: string -> JsNumber) {
    forall s :: IsDigitRun(s) ==>
      if Worth(s) < EXACT then number(s) == Integer(Worth(s))
      else number(s) == Infinite || (number(s).Integer? && number(s).n >= EXACT)
  }

  /** `!Number.isInteger(x) || x < 0 || x > top` is false. */
  predicate IntegerUpTo(x: JsNumber, top: int) {
    x.Integer? && 0 <= x.n <= top
  }

  /** `v < 0 || v > 255` */
  predicate OutOfOctet(x: JsNumber) {
    match x
    case NaN => false
    case Infinite => true
    case Integer(n) => n < 0 || n > 255
    case Fraction(r) => r < 0.0 || r > 255.0
  }

  predicate OctetsOk(octets: seq<string>, number: string -> JsNumber) {
    octets == [] || (IsDigitRun(octets[0]) && !OutOfOctet(number(octets[0])) && OctetsOk(octets[1..], number))
  }

  function IsValidIpOrCidr(value: string, number: string -> JsNumber): bool {
    if value == "" then false
    else
      var parts := Split(value, '/');
      if |parts| > 2 then false
      else
        var (addr, prefixStr) := if |parts| == 2 then (parts[0], parts[1]) else (value, "32");
        if !IntegerUpTo(number(prefixStr), 32) then false
        else
          var octets := Split(addr, '.');
          |octets| == 4 && OctetsOk(octets, number)
  }

  // ---------- the grammar ----------

  predicate IsOctet(s: string) {
    IsDigitRun(s) && Worth(s) <= 255
  }

  function Dotted(a: string, b: string, c: string, d: string): string {
    a + "." + b + "." + c + "." + d
  }

  /** Four dot-separated digit runs, each worth at most 255. */
  ghost predicate IsAddress(addr: string) {
    exists a, b, c, d :: IsOctet(a) && IsOctet(b) && IsOctet(c) && IsOctet(d) && addr == Dotted(a, b, c, d)
  }

  lemma DottedIsJoin(a: string, b: string, c: string, d: string)
    ensures Join([a, b, c, d], '.') == Dotted(a, b, c, d)
  {
    assert [a, b, c, d][1..] == [b, c, d] && [b, c, d][1..] == [c, d] && [c, d][1..] == [d];
    assert Join([d], '.') == d;
    assert Join([c, d], '.') == c + "." + d;
    assert Join([b, c, d], '.') == b + "." + (c + "." + d);
    assert a + "." + (b + "." + (c + "." + d)) == Dotted(a, b, c, d);
  }

  lemma OctetMeans(s: string, number: string -> JsNumber)
    requires ReadsDigits(number)
    ensures IsOctet(s) <==> IsDigitRun(s) && !OutOfOctet(number(s))
  {
  }

  lemma FourOctets(a: string, b: string, c: string, d: string, number: string -> JsNumber)
    requires ReadsDigits(number)
    ensures OctetsOk([a, b, c, d], number) <==> IsOctet(a) && IsOctet(b) && IsOctet(c) && IsOctet(d)
  {
    hide ReadsDigits, IsOctet, OutOfOctet, IsDigitRun;
    OctetMeans(a, number);
    OctetMeans(b, number);
    OctetMeans(c, number);
    OctetMeans(d, number);
    assert [a, b, c, d][1..] == [b, c, d] && [b, c, d][1..] == [c, d] && [c, d][1..] == [d] && [d][1..] == [];
    assert OctetsOk([], number);
    assert OctetsOk([d], number) <==> IsOctet(d);
    assert OctetsOk([c, d], number) <==> IsOctet(c) && IsOctet(d);
  }

  /** The split-based address check accepts exactly the addresses of the grammar. */
  lemma AddressExact(addr: string, number: string -> JsNumber)
    requires ReadsDigits(number)
    ensures |Split(addr, '.')| == 4 && OctetsOk(Split(addr, '.'), number) <==> IsAddress(addr)
  {
    hide ReadsDigits, OctetsOk, IsOctet;
    var octets := Split(addr, '.');
    if |octets| == 4 && OctetsOk(octets, number) {
      JoinSplit(addr, '.');
      var a, b, c, d := octets[0], octets[1], octets[2], octets[3];
      assert octets == [a, b, c, d];
      FourOctets(a, b, c, d, number);
      DottedIsJoin(a, b, c, d);
    }
    if IsAddress(addr) {
      var a, b, c, d :| IsOctet(a) && IsOctet(b) && IsOctet(c) && IsOctet(d) && addr == Dotted(a, b, c, d);
      AddressOctets(a, b, c, d, number);
    }
  }

  lemma NotInDigits(s: string, c: char)
    requires IsDigitRun(s) && !IsDigit(c)
    ensures c !in s
  {
  }

  lemma AddressOctets(a: string, b: string, c: string, d: string, number: string -> JsNumber)
    requires ReadsDigits(number)
    requires IsOctet(a) && IsOctet(b) && IsOctet(c) && IsOctet(d)
    ensures var octets := Split(Dotted(a, b, c, d), '.'); octets == [a, b, c, d] && OctetsOk(octets, number)
    ensures '/' !in Dotted(a, b, c, d)
  {
    hide ReadsDigits, OctetsOk, IsDigitRun;
    NotInDigits(a, '.');
    NotInDigits(b, '.');
    NotInDigits(c, '.');
    NotInDigits(d, '.');
    NotInDigits(a, '/');
    NotInDigits(b, '/');
    NotInDigits(c, '/');
    NotInDigits(d, '/');
    FourOctets(a, b, c, d, number);
    DottedIsJoin(a, b, c, d);
    SplitJoin([a, b, c, d], '.');
  }

  /** An address, a slash, and a digit run worth at most 32. */
  ghost predicate IsPair(value: string, addr: string, prefix: string) {
    IsAddress(addr) && IsDigitRun(prefix) && Worth(prefix) <= 32 && value == addr + "/" + prefix
  }

  /** An address, or an address with a prefix. */
  ghost predicate IsCidr(value: string) {
    || IsAddress(value)
    || exists addr, prefix :: IsPair(value, addr, prefix)
  }

  lemma AddressHasNoSlash(addr: string, number: string -> JsNumber)
    requires ReadsDigits(number) && IsAddress(addr)
    ensures '/' !in addr && addr != ""
  {
    var a, b, c, d :| IsOctet(a) && IsOctet(b) && IsOctet(c) && IsOctet(d) && addr == Dotted(a, b, c, d);
    AddressOctets(a, b, c, d, number);
  }

  lemma PrefixExact(prefix: string, number: string -> JsNumber)
    requires ReadsDigits(number) && IsDigitRun(prefix)
    ensures IntegerUpTo(number(prefix), 32) <==> Worth(prefix) <= 32
  {
  }

  lemma DefaultPrefix()
    ensures IsDigitRun("32") && Worth("32") == 32
  {
    assert "32"[..1] == "3" && "3"[..0] == "";
    assert Worth("3") == 3;
  }

  lemma WithoutSlash(value: string, number: string -> JsNumber)
    requires ReadsDigits(number) && '/' !in value
    ensures IsValidIpOrCidr(value, number) <==> IsAddress(value)
  {
    hide ReadsDigits, OctetsOk, IsAddress, IntegerUpTo;
    SplitPrefix(value, "", '/');
    assert value + "" == value;
    assert Split(value, '/') == [value];
    DefaultPrefix();
    PrefixExact("32", number);
    AddressExact(value, number);
    if IsAddress(value) {
      AddressHasNoSlash(value, number);
    }
  }

  lemma WithSlash(addr: string, prefix: string, number: string -> JsNumber)
    requires ReadsDigits(number) && '/' !in addr && '/' !in prefix
    ensures IsValidIpOrCidr(addr + "/" + prefix, number) <==> IsAddress(addr) && IntegerUpTo(number(prefix), 32)
  {
    hide ReadsDigits, OctetsOk, IsAddress, IntegerUpTo;
    var value := addr + "/" + prefix;
    assert [addr, prefix][1..] == [prefix];
    assert Join([addr, prefix], '/') == value;
    SplitJoin([addr, prefix], '/');
    AddressExact(addr, number);
  }

  lemma SlashParts(addr: string, prefix: string)
    requires '/' !in addr && '/' !in prefix
    ensures Split(addr + "/" + prefix, '/') == [addr, prefix]
  {
    assert [addr, prefix][1..] == [prefix];
    assert Join([addr, prefix], '/') == addr + "/" + prefix;
    SplitJoin([addr, prefix], '/');
  }

  /** An address, a slash, and text that `Number` takes for an integer from 0 to 32. */
  ghost predicate IsPrefixed(value: string, addr: string, prefix: string, number: string -> JsNumber) {
    IsAddress(addr) && '/' !in prefix && IntegerUpTo(number(prefix), 32) && value == addr + "/" + prefix
  }

  /** For every text: accepted are the addresses, and the addresses with a prefix that `Number` takes. */
  lemma RecogniserExact(value: string, number: string -> JsNumber)
    requires ReadsDigits(number)
    ensures IsValidIpOrCidr(value, number) <==>
            IsAddress(value) || exists addr, prefix :: IsPrefixed(value, addr, prefix, number)
  {
    hide ReadsDigits, OctetsOk, IsAddress, IntegerUpTo;
    var parts := Split(value, '/');
    JoinSplit(value, '/');
    if IsValidIpOrCidr(value, number) {
      if |parts| == 1 {
        assert value == parts[0];
        WithoutSlash(value, number);
      } else {
        var addr, prefix := parts[0], parts[1];
        assert parts == [addr, prefix] && [addr, prefix][1..] == [prefix];
        assert value == addr + "/" + prefix;
        WithSlash(addr, prefix, number);
        assert IsPrefixed(value, addr, prefix, number);
      }
    }
    if IsAddress(value) {
      AddressHasNoSlash(value, number);
      WithoutSlash(value, number);
    }
    if addr, prefix :| IsPrefixed(value, addr, prefix, number) {
      AddressHasNoSlash(addr, number);
      WithSlash(addr, prefix, number);
    }
  }

  /** A text has one part before and one part after its only slash. */
  lemma OneSplit(addr: string, prefix: string, addr': string, prefix': string)
    requires '/' !in addr && '/' !in prefix && '/' !in addr' && '/' !in prefix'
    requires addr + "/" + prefix == addr' + "/" + prefix'
    ensures addr == addr' && prefix == prefix'
  {
    SlashParts(addr, prefix);
    SlashParts(addr', prefix');
    var parts := Split(addr + "/" + prefix, '/');
    assert parts[0] == addr == addr' && parts[1] == prefix == prefix';
  }

  /** Every pair of the grammar has a prefix that `Number` takes. */
  lemma PairIsPrefixed(value: string, addr: string, prefix: string, number: string -> JsNumber)
    requires ReadsDigits(number) && IsPair(value, addr, prefix)
    ensures IsPrefixed(value, addr, prefix, number)
  {
    hide ReadsDigits, IsAddress;
    NotInDigits(prefix, '/');
    PrefixExact(prefix, number);
  }

  /** An address and a prefix that `Number` takes are in the grammar exactly when the prefix is a digit run. */
  lemma PrefixedIsPair(value: string, addr: string, prefix: string, number: string -> JsNumber)
    requires ReadsDigits(number) && IsPrefixed(value, addr, prefix, number)
    ensures IsCidr(value) <==> IsDigitRun(prefix)
  {
    hide ReadsDigits, IsAddress, IntegerUpTo, IsDigitRun;
    AddressHasNoSlash(addr, number);
    assert value[|addr|] == '/';
    if IsAddress(value) {
      AddressHasNoSlash(value, number);
      assert false;
    }
    if addr', prefix' :| IsPair(value, addr', prefix') {
      PairIsPrefixed(value, addr', prefix', number);
      AddressHasNoSlash(addr', number);
      OneSplit(addr, prefix, addr', prefix');
    }
    if IsDigitRun(prefix) {
      PrefixExact(prefix, number);
      assert IsPair(value, addr, prefix);
    }
  }

  /** An address with text after the slash that is no run of digits but that `Number` takes all the same. */
  ghost predicate OddPrefix(value: string, number: string -> JsNumber) {
    exists addr, prefix :: IsPrefixed(value, addr, prefix, number) && !IsDigitRun(prefix)
  }

  /**
   The recogniser agrees with the grammar on a text exactly when the text is not an address with an
   odd prefix: everything in the grammar is accepted, and those texts are all that is accepted besides.
   */
  lemma GrammarExact(value: string, number: string -> JsNumber)
    requires ReadsDigits(number)
    ensures IsCidr(value) ==> IsValidIpOrCidr(value, number)
    ensures (IsValidIpOrCidr(value, number) <==> IsCidr(value)) <==> !OddPrefix(value, number)
  {
    hide ReadsDigits, IsValidIpOrCidr, IsAddress, IntegerUpTo, IsPrefixed, IsDigitRun;
    RecogniserExact(value, number);
    if addr, prefix :| IsPair(value, addr, prefix) {
      PairIsPrefixed(value, addr, prefix, number);
    }
    forall addr, prefix | IsPrefixed(value, addr, prefix, number) ensures IsCidr(value) <==> IsDigitRun(prefix) {
      PrefixedIsPair(value, addr, prefix, number);
    }
  }

  /** What stands after the only slash, if there is one, is a run of digits. */
  predicate DigitsAfterSlash(value: string) {
    var parts := Split(value, '/');
    |parts| == 2 ==> IsDigitRun(parts[1])
  }

  /**
   For every text whose part after a slash, if any, is a run of digits, accepted are exactly the
   addresses and the address/prefix pairs of the grammar.
   */
  lemma DigitPrefixesExact(value: string, number: string -> JsNumber)
    requires ReadsDigits(number) && DigitsAfterSlash(value)
    ensures IsValidIpOrCidr(value, number) <==> IsCidr(value)
  {
    hide ReadsDigits, IsValidIpOrCidr, IsAddress, IntegerUpTo, IsCidr;
    GrammarExact(value, number);
    if addr, prefix :| IsPrefixed(value, addr, prefix, number) && !IsDigitRun(prefix) {
      AddressHasNoSlash(addr, number);
      SlashParts(addr, prefix);
    }
  }

  /** The printed form of an address and a prefix length. */
  function PrintCidr(a: nat, b: nat, c: nat, d: nat, prefix: nat): string {
    Dotted(Digits(a), Digits(b), Digits(c), Digits(d)) + "/" + Digits(prefix)
  }

  /** Every printed address/prefix pair in range is accepted, and none out of range. */
  lemma PrintedExact(a: nat, b: nat, c: nat, d: nat, prefix: nat, number: string -> JsNumber)
    requires ReadsDigits(number)
    ensures IsValidIpOrCidr(PrintCidr(a, b, c, d, prefix), number) <==>
            a <= 255 && b <= 255 && c <= 255 && d <= 255 && prefix <= 32
  {
    hide ReadsDigits, OctetsOk, IntegerUpTo;
    WorthOfDigits(a);
    WorthOfDigits(b);
    WorthOfDigits(c);
    WorthOfDigits(d);
    WorthOfDigits(prefix);
    var addr := Dotted(Digits(a), Digits(b), Digits(c), Digits(d));
    PrintedSplit(Digits(a), Digits(b), Digits(c), Digits(d), number);
    NotInDigits(Digits(prefix), '/');
    WithSlash(addr, Digits(prefix), number);
    PrefixExact(Digits(prefix), number);
    AddressExact(addr, number);
  }

  lemma PrintedSplit(a: string, b: string, c: string, d: string, number: string -> JsNumber)
    requires ReadsDigits(number)
    requires IsDigitRun(a) && IsDigitRun(b) && IsDigitRun(c) && IsDigitRun(d)
    ensures '/' !in Dotted(a, b, c, d)
    ensures Split(Dotted(a, b, c, d), '.') == [a, b, c, d]
    ensures OctetsOk([a, b, c, d], number) <==> IsOctet(a) && IsOctet(b) && IsOctet(c) && IsOctet(d)
  {
    hide ReadsDigits, OctetsOk, IsDigitRun;
    NotInDigits(a, '.');
    NotInDigits(b, '.');
    NotInDigits(c, '.');
    NotInDigits(d, '.');
    NotInDigits(a, '/');
    NotInDigits(b, '/');
    NotInDigits(c, '/');
    NotInDigits(d, '/');
    FourOctets(a, b, c, d, number);
    DottedIsJoin(a, b, c, d);
    SplitJoin([a, b, c, d], '.');
  }

  lemma CidrEndsInDigit(value: string)
    requires IsCidr(value)
    ensures value != "" && IsDigit(value[|value| - 1])
  {
    hide IsAddress;
    if IsAddress(value) {
      AddressEndsInDigit(value);
    } else {
      var addr, prefix :| IsPair(value, addr, prefix);
      assert value[|value| - 1] == prefix[|prefix| - 1];
    }
  }

  lemma AddressEndsInDigit(addr: string)
    requires IsAddress(addr)
    ensures addr != "" && IsDigit(addr[|addr| - 1])
  {
    var a, b, c, d :| IsOctet(a) && IsOctet(b) && IsOctet(c) && IsOctet(d) && addr == Dotted(a, b, c, d);
    assert addr[|addr| - 1] == d[|d| - 1];
  }

  lemma SingleDigit(c: char)
    requires IsDigit(c)
    ensures IsOctet([c])
  {
    assert [c][..0] == "";
    assert Worth([c]) == DigitValue(c);
  }

  /** `Number("")` is 0, so a slash with nothing after it is accepted, though no prefix is there. */
  lemma EmptyPrefixAccepted(number: string -> JsNumber)
    requires ReadsDigits(number) && number("") == Integer(0)
    ensures IsValidIpOrCidr("1.2.3.4/", number) && !IsCidr("1.2.3.4/")
  {
    hide ReadsDigits, IsValidIpOrCidr, IsOctet;
    SingleDigit('1');
    SingleDigit('2');
    SingleDigit('3');
    SingleDigit('4');
    assert Dotted("1", "2", "3", "4") == "1.2.3.4";
    assert IsAddress("1.2.3.4");
    assert "1.2.3.4" + "/" + "" == "1.2.3.4/";
    assert IsPrefixed("1.2.3.4/", "1.2.3.4", "", number);
    RecogniserExact("1.2.3.4/", number);
    if IsCidr("1.2.3.4/") {
      CidrEndsInDigit("1.2.3.4/");
    }
  }
}
