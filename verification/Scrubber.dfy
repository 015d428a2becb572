/**
 Redaction of sensitive fields before an event leaves for analytics: what it does to a JSON tree,
 and the recursive routine that builds the redacted copy without touching the original objects.
 */
module Scrubber {
  import opened Text
  import opened Json

  const SENSITIVE_KEYS: seq<string> := [
    "password", "mnemonic", "privateKey", "private_key", "secret",
    "apiKey", "api_key", "token", "refreshToken", "refresh_token",
    "signature", "encryptedKey", "encrypted_key", "seed", "totp"]

  /**
   `toLowerCase`, as far as it can yield ASCII: the letters A to Z, the Kelvin sign, and the dotted
   capital I.  Any other character stands for its own lower case, which matches none of the keys.
   */
  function LowerChar(c: char): string {
    if 'A' <= c <= 'Z' then [c + ('a' - 'A')]
    else if c == '\U{212A}' then "k"
    else if c == '\U{130}' then "i\U{307}"
    else [c]
  }

  function Lower(s: string): string {
    if s == "" then "" else LowerChar(s[0]) + Lower(s[1..])
  }

  predicate Sensitive(key: string) {
    exists i :: 0 <= i < |SENSITIVE_KEYS| && Contains(Lower(key), Lower(SENSITIVE_KEYS[i]))
  }

  lemma {:induction false} LowerConcat(a: string, b: string)
    ensures Lower(a + b) == Lower(a) + Lower(b)
  {
    if a == "" {
      assert a + b == b;
    } else {
      assert (a + b)[1..] == a[1..] + b;
      LowerConcat(a[1..], b);
    }
  }

  // ---------- which keys are sensitive ----------

  /** The sensitive names, in small letters. */
  const SECRET_NAMES := [
    "password", "mnemonic", "privatekey", "private_key", "secret",
    "apikey", "api_key", "token", "refreshtoken", "refresh_token",
    "signature", "encryptedkey", "encrypted_key", "seed", "totp"]

  /** `c` is the small letter or underscore `small`, its capital, or the Kelvin sign for `k`. */
  predicate SpellsChar(c: char, small: char) {
    || c == small
    || ('a' <= small <= 'z' && c as int + 32 == small as int)
    || (small == 'k' && c == '\U{212A}')
  }

  /** `spelled` is `name` in some capitalisation. */
  predicate Spells(spelled: string, name: string) {
    |spelled| == |name| && forall i :: 0 <= i < |name| ==> SpellsChar(spelled[i], name[i])
  }

  predicate SpelledIn(key: string, before: string, spelled: string, after: string, name: string) {
    key == before + spelled + after && Spells(spelled, name)
  }

  /** One of the names stands somewhere in the key, in any capitalisation. */
  ghost predicate NamesSecret(key: string) {
    exists before, spelled, after, name :: name in SECRET_NAMES && SpelledIn(key, before, spelled, after, name)
  }

  predicate IsSmall(c: char) {
    'a' <= c <= 'z' || c == '_'
  }

  /** Small letters and underscores, not ending in `i`, which is how a lowered dotted capital I begins. */
  predicate Plain(name: string) {
    && (forall i :: 0 <= i < |name| ==> IsSmall(name[i]))
    && (name != "" ==> name[|name| - 1] != 'i')
  }

  lemma SpellsLower(c: char, small: char)
    requires IsSmall(small) && SpellsChar(c, small)
    ensures LowerChar(c) == [small]
  {
  }

  lemma {:induction false} SpelledLower(spelled: string, name: string)
    requires Plain(name) && Spells(spelled, name)
    ensures Lower(spelled) == name
  {
    if name != "" {
      hide LowerChar;
      SpellsLower(spelled[0], name[0]);
      assert Spells(spelled[1..], name[1..]);
      SpelledLower(spelled[1..], name[1..]);
    }
  }

  /** A name at the front of a lowered key is spelled at the front of the key. */
  lemma {:induction false} SpelledAtFront(key: string, name: string) returns (k: nat)
    requires Plain(name) && name <= Lower(key)
    ensures k <= |key| && Spells(key[..k], name)
  {
    if name == "" {
      k := 0;
    } else {
      var c, rest := LowerChar(key[0]), Lower(key[1..]);
      assert Lower(key) == c + rest && name[0] == c[0];
      assert |name| > 1 ==> name[1] == (c + rest)[1];
      assert |c| == 1 && SpellsChar(key[0], name[0]);
      assert (c + rest)[1..] == rest && name[1..] <= rest;
      var n := SpelledAtFront(key[1..], name[1..]);
      k := n + 1;
      assert key[..k] == [key[0]] + key[1..][..n];
    }
  }

  lemma {:induction false} SpelledInside(key: string, name: string)
    requires Plain(name) && name != "" && Contains(Lower(key), name)
    ensures exists before, spelled, after :: SpelledIn(key, before, spelled, after, name)
  {
    hide Lower, Contains, Plain, Spells;
    if name <= Lower(key) {
      var k := SpelledAtFront(key, name);
      assert key == "" + key[..k] + key[k..];
      assert SpelledIn(key, "", key[..k], key[k..], name);
    } else {
      InsideRest(key, name);
      SpelledInside(key[1..], name);
      var before, spelled, after :| SpelledIn(key[1..], before, spelled, after, name);
      SpelledFurther(key, before, spelled, after, name);
    }
  }

  lemma SpelledFurther(key: string, before: string, spelled: string, after: string, name: string)
    requires key != "" && SpelledIn(key[1..], before, spelled, after, name)
    ensures SpelledIn(key, [key[0]] + before, spelled, after, name)
  {
    assert key == [key[0]] + key[1..];
    assert [key[0]] + (before + spelled + after) == [key[0]] + before + spelled + after;
  }

  lemma LoweredChar(c: char)
    ensures |LowerChar(c)| == 1 || LowerChar(c) == "i\U{307}"
  {
  }

  /** A name that is not at the front of a lowered key stands behind its first character. */
  lemma InsideRest(key: string, name: string)
    requires Plain(name) && name != "" && Contains(Lower(key), name) && !(name <= Lower(key))
    ensures key != "" && Contains(Lower(key[1..]), name)
  {
    var c, rest := LowerChar(key[0]), Lower(key[1..]);
    assert Lower(key) == c + rest && Contains((c + rest)[1..], name);
    hide Lower, LowerChar;
    assert |c| == 1 || c == "i\U{307}" by { LoweredChar(key[0]); }
    if |c| == 1 {
      assert (c + rest)[1..] == rest;
    } else {
      assert (c + rest)[1..] == "\U{307}" + rest && ("\U{307}" + rest)[1..] == rest;
      assert ("\U{307}" + rest)[0] != name[0];
    }
  }

  lemma {:induction false} SpelledContained(key: string, before: string, spelled: string, after: string, name: string)
    requires Plain(name) && SpelledIn(key, before, spelled, after, name)
    ensures Contains(Lower(key), name)
  {
    hide Lower;
    SpelledLower(spelled, name);
    LowerConcat(before + spelled, after);
    LowerConcat(before, spelled);
    var lower := Lower(key);
    assert lower == Lower(before) + (name + Lower(after));
    assert lower[|Lower(before)|..] == name + Lower(after);
    ContainsMeans(lower, name);
  }

  lemma SecretNamesPlain(i: nat)
    requires i < |SECRET_NAMES|
    ensures Plain(SECRET_NAMES[i]) && SECRET_NAMES[i] != ""
  {
  }

  lemma KeysSpellNames(i: nat)
    requires i < |SENSITIVE_KEYS|
    ensures |SENSITIVE_KEYS| == |SECRET_NAMES| && Spells(SENSITIVE_KEYS[i], SECRET_NAMES[i])
  {
  }

  /** A key is sensitive if and only if one of the fifteen names stands somewhere in it, in any capitalisation. */
  lemma SensitiveExact(key: string)
    ensures Sensitive(key) <==> NamesSecret(key)
  {
    hide Lower, Contains, Plain, Spells;
    if i :| 0 <= i < |SENSITIVE_KEYS| && Contains(Lower(key), Lower(SENSITIVE_KEYS[i])) {
      SecretNamesPlain(i);
      KeysSpellNames(i);
      SpelledLower(SENSITIVE_KEYS[i], SECRET_NAMES[i]);
      SpelledInside(key, SECRET_NAMES[i]);
    }
    if before, spelled, after, name :| name in SECRET_NAMES && SpelledIn(key, before, spelled, after, name) {
      var i :| 0 <= i < |SECRET_NAMES| && SECRET_NAMES[i] == name;
      SecretNamesPlain(i);
      KeysSpellNames(i);
      SpelledLower(SENSITIVE_KEYS[i], name);
      SpelledContained(key, before, spelled, after, name);
    }
  }

  const REDACTED := Str("[REDACTED]")

  /** The tree the routine returns. */
  function Scrub(t: Json): Json
  {
    match t
    case Arr(items) => Arr(seq(|items|, i requires 0 <= i < |items| => Scrub(items[i])))
    case Obj(fields) => Obj(seq(|fields|, i requires 0 <= i < |fields| => ScrubField(fields[i])))
    case _ => t
  }

  function ScrubField(f: Field): Field {
    if Sensitive(f.key) then Field(f.key, REDACTED) else Field(f.key, Scrub(f.value))
  }

  /**
   Exactly the fields whose key has one of the names in it hold the marker afterwards; every other field
   of an object, and every item of an array, holds its own scrubbed value, and a primitive stays.
   */
  lemma RedactedExactly(t: Json)
    ensures match t
            case Obj(fields) =>
              && Scrub(t).Obj? && |Scrub(t).fields| == |fields|
              && forall i :: 0 <= i < |fields| ==>
                   && Scrub(t).fields[i].key == fields[i].key
                   && Scrub(t).fields[i].value
                      == if NamesSecret(fields[i].key) then Str("[REDACTED]") else Scrub(fields[i].value)
            case Arr(items) =>
              && Scrub(t).Arr? && |Scrub(t).items| == |items|
              && forall i :: 0 <= i < |items| ==> Scrub(t).items[i] == Scrub(items[i])
            case _ => Scrub(t) == t
  {
    hide Sensitive, NamesSecret;
    if t.Obj? {
      forall i | 0 <= i < |t.fields| ensures Sensitive(t.fields[i].key) <==> NamesSecret(t.fields[i].key) {
        SensitiveExact(t.fields[i].key);
      }
    }
  }

  // ---------- paths ----------

  datatype Step = Key(key: string) | Index(i: nat)

  function FindKey(fields: seq<Field>, key: string): Option<Json> {
    if fields == [] then None
    else if fields[0].key == key then Some(fields[0].value)
    else FindKey(fields[1..], key)
  }

  function Child(t: Json, s: Step): Option<Json> {
    match s
    case Key(key) => if t.Obj? then FindKey(t.fields, key) else None
    case Index(i) => if t.Arr? && i < |t.items| then Some(t.items[i]) else None
  }

  /** The subtree a path leads to. */
  function Lookup(t: Json, path: seq<Step>): Option<Json>
    decreases |path|
  {
    if path == [] then Some(t)
    else
      match Child(t, path[0])
      case None => None
      case Some(c) => Lookup(c, path[1..])
  }

  predicate Harmless(path: seq<Step>) {
    forall i :: 0 <= i < |path| && path[i].Key? ==> !Sensitive(path[i].key)
  }

  function Scrubbed(o: Option<Json>): Option<Json> {
    match o case None => None case Some(t) => Some(Scrub(t))
  }

  lemma {:induction false} FindScrubbed(fields: seq<Field>, key: string)
    ensures var after := seq(|fields|, i requires 0 <= i < |fields| => ScrubField(fields[i]));
            FindKey(after, key) ==
              if FindKey(fields, key).None? then None
              else if Sensitive(key) then Some(REDACTED)
              else Scrubbed(FindKey(fields, key))
  {
    hide Sensitive;
    if fields != [] {
      FindScrubbed(fields[1..], key);
      var after := seq(|fields|, i requires 0 <= i < |fields| => ScrubField(fields[i]));
      assert after[1..] == seq(|fields[1..]|, i requires 0 <= i < |fields[1..]| => ScrubField(fields[1..][i]));
    }
  }

  /** One step down: below a sensitive key there is only the marker, elsewhere the scrubbed child. */
  lemma ChildScrubbed(t: Json, s: Step)
    ensures Child(Scrub(t), s) ==
              if Child(t, s).None? then None
              else if s.Key? && Sensitive(s.key) then Some(REDACTED)
              else Scrubbed(Child(t, s))
  {
    hide Sensitive;
    if s.Key? && t.Obj? {
      FindScrubbed(t.fields, s.key);
    }
  }

  /**
   Along any path without a sensitive key, scrubbing reaches exactly the places the original reaches,
   and finds there the scrubbed original.
   */
  lemma {:induction false} HarmlessPaths(t: Json, path: seq<Step>)
    requires Harmless(path)
    ensures Lookup(Scrub(t), path) == Scrubbed(Lookup(t, path))
    decreases |path|
  {
    hide Sensitive;
    if path != [] {
      ChildScrubbed(t, path[0]);
      assert !(path[0].Key? && Sensitive(path[0].key));
      if c :| Child(t, path[0]) == Some(c) {
        HarmlessPaths(c, path[1..]);
      }
    }
  }

  lemma {:induction false} LookupConcat(t: Json, p: seq<Step>, q: seq<Step>)
    ensures Lookup(t, p + q) == match Lookup(t, p) case None => None case Some(c) => Lookup(c, q)
    decreases |p|
  {
    if p == [] {
      assert p + q == q;
    } else {
      assert (p + q)[1..] == p[1..] + q;
      if c :| Child(t, p[0]) == Some(c) {
        LookupConcat(c, p[1..], q);
      }
    }
  }

  /**
   At any depth, a sensitive key that is there holds only the marker: the path to it leads to the
   marker, and no path leads below it.
   */
  lemma SensitivePaths(t: Json, p: seq<Step>, key: string, q: seq<Step>)
    requires Harmless(p) && Sensitive(key)
    ensures Lookup(Scrub(t), p + [Key(key)] + q) ==
              if Lookup(t, p + [Key(key)]).None? || q != [] then None else Some(REDACTED)
  {
    hide Sensitive;
    HarmlessPaths(t, p);
    LookupConcat(t, p, [Key(key)]);
    LookupConcat(Scrub(t), p, [Key(key)]);
    LookupConcat(Scrub(t), p + [Key(key)], q);
    if c :| Lookup(t, p) == Some(c) {
      ChildScrubbed(c, Key(key));
      assert Lookup(Scrub(c), [Key(key)]) == Child(Scrub(c), Key(key));
      assert Lookup(c, [Key(key)]) == Child(c, Key(key));
      if q != [] {
        assert Child(REDACTED, q[0]).None?;
      }
    }
  }

  /** The keys of an object, in order. */
  function Keys(t: Json): seq<string>
    requires t.Obj?
  {
    seq(|t.fields|, i requires 0 <= i < |t.fields| => t.fields[i].key)
  }

  /** Outside redacted subtrees shapes and leaves stay: the same keys, the same lengths, the same leaf. */
  lemma ShapeAndLeavesStay(t: Json, path: seq<Step>)
    requires Harmless(path) && Lookup(t, path).Some?
    ensures Lookup(Scrub(t), path).Some?
    ensures var (a, b) := (Lookup(t, path).value, Lookup(Scrub(t), path).value);
            && a.Obj? == b.Obj? && a.Arr? == b.Arr?
            && (a.Obj? ==> Keys(a) == Keys(b))
            && (a.Arr? ==> |a.items| == |b.items|)
            && (!a.Obj? && !a.Arr? ==> a == b)
  {
    hide Sensitive;
    HarmlessPaths(t, path);
    var a := Lookup(t, path).value;
    if a.Obj? {
      assert forall i :: 0 <= i < |a.fields| ==> Scrub(a).fields[i].key == a.fields[i].key;
    }
  }

  /** A second scrub changes nothing. */
  lemma {:induction false} ScrubTwice(t: Json)
    ensures Scrub(Scrub(t)) == Scrub(t)
  {
    hide Sensitive;
    match t
    case Arr(items) =>
      forall i | 0 <= i < |items| ensures Scrub(Scrub(items[i])) == Scrub(items[i]) {
        ScrubTwice(items[i]);
      }
    case Obj(fields) =>
      forall i | 0 <= i < |fields| ensures ScrubField(ScrubField(fields[i])) == ScrubField(fields[i]) {
        ScrubTwice(fields[i].value);
      }
    case _ =>
  }

  // ---------- the routine over objects ----------

  /** A JavaScript value: a primitive, or a reference to an object or array. */
  datatype Val = Prim(p: Json) | Ref(o: JsObject) | List(a: JsArray)

  datatype Slot = Slot(key: string, value: Val)

  class JsObject {
    var fields: seq<Slot>

    constructor (fields: seq<Slot>)
      ensures this.fields == fields
    {
      this.fields := fields;
    }
  }

  class JsArray {
    var items: seq<Val>

    constructor (items: seq<Val>)
      ensures this.items == items
    {
      this.items := items;
    }
  }

  /** `v` is the tree `t`, built from the objects of `repr`. */
  ghost predicate Denotes(v: Val, t: Json, repr: set<object>)
    reads repr
    decreases t
  {
    match v
    case Prim(p) => t == p && !p.Arr? && !p.Obj?
    case Ref(o) =>
      && o in repr && t.Obj? && |o.fields| == |t.fields|
      && forall i :: 0 <= i < |t.fields| ==>
           o.fields[i].key == t.fields[i].key && Denotes(o.fields[i].value, t.fields[i].value, repr)
    case List(a) =>
      && a in repr && t.Arr? && |a.items| == |t.items|
      && forall i :: 0 <= i < |t.items| ==> Denotes(a.items[i], t.items[i], repr)
  }

  lemma {:induction false} DenotesMore(v: Val, t: Json, repr: set<object>, more: set<object>)
    requires Denotes(v, t, repr) && repr <= more
    ensures Denotes(v, t, more)
    decreases t
  {
    match v
    case Prim(_) =>
    case Ref(o) =>
      forall i | 0 <= i < |t.fields| ensures Denotes(o.fields[i].value, t.fields[i].value, more) {
        DenotesMore(o.fields[i].value, t.fields[i].value, repr, more);
      }
    case List(a) =>
      forall i | 0 <= i < |t.items| ensures Denotes(a.items[i], t.items[i], more) {
        DenotesMore(a.items[i], t.items[i], repr, more);
      }
  }

  /** A value denotes one tree only, whatever objects are allowed for. */
  lemma {:induction false} DenotesOne(v: Val, t: Json, repr: set<object>, t': Json, repr': set<object>)
    requires Denotes(v, t, repr) && Denotes(v, t', repr')
    ensures t == t'
    decreases t
  {
    match v
    case Prim(_) =>
    case Ref(o) =>
      forall i | 0 <= i < |t.fields| ensures t.fields[i] == t'.fields[i] {
        DenotesOne(o.fields[i].value, t.fields[i].value, repr, t'.fields[i].value, repr');
      }
    case List(a) =>
      forall i | 0 <= i < |t.items| ensures t.items[i] == t'.items[i] {
        DenotesOne(a.items[i], t.items[i], repr, t'.items[i], repr');
      }
  }

  /** The first values of a list are the scrubbed trees. */
  ghost predicate DoneItems(vs: seq<Val>, ts: seq<Json>, repr: set<object>)
    reads repr
  {
    |vs| <= |ts| && forall k :: 0 <= k < |vs| ==> Denotes(vs[k], Scrub(ts[k]), repr)
  }

  lemma DoneItemsNext(vs: seq<Val>, ts: seq<Json>, repr: set<object>, v: Val, repr': set<object>)
    requires DoneItems(vs, ts, repr) && |vs| < |ts| && Denotes(v, Scrub(ts[|vs|]), repr')
    ensures DoneItems(vs + [v], ts, repr + repr')
  {
    forall k | 0 <= k < |vs| + 1 ensures Denotes((vs + [v])[k], Scrub(ts[k]), repr + repr') {
      if k < |vs| {
        DenotesMore(vs[k], Scrub(ts[k]), repr, repr + repr');
      } else {
        DenotesMore(v, Scrub(ts[k]), repr', repr + repr');
      }
    }
  }

  ghost predicate DoneSlots(slots: seq<Slot>, fields: seq<Field>, repr: set<object>)
    reads repr
  {
    |slots| <= |fields| && forall k :: 0 <= k < |slots| ==>
      slots[k].key == fields[k].key && Denotes(slots[k].value, ScrubField(fields[k]).value, repr)
  }

  lemma DoneSlotsNext(slots: seq<Slot>, fields: seq<Field>, repr: set<object>, slot: Slot, repr': set<object>)
    requires DoneSlots(slots, fields, repr) && |slots| < |fields|
    requires slot.key == fields[|slots|].key && Denotes(slot.value, ScrubField(fields[|slots|]).value, repr')
    ensures DoneSlots(slots + [slot], fields, repr + repr')
  {
    hide ScrubField;
    var slots' := slots + [slot];
    forall k | 0 <= k < |slots'|
      ensures slots'[k].key == fields[k].key && Denotes(slots'[k].value, ScrubField(fields[k]).value, repr + repr')
    {
      if k < |slots| {
        DenotesMore(slots[k].value, ScrubField(fields[k]).value, repr, repr + repr');
      } else {
        DenotesMore(slot.value, ScrubField(fields[k]).value, repr', repr + repr');
      }
    }
  }

  /**
   `scrubSensitiveFields`: the result is the scrubbed tree in new objects, and no object that existed
   before is written to, so the input is still the tree it was.
   */
  method ScrubSensitiveFields(v: Val, ghost t: Json, ghost repr: set<object>) returns (r: Val, ghost made: set<object>)
    requires Denotes(v, t, repr)
    ensures Denotes(r, Scrub(t), made) && fresh(made)
    ensures Denotes(v, t, repr)
    decreases t, 1
  {
    match v
    case Prim(p) => r, made := v, {};
    case List(a) => r, made := ScrubArray(a, t, repr);
    case Ref(o) => r, made := ScrubObject(o, t, repr);
  }

  /** `obj.map(...)` */
  method ScrubArray(a: JsArray, ghost t: Json, ghost repr: set<object>) returns (r: Val, ghost made: set<object>)
    requires Denotes(List(a), t, repr)
    ensures Denotes(r, Scrub(t), made) && fresh(made)
    decreases t, 0
  {
    var items: seq<Val> := [];
    made := {};
    for i := 0 to |a.items|
      invariant |items| == i && DoneItems(items, t.items, made) && fresh(made)
    {
      assert Denotes(a.items[i], t.items[i], repr);
      ghost var before := made;
      var x, xs := ScrubSensitiveFields(a.items[i], t.items[i], repr);
      DoneItemsNext(items, t.items, before, x, xs);
      items, made := items + [x], before + xs;
    }
    var copy := new JsArray(items);
    forall k | 0 <= k < |items| ensures Denotes(items[k], Scrub(t.items[k]), made + {copy}) {
      DenotesMore(items[k], Scrub(t.items[k]), made, made + {copy});
    }
    r, made := List(copy), made + {copy};
  }

  /** The loop over the keys of a shallow copy, overwriting its values in place. */
  method ScrubObject(o: JsObject, ghost t: Json, ghost repr: set<object>) returns (r: Val, ghost made: set<object>)
    requires Denotes(Ref(o), t, repr)
    ensures Denotes(r, Scrub(t), made) && fresh(made)
    decreases t, 0
  {
    hide Sensitive;
    var scrubbed := new JsObject(o.fields);
    made := {};
    for i := 0 to |o.fields|
      invariant |scrubbed.fields| == |o.fields| && fresh(scrubbed) && fresh(made) && scrubbed !in made
      invariant scrubbed.fields[i..] == o.fields[i..]
      invariant DoneSlots(scrubbed.fields[..i], t.fields, made)
    {
      var slot := scrubbed.fields[i];
      assert slot == scrubbed.fields[i..][0] == o.fields[i];
      assert Denotes(o.fields[i].value, t.fields[i].value, repr);
      ghost var before := made;
      var value, xs := ScrubValue(slot, t.fields[i], repr);
      DoneSlotsNext(scrubbed.fields[..i], t.fields, before, Slot(slot.key, value), xs);
      made := before + xs;
      ghost var done := scrubbed.fields[..i];
      scrubbed.fields := scrubbed.fields[i := Slot(slot.key, value)];
      assert scrubbed.fields[..i + 1] == done + [Slot(slot.key, value)];
      assert scrubbed.fields[i + 1..] == o.fields[i..][1..];
    }
    assert scrubbed.fields[..|o.fields|] == scrubbed.fields;
    forall k | 0 <= k < |t.fields|
      ensures Denotes(scrubbed.fields[k].value, ScrubField(t.fields[k]).value, made + {scrubbed})
    {
      DenotesMore(scrubbed.fields[k].value, ScrubField(t.fields[k]).value, made, made + {scrubbed});
    }
    r, made := Ref(scrubbed), made + {scrubbed};
  }

  /** `SENSITIVE_KEYS.some(...)` */
  method IsSensitive(key: string) returns (found: bool)
    ensures found == Sensitive(key)
  {
    hide Contains, Lower;
    var lower := Lower(key);
    for i := 0 to |SENSITIVE_KEYS|
      invariant forall k :: 0 <= k < i ==> !Contains(lower, Lower(SENSITIVE_KEYS[k]))
    {
      if Contains(lower, Lower(SENSITIVE_KEYS[i])) {
        return true;
      }
    }
    return false;
  }

  /** The loop's body: redact, recurse into an object, or leave the value. */
  method ScrubValue(slot: Slot, ghost f: Field, ghost repr: set<object>) returns (value: Val, ghost made: set<object>)
    requires slot.key == f.key && Denotes(slot.value, f.value, repr)
    ensures Denotes(value, ScrubField(f).value, made) && fresh(made)
    decreases f.value, 2
  {
    hide Sensitive;
    var sensitive := IsSensitive(slot.key);
    if sensitive {
      value, made := Prim(Str("[REDACTED]")), {};
    } else if slot.value.Ref? || slot.value.List? {
      value, made := ScrubSensitiveFields(slot.value, f.value, repr);
    } else {
      value, made := slot.value, {};
    }
  }
}
