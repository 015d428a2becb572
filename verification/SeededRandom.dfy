/** The multiplicative generator behind the mock analytics data. */
module SeededRandom {
  const M := 2147483647
  const A := 16807
  const INVERSE := 1407677000

  /** JavaScript's `%`: the remainder has the sign of the dividend. */
  function JsRem(a: int, b: int): int
    requires b > 0
  {
    if a >= 0 then a % b else -((-a) % b)
  }

  function Step(s: int): int {
    JsRem(s * A + 0, M)
  }

  predicate InRange(s: int) {
    1 <= s <= 2147483646
  }

  function Unstep(s: int): int {
    (s * INVERSE) % M
  }

  /** The product is exact in a double, the state stays in range, and multiplying by the inverse undoes the step. */
  lemma StepInRange(s: int)
    requires InRange(s)
    ensures s * A < 0x20_0000_0000_0000
    ensures InRange(Step(s)) && Unstep(Step(s)) == s
  {
    var q, r := (s * A) / M, (s * A) % M;
    assert s * A == q * M + r;
    assert A * INVERSE == 11017 * M + 1;
    var k := s * 11017 - q * INVERSE;
    assert r * INVERSE == k * M + s by {
      assert r * INVERSE == s * (A * INVERSE) - q * M * INVERSE;
    }
    RemainderUnique(r * INVERSE, k, s);
  }

  lemma RemainderUnique(x: int, k: int, s: int)
    requires x == k * M + s && 0 <= s < M
    ensures x % M == s
  {
  }

  /** Multiplying by the inverse, then stepping, also comes back. */
  lemma InverseInRange(s: int)
    requires InRange(s)
    ensures InRange(Unstep(s)) && Step(Unstep(s)) == s
  {
    var q, r := (s * INVERSE) / M, (s * INVERSE) % M;
    assert s * INVERSE == q * M + r;
    assert A * INVERSE == 11017 * M + 1;
    var k := s * 11017 - q * A;
    assert r * A == k * M + s by {
      assert r * A == s * (A * INVERSE) - q * M * A;
    }
    RemainderUnique(r * A, k, s);
  }

  /** The step is a bijection on the range: each state in range is the step of exactly one. */
  lemma StepBijective(t: int)
    requires InRange(t)
    ensures forall s :: InRange(s) && Step(s) == t <==> s == Unstep(t)
  {
    hide Step, Unstep, InRange;
    InverseInRange(t);
    forall s | InRange(s) && Step(s) == t ensures s == Unstep(t) {
      StepInRange(s);
    }
  }

  function Iterate(seed: int, n: nat): int {
    if n == 0 then seed else Step(Iterate(seed, n - 1))
  }

  /** From a seed in range, every state is in range, never 0. */
  lemma {:induction false} OrbitInRange(seed: int, n: nat)
    requires InRange(seed)
    ensures InRange(Iterate(seed, n))
  {
    if n > 0 {
      OrbitInRange(seed, n - 1);
      StepInRange(Iterate(seed, n - 1));
    }
  }

  /** The remainder keeps the sign, so a negative seed runs through the negated states. */
  lemma {:induction false} NegatedOrbit(seed: int, n: nat)
    ensures Iterate(-seed, n) == -Iterate(seed, n)
  {
    if n > 0 {
      NegatedOrbit(seed, n - 1);
      NegatedStep(Iterate(seed, n - 1));
    }
  }

  lemma NegatedStep(s: int)
    ensures Step(-s) == -Step(s)
  {
    assert (-s) * A == -(s * A);
  }

  /** From a positive seed that the modulus does not divide, every state after the first call is in range. */
  lemma PositiveOrbit(seed: nat, n: nat)
    requires n > 0 && seed % M != 0
    ensures InRange(Iterate(seed, n))
  {
    AfterFirst(seed, n);
    OrbitInRange(seed % M, n);
  }

  lemma DividedSeed(seed: nat)
    requires seed % M == 0
    ensures Iterate(seed, 1) == 0
  {
    var q := seed / M;
    assert Iterate(seed, 0) == seed && Iterate(seed, 1) == (seed * A) % M;
    assert seed * A == (q * A) * M + 0;
    RemainderUnique(seed * A, q * A, 0);
  }

  /**
   For every whole seed, the generator never reaches 0 exactly when the modulus does not divide the
   seed, and its states and so its results are in range exactly when the seed is positive as well.
   */
  lemma OrbitAvoidsZero(seed: int)
    ensures (forall n: nat :: n > 0 ==> Iterate(seed, n) != 0) <==> seed % M != 0
    ensures (forall n: nat :: n > 0 ==> InRange(Iterate(seed, n))) <==> seed > 0 && seed % M != 0
  {
    hide Iterate;
    var size := if seed < 0 then -seed else seed;
    assert size % M == 0 <==> seed % M == 0 by { SignOfDivided(seed); }
    forall n: nat | n > 0 ensures Iterate(seed, n) == if seed < 0 then -Iterate(size, n) else Iterate(size, n) {
      NegatedOrbit(size, n);
    }
    if seed % M == 0 {
      DividedSeed(size);
      assert Iterate(seed, 1) == 0;
    } else {
      forall n: nat | n > 0 ensures InRange(Iterate(size, n)) {
        PositiveOrbit(size, n);
      }
      assert InRange(Iterate(size, 1));
      assert seed < 0 ==> !InRange(Iterate(seed, 1));
    }
  }

  lemma SignOfDivided(seed: int)
    ensures (-seed) % M == 0 <==> seed % M == 0
  {
  }

  /** From the first step on, a seed acts as its remainder. */
  lemma {:induction false} AfterFirst(seed: nat, n: nat)
    requires n > 0
    ensures Iterate(seed, n) == Iterate(seed % M, n)
  {
    if n == 1 {
      var q, r := seed / M, seed % M;
      assert Iterate(seed, 0) == seed && Iterate(r, 0) == r;
      var q', r' := (r * A) / M, (r * A) % M;
      assert seed * A == (q * A + q') * M + r';
      RemainderUnique(seed * A, q * A + q', r');
    } else {
      AfterFirst(seed, n - 1);
    }
  }

  function Power(a: nat, n: nat): nat {
    if n == 0 then 1 else a * Power(a, n - 1)
  }

  /** After `n` calls on a seed in range, the state is the seed times the `n`-th power of 16807, modulo 2^31 - 1. */
  lemma {:induction false} OrbitClosed(seed: int, n: nat)
    requires 1 <= seed <= 2147483646
    ensures Iterate(seed, n) == (seed * Power(16807, n)) % 2147483647
  {
    if n > 0 {
      hide Step;
      var x := seed * Power(16807, n - 1);
      OrbitClosed(seed, n - 1);
      StepOfProduct(x);
      assert seed * Power(16807, n) == x * 16807 by {
        PowerNext(seed, n);
      }
    }
  }

  lemma PowerNext(seed: nat, n: nat)
    requires n > 0
    ensures seed * Power(16807, n) == (seed * Power(16807, n - 1)) * 16807
  {
    var p := Power(16807, n - 1);
    assert seed * (16807 * p) == (seed * p) * 16807;
  }

  lemma StepOfProduct(x: nat)
    ensures Step(x % M) == (x * 16807) % M
  {
    var q, s := x / M, x % M;
    var q', r := (s * A) / M, (s * A) % M;
    assert x * A == (q * A + q') * M + r;
    RemainderUnique(x * A, q * A + q', r);
  }

  /** The closure `seededRandom` returns, with its captured variable. */
  class Generator {
    var s: int

    constructor (seed: int)
      ensures s == seed
    {
      s := seed;
    }

    method Next() returns (r: real)
      modifies this
      ensures s == if old(s) >= 0 then (old(s) * 16807) % 2147483647 else -((-old(s) * 16807) % 2147483647)
      ensures s == Step(old(s)) && r == (s - 1) as real / 2147483646.0
      ensures 1 <= old(s) <= 2147483646 ==> 1 <= s <= 2147483646 && 0.0 <= r < 1.0
    {
      if InRange(s) {
        StepInRange(s);
      }
      s := JsRem(s * 16807 + 0, 2147483647);
      r := (s - 1) as real / 2147483646.0;
    }

    /** Any number of calls: the state is the orbit's, and every result lies in [0, 1). */
    method Draw(n: nat) returns (rs: seq<real>)
      requires InRange(s)
      modifies this
      ensures s == Iterate(old(s), n) && InRange(s)
      ensures |rs| == n && forall i :: 0 <= i < n ==> 0.0 <= rs[i] < 1.0
      ensures forall i :: 0 <= i < n ==>
                rs[i] == ((old(s) * Power(16807, i + 1)) % 2147483647 - 1) as real / 2147483646.0
    {
      rs := [];
      for i := 0 to n
        invariant |rs| == i && s == Iterate(old(s), i) && InRange(s)
        invariant forall k :: 0 <= k < i ==> 0.0 <= rs[k] < 1.0
        invariant forall k :: 0 <= k < i ==> rs[k] == (Iterate(old(s), k + 1) - 1) as real / 2147483646.0
      {
        var r := Next();
        rs := rs + [r];
      }
      forall i | 0 <= i < n
        ensures rs[i] == ((old(s) * Power(16807, i + 1)) % 2147483647 - 1) as real / 2147483646.0
      {
        OrbitClosed(old(s), i + 1);
      }
    }
  }
}
