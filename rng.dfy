/** The Park-Miller "minimal standard" generator used for every random
    choice of the engine: seed' = 16807 * seed mod (2^31 - 1), and the drawn
    number is seed' / 2^31.  The engine keeps its seeds in doubles, but every
    intermediate value is an integer below 2^53, so integer arithmetic is
    exact here. */
module Rng {

  /** The modulus, built by the engine as 2048 * 1024 * 1024 - 1. */
  const Coef: int := 2048 * 1024 * 1024 - 1

  function Next(s: int): int
  {
    (16807 * s) % Coef
  }

  /** The number drawn after the seed has become s. */
  function Value(s: int): real
  {
    s as real / (Coef + 1) as real
  }

  /** The seed after j draws. */
  function Iter(s: int, j: nat): int
  {
    if j == 0 then s else Next(Iter(s, j - 1))
  }

  /** Drawing once and then j times is drawing j + 1 times. */
  lemma {:induction false} IterShift(s: int, j: nat)
    ensures Iter(Next(s), j) == Iter(s, j + 1)
    decreases j
  {
    if j > 0 {
      IterShift(s, j - 1);
    }
  }

  /** a draws followed by b draws are a + b draws. */
  lemma {:induction false} IterAdd(s: int, a: nat, b: nat)
    ensures Iter(Iter(s, a), b) == Iter(s, a + b)
    decreases b
  {
    if b > 0 {
      IterAdd(s, a, b - 1);
    }
  }

  /** Every seed after the first draw lies in [0, 2^31 - 1). */
  lemma NextRange(s: int)
    ensures 0 <= Next(s) < Coef
  {
  }

  /** Every drawn number lies in [0, 1). */
  lemma ValueRange(s: int)
    requires 0 <= s < Coef
    ensures 0.0 <= Value(s) < 1.0
  {
  }

  /** Truncating a draw scaled by k picks (s * k) div 2^31, an integer in
      [0, k) when k > 0. */
  lemma {:induction false} PickIsDiv(s: int, k: nat)
    requires 0 <= s < Coef
    ensures (Value(s) * k as real).Floor == (s * k) / (Coef + 1)
    ensures k > 0 ==> 0 <= (s * k) / (Coef + 1) < k
  {
    var b := Coef + 1;
    var q, r := (s * k) / b, (s * k) % b;
    assert s * k == q * b + r && 0 <= r < b;
    assert Value(s) * k as real == (s * k) as real / b as real;
    assert (s * k) as real / b as real == q as real + r as real / b as real;
    assert 0.0 <= r as real / b as real < 1.0;
    if k > 0 {
      assert s * k < b * k;
    }
  }

  /** The generator state: the `*seed` that every draw updates in place. */
  class Generator {
    var seed: int

    constructor (s: int)
      ensures seed == s
    {
      seed := s;
    }

    /** One draw: advance the seed and return seed / 2^31. */
    method Random() returns (r: real)
      modifies this
      ensures seed == Next(old(seed)) && r == Value(seed)
      ensures 0 <= seed < Coef && 0.0 <= r < 1.0
    {
      var rd := 16807 * seed;
      var rf := rd / Coef;
      seed := rd - rf * Coef;
      r := seed as real / (Coef + 1) as real;
      ValueRange(seed);
    }

    /** A draw scaled to [0, k) and truncated, as the engine picks an index
        or a count: the index is (seed' * k) div 2^31 for the new seed. */
    method Pick(k: nat) returns (i: int)
      modifies this
      ensures seed == Next(old(seed)) && 0 <= seed < Coef
      ensures i == (seed * k) / (Coef + 1)
      ensures k > 0 ==> 0 <= i < k
      ensures k == 0 ==> i == 0
    {
      var r := Random();
      i := (r * k as real).Floor;
      PickIsDiv(seed, k);
    }
  }
}
