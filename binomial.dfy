/** Binomial coefficients: Pascal's recurrence as the reference, and the
    multiplicative loop with which the clustering selection computes them. */
module Binomial {

  /** C(n, k) by Pascal's rule. */
  function Binom(n: nat, k: nat): nat
    decreases n
  {
    if k == 0 then 1 else if n == 0 then 0 else Binom(n - 1, k - 1) + Binom(n - 1, k)
  }

  /** There are no k-subsets of an n-set when k > n. */
  lemma {:induction false} BinomAbove(n: nat, k: nat)
    requires k > n
    ensures Binom(n, k) == 0
    decreases n
  {
    if n > 0 {
      BinomAbove(n - 1, k - 1);
      BinomAbove(n - 1, k);
    }
  }

  /** C(n, n) == 1. */
  lemma {:induction false} BinomDiag(n: nat)
    ensures Binom(n, n) == 1
    decreases n
  {
    if n > 0 {
      BinomDiag(n - 1);
      BinomAbove(n - 1, n);
    }
  }

  /** C(n, 1) == n. */
  lemma {:induction false} BinomOne(n: nat)
    ensures Binom(n, 1) == n
    decreases n
  {
    if n > 0 {
      BinomOne(n - 1);
    }
  }

  /** The absorption identity i * C(a, i) == a * C(a - 1, i - 1). */
  lemma {:induction false} BinomAbsorb(a: nat, i: nat)
    requires a >= 1 && i >= 1
    ensures Binom(a, i) * i == Binom(a - 1, i - 1) * a
    decreases a
  {
    if a == 1 {
      if i > 1 {
        BinomAbove(1, i);
        BinomAbove(0, i - 1);
      }
    } else if i == 1 {
      BinomOne(a);
    } else {
      // i C(a,i) = i C(a-1,i-1) + i C(a-1,i)
      //          = i C(a-1,i-1) + (a-1) C(a-2,i-1)
      //          = C(a-1,i-1) + (a-1) (C(a-2,i-2) + C(a-2,i-1)) = a C(a-1,i-1)
      BinomAbsorb(a - 1, i);
      BinomAbsorb(a - 1, i - 1);
      var x, y, z := Binom(a - 1, i - 1), Binom(a - 2, i - 2), Binom(a - 2, i - 1);
      assert x == y + z;
      assert Binom(a - 1, i) * i == z * (a - 1);
      assert x * (i - 1) == y * (a - 1);
      Distribute(x, y, z, a, i, Binom(a - 1, i));
    }
  }

  /** The arithmetic step of the absorption identity. */
  lemma Distribute(x: int, y: int, z: int, a: int, i: int, u: int)
    requires x == y + z && u * i == z * (a - 1) && x * (i - 1) == y * (a - 1)
    ensures (x + u) * i == x * a
  {
    calc {
      (x + u) * i;
      x * i + u * i;
      x * (i - 1) + x + z * (a - 1);
      y * (a - 1) + z * (a - 1) + x;
      x * (a - 1) + x;
      x * a;
    }
  }

  /** Choosing k is choosing the n - k left out. */
  lemma {:induction false} BinomSym(n: nat, k: nat)
    requires k <= n
    ensures Binom(n, k) == Binom(n, n - k)
    decreases n
  {
    if k == 0 {
      BinomDiag(n);
    } else if k == n {
      BinomDiag(n);
    } else {
      BinomSym(n - 1, k - 1);
      BinomSym(n - 1, k);
    }
  }

  /** C(p, 2) counts the pairs: p (p - 1) / 2. */
  lemma BinomTwo(p: nat)
    ensures 2 * Binom(p, 2) == p * (p - 1)
  {
    if p == 0 {
    } else {
      BinomAbsorb(p, 2);
      BinomOne(p - 1);
    }
  }

  /** (x * i) / i == x for a positive i. */
  lemma ExactDiv(x: int, i: int)
    requires i > 0
    ensures (x * i) / i == x
  {
    var q, r := (x * i) / i, (x * i) % i;
    assert x * i == q * i + r && 0 <= r < i;
    assert (x - q) * i == r;
    if x - q >= 1 {
      MulMono(x - q, i);
    } else if x - q <= -1 {
      MulMono(q - x, i);
    }
  }

  /** A positive multiple of i is at least i. */
  lemma MulMono(d: int, i: int)
    requires d >= 1 && i > 0
    ensures d * i >= i
  {
  }

  /** The loop of the clustering selection: after the special cases (k == 0
      or k == n give 1, k > n gives 0) k is reduced to min(k, n - k), k == 1
      gives n, and otherwise b runs through C(n - k + i, i) for i = 1..k,
      each division by i being exact. */
  method BinomialCoefficient(n: nat, k: nat) returns (b: nat)
    ensures b == Binom(n, k)
  {
    if k == 0 || n == k {
      if n == k {
        BinomDiag(n);
      }
      return 1;
    }
    if k > n {
      BinomAbove(n, k);
      return 0;
    }
    var k' := k;
    if k' > n - k' {
      BinomSym(n, k);
      k' := n - k';
    }
    if k' == 1 {
      BinomOne(n);
      return n;
    }
    b := 1;
    var i := 1;
    while i <= k'
      invariant 1 <= i <= k' + 1
      invariant b == Binom(n - k' + i - 1, i - 1)
    {
      var a := n - (k' - i);
      BinomAbsorb(a, i);
      b := b * a;
      ExactDiv(Binom(a, i), i);
      b := b / i;
      i := i + 1;
    }
  }
}
