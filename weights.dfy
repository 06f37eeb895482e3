/** Dense weight matrices and the weighted pair sums that the search engine
    keeps up to date incrementally.

    Every sum here is taken over a coefficient vector `a`: with `a` the 0/1
    indicator of a vertex set it is the diversity objective and the per-vertex
    gain; with the fractional coefficients of the greedy construction it is
    that construction's relaxed objective.  One pair of update lemmas
    (QuadUpdate, LinUpdate) then serves every move of the engine. */
module Weights {

  type Matrix = seq<seq<real>>

  /** `w` is an n-by-n matrix, n = |w|. */
  predicate Square(w: Matrix)
  {
    forall i :: 0 <= i < |w| ==> |w[i]| == |w|
  }

  /** The instance's matrices are symmetric: w[i][j] == w[j][i]. */
  predicate Symmetric(w: Matrix)
  {
    Square(w) && forall i, j :: 0 <= i < |w| && 0 <= j < |w| ==> w[i][j] == w[j][i]
  }

  /** Sum of w[m][j] * a[j] over m < j < J (the upper part of row m). */
  function TailTo(w: Matrix, a: seq<real>, m: nat, J: nat): real
    requires Square(w) && |a| == |w| && m < |w| && J <= |w|
    decreases J
  {
    if J <= m + 1 then 0.0 else TailTo(w, a, m, J - 1) + w[m][J - 1] * a[J - 1]
  }

  /** Sum of w[r][m] * a[r] over r < I (the upper part of column m when I <= m). */
  function HeadTo(w: Matrix, a: seq<real>, m: nat, I: nat): real
    requires Square(w) && |a| == |w| && m < |w| && I <= |w|
    decreases I
  {
    if I == 0 then 0.0 else HeadTo(w, a, m, I - 1) + w[I - 1][m] * a[I - 1]
  }

  /** Sum of the weights between m and every other vertex, each weighted by
      that vertex's coefficient: the gain of vertex m. */
  function Lin(w: Matrix, a: seq<real>, m: nat): real
    requires Square(w) && |a| == |w| && m < |w|
  {
    HeadTo(w, a, m, m) + TailTo(w, a, m, |w|)
  }

  /** Sum of a[r] * a[j] * w[r][j] over the pairs r < j with r < I. */
  function QPre(w: Matrix, a: seq<real>, I: nat): real
    requires Square(w) && |a| == |w| && I <= |w|
    decreases I
  {
    if I == 0 then 0.0 else QPre(w, a, I - 1) + RowTerm(w, a, I - 1)
  }

  /** What row r adds to QPre. */
  function RowTerm(w: Matrix, a: seq<real>, r: nat): real
    requires Square(w) && |a| == |w| && r < |w|
  {
    a[r] * TailTo(w, a, r, |w|)
  }

  /** Sum of a[i] * a[j] * w[i][j] over all pairs i < j. */
  function Quad(w: Matrix, a: seq<real>): real
    requires Square(w) && |a| == |w|
  {
    QPre(w, a, |w|)
  }

  /** The vector c * a. */
  function Scale(c: real, a: seq<real>): (r: seq<real>)
    ensures |r| == |a| && forall i :: 0 <= i < |a| ==> r[i] == c * a[i]
  {
    seq(|a|, i requires 0 <= i < |a| => c * a[i])
  }

  /** The all-ones vector of length n. */
  function Ones(n: nat): (r: seq<real>)
    ensures |r| == n && forall i :: 0 <= i < n ==> r[i] == 1.0
  {
    seq(n, i => 1.0)
  }

  // ---------------------------------------------------------------------
  // Changing one coefficient

  lemma {:induction false} TailUpdate(w: Matrix, a: seq<real>, k: nat, v: real, m: nat, J: nat)
    requires Square(w) && |a| == |w| && k < |w| && m < |w| && J <= |w|
    ensures TailTo(w, a[k := v], m, J)
         == TailTo(w, a, m, J) + (if m < k < J then w[m][k] * (v - a[k]) else 0.0)
    decreases J
  {
    if J > m + 1 {
      TailUpdate(w, a, k, v, m, J - 1);
      if J - 1 == k {
        assert w[m][k] * v == w[m][k] * a[k] + w[m][k] * (v - a[k]);
      }
    }
  }

  lemma {:induction false} HeadUpdate(w: Matrix, a: seq<real>, k: nat, v: real, m: nat, I: nat)
    requires Square(w) && |a| == |w| && k < |w| && m < |w| && I <= |w|
    ensures HeadTo(w, a[k := v], m, I)
         == HeadTo(w, a, m, I) + (if k < I then w[k][m] * (v - a[k]) else 0.0)
    decreases I
  {
    if I > 0 {
      HeadUpdate(w, a, k, v, m, I - 1);
      if I - 1 == k {
        assert w[k][m] * v == w[k][m] * a[k] + w[k][m] * (v - a[k]);
      }
    }
  }

  /** Changing coefficient k by (v - a[k]) moves the gain of every other
      vertex m by w[m][k] times that change, and leaves the gain of k alone. */
  lemma LinUpdate(w: Matrix, a: seq<real>, k: nat, v: real, m: nat)
    requires Symmetric(w) && |a| == |w| && k < |w| && m < |w|
    ensures Lin(w, a[k := v], m)
         == Lin(w, a, m) + (if m != k then w[m][k] * (v - a[k]) else 0.0)
  {
    HeadUpdate(w, a, k, v, m, m);
    TailUpdate(w, a, k, v, m, |w|);
  }

  /** What row r of QPre contributes to the gain of vertex k: its weight to
      k for an earlier row, the whole tail of row k, nothing for a later row. */
  function SeenStep(w: Matrix, a: seq<real>, k: nat, r: nat): real
    requires Square(w) && |a| == |w| && k < |w| && r < |w|
  {
    if r < k then w[r][k] * a[r] else if r == k then TailTo(w, a, k, |w|) else 0.0
  }

  /** The part of the gain of k that the rows r < I of QPre(w, a, I) see. */
  function SeenGain(w: Matrix, a: seq<real>, k: nat, I: nat): real
    requires Square(w) && |a| == |w| && k < |w| && I <= |w|
    decreases I
  {
    if I == 0 then 0.0 else SeenGain(w, a, k, I - 1) + SeenStep(w, a, k, I - 1)
  }

  lemma {:induction false} SeenGainHead(w: Matrix, a: seq<real>, k: nat, I: nat)
    requires Square(w) && |a| == |w| && k < |w| && I <= k
    ensures SeenGain(w, a, k, I) == HeadTo(w, a, k, I)
    decreases I
  {
    if I > 0 {
      SeenGainHead(w, a, k, I - 1);
    }
  }

  /** Once row k has been passed, the seen part is the whole gain of k. */
  lemma {:induction false} SeenGainAll(w: Matrix, a: seq<real>, k: nat, I: nat)
    requires Square(w) && |a| == |w| && k < I <= |w|
    ensures SeenGain(w, a, k, I) == Lin(w, a, k)
    decreases I
  {
    if I == k + 1 {
      SeenGainHead(w, a, k, k);
    } else {
      SeenGainAll(w, a, k, I - 1);
    }
  }

  lemma AddBoth(p': real, p: real, s: real, r': real, r: real, e: real)
    requires p' == p + s && r' == r + e
    ensures p' + r' == (p + r) + (s + e)
  {
  }

  lemma Distribute(d: real, x: real, s: real, y: real)
    requires y == x + s
    ensures d * y == d * x + d * s
  {
  }

  lemma StepScale(d: real, x: real, s: real, y: real, p: real, q: real)
    requires p == d * x && y == x + s && q == p + d * s
    ensures q == d * y
  {
  }

  /** The contribution of row r to QPre changes by the coefficient change
      times what row r contributes to the gain of k. */
  lemma RowUpdate(w: Matrix, a: seq<real>, k: nat, v: real, r: nat)
    requires Square(w) && |a| == |w| && k < |w| && r < |w|
    ensures RowTerm(w, a[k := v], r) == RowTerm(w, a, r) + (v - a[k]) * SeenStep(w, a, k, r)
  {
    TailUpdate(w, a, k, v, r, |w|);
    var d := v - a[k];
    var t := TailTo(w, a, r, |w|);
    if r < k {
      assert a[r] * (t + w[r][k] * d) == a[r] * t + d * (w[r][k] * a[r]);
    } else if r == k {
      assert v * t == a[k] * t + d * t;
    }
  }

  /** The change d times SeenStep, summed over the rows r < I. */
  function SeenDelta(w: Matrix, a: seq<real>, k: nat, d: real, I: nat): real
    requires Square(w) && |a| == |w| && k < |w| && I <= |w|
  {
    if I == 0 then 0.0 else SeenDelta(w, a, k, d, I - 1) + d * SeenStep(w, a, k, I - 1)
  }

  lemma {:induction false} SeenDeltaIs(w: Matrix, a: seq<real>, k: nat, d: real, I: nat)
    requires Square(w) && |a| == |w| && k < |w| && I <= |w|
    ensures SeenDelta(w, a, k, d, I) == d * SeenGain(w, a, k, I)
    decreases I
  {
    if I > 0 {
      SeenDeltaIs(w, a, k, d, I - 1);
      StepScale(d, SeenGain(w, a, k, I - 1), SeenStep(w, a, k, I - 1), SeenGain(w, a, k, I),
                SeenDelta(w, a, k, d, I - 1), SeenDelta(w, a, k, d, I));
    }
  }

  lemma {:induction false} QPreUpdate(w: Matrix, a: seq<real>, k: nat, v: real, I: nat)
    requires Square(w) && |a| == |w| && k < |w| && I <= |w|
    ensures QPre(w, a[k := v], I) == QPre(w, a, I) + SeenDelta(w, a, k, v - a[k], I)
    decreases I
  {
    if I > 0 {
      QPreUpdate(w, a, k, v, I - 1);
      QPreUpdateStep(w, a, k, v, I - 1);
    }
  }

  lemma QPreUpdateStep(w: Matrix, a: seq<real>, k: nat, v: real, r: nat)
    requires Square(w) && |a| == |w| && k < |w| && r < |w|
    requires QPre(w, a[k := v], r) == QPre(w, a, r) + SeenDelta(w, a, k, v - a[k], r)
    ensures QPre(w, a[k := v], r + 1) == QPre(w, a, r + 1) + SeenDelta(w, a, k, v - a[k], r + 1)
  {
    RowUpdate(w, a, k, v, r);
    AddBoth(QPre(w, a[k := v], r), QPre(w, a, r), SeenDelta(w, a, k, v - a[k], r),
            RowTerm(w, a[k := v], r), RowTerm(w, a, r), (v - a[k]) * SeenStep(w, a, k, r));
  }

  /** Changing coefficient k changes the quadratic sum by the change times
      the gain of k: the incremental objective update of every move. */
  lemma QuadUpdate(w: Matrix, a: seq<real>, k: nat, v: real)
    requires Square(w) && |a| == |w| && k < |w|
    ensures Quad(w, a[k := v]) == Quad(w, a) + (v - a[k]) * Lin(w, a, k)
  {
    QPreUpdate(w, a, k, v, |w|);
    SeenDeltaIs(w, a, k, v - a[k], |w|);
    SeenGainAll(w, a, k, |w|);
  }

  // ---------------------------------------------------------------------
  // Scaling the coefficient vector

  lemma {:induction false} TailScale(w: Matrix, c: real, a: seq<real>, m: nat, J: nat)
    requires Square(w) && |a| == |w| && m < |w| && J <= |w|
    ensures TailTo(w, Scale(c, a), m, J) == c * TailTo(w, a, m, J)
    decreases J
  {
    if J > m + 1 {
      TailScale(w, c, a, m, J - 1);
      var t := TailTo(w, a, m, J - 1);
      assert w[m][J - 1] * (c * a[J - 1]) == c * (w[m][J - 1] * a[J - 1]);
      assert c * t + c * (w[m][J - 1] * a[J - 1]) == c * (t + w[m][J - 1] * a[J - 1]);
    }
  }

  lemma {:induction false} HeadScale(w: Matrix, c: real, a: seq<real>, m: nat, I: nat)
    requires Square(w) && |a| == |w| && m < |w| && I <= |w|
    ensures HeadTo(w, Scale(c, a), m, I) == c * HeadTo(w, a, m, I)
    decreases I
  {
    if I > 0 {
      HeadScale(w, c, a, m, I - 1);
      var h := HeadTo(w, a, m, I - 1);
      assert w[I - 1][m] * (c * a[I - 1]) == c * (w[I - 1][m] * a[I - 1]);
      assert c * h + c * (w[I - 1][m] * a[I - 1]) == c * (h + w[I - 1][m] * a[I - 1]);
    }
  }

  lemma LinScale(w: Matrix, c: real, a: seq<real>, m: nat)
    requires Square(w) && |a| == |w| && m < |w|
    ensures Lin(w, Scale(c, a), m) == c * Lin(w, a, m)
  {
    HeadScale(w, c, a, m, m);
    TailScale(w, c, a, m, |w|);
  }

  lemma RowScale(w: Matrix, c: real, a: seq<real>, r: nat)
    requires Square(w) && |a| == |w| && r < |w|
    ensures RowTerm(w, Scale(c, a), r) == c * c * RowTerm(w, a, r)
  {
    TailScale(w, c, a, r, |w|);
    var t := TailTo(w, a, r, |w|);
    assert RowTerm(w, Scale(c, a), r) == (c * a[r]) * (c * t);
  }

  lemma {:induction false} QPreScale(w: Matrix, c: real, a: seq<real>, I: nat)
    requires Square(w) && |a| == |w| && I <= |w|
    ensures QPre(w, Scale(c, a), I) == c * c * QPre(w, a, I)
    decreases I
  {
    if I > 0 {
      QPreScale(w, c, a, I - 1);
      RowScale(w, c, a, I - 1);
      Distribute(c * c, QPre(w, a, I - 1), RowTerm(w, a, I - 1), QPre(w, a, I));
    }
  }

  lemma QuadScale(w: Matrix, c: real, a: seq<real>)
    requires Square(w) && |a| == |w|
    ensures Quad(w, Scale(c, a)) == c * c * Quad(w, a)
  {
    QPreScale(w, c, a, |w|);
  }

  // ---------------------------------------------------------------------
  // Combining two coefficient vectors

  /** One summand of a sum over c1 * a + c2 * b. */
  lemma CombStep(t: real, x: real, y: real, e: real, r: real, u: real, v: real, c1: real, c2: real)
    requires t == c1 * x + c2 * y && r == c1 * u + c2 * v
    ensures t + e * r == c1 * (x + e * u) + c2 * (y + e * v)
  {
    assert e * r == c1 * (e * u) + c2 * (e * v);
  }

  lemma {:induction false} TailComb(w: Matrix, a: seq<real>, b: seq<real>, r: seq<real>, c1: real, c2: real, m: nat, J: nat)
    requires Square(w) && |a| == |w| && |b| == |w| && |r| == |w| && m < |w| && J <= |w|
    requires forall i :: 0 <= i < |r| ==> r[i] == c1 * a[i] + c2 * b[i]
    ensures TailTo(w, r, m, J) == c1 * TailTo(w, a, m, J) + c2 * TailTo(w, b, m, J)
    decreases J
  {
    if J > m + 1 {
      TailComb(w, a, b, r, c1, c2, m, J - 1);
      CombStep(TailTo(w, r, m, J - 1), TailTo(w, a, m, J - 1), TailTo(w, b, m, J - 1),
               w[m][J - 1], r[J - 1], a[J - 1], b[J - 1], c1, c2);
    }
  }

  lemma {:induction false} HeadComb(w: Matrix, a: seq<real>, b: seq<real>, r: seq<real>, c1: real, c2: real, m: nat, I: nat)
    requires Square(w) && |a| == |w| && |b| == |w| && |r| == |w| && m < |w| && I <= |w|
    requires forall i :: 0 <= i < |r| ==> r[i] == c1 * a[i] + c2 * b[i]
    ensures HeadTo(w, r, m, I) == c1 * HeadTo(w, a, m, I) + c2 * HeadTo(w, b, m, I)
    decreases I
  {
    if I > 0 {
      HeadComb(w, a, b, r, c1, c2, m, I - 1);
      CombStep(HeadTo(w, r, m, I - 1), HeadTo(w, a, m, I - 1), HeadTo(w, b, m, I - 1),
               w[I - 1][m], r[I - 1], a[I - 1], b[I - 1], c1, c2);
    }
  }

  /** The gain over a combination of two vectors is the same combination of
      the two gains. */
  lemma LinComb(w: Matrix, a: seq<real>, b: seq<real>, r: seq<real>, c1: real, c2: real, m: nat)
    requires Square(w) && |a| == |w| && |b| == |w| && |r| == |w| && m < |w|
    requires forall i :: 0 <= i < |r| ==> r[i] == c1 * a[i] + c2 * b[i]
    ensures Lin(w, r, m) == c1 * Lin(w, a, m) + c2 * Lin(w, b, m)
  {
    HeadComb(w, a, b, r, c1, c2, m, m);
    TailComb(w, a, b, r, c1, c2, m, |w|);
    CombStep(HeadTo(w, r, m, m), HeadTo(w, a, m, m), HeadTo(w, b, m, m),
             1.0, TailTo(w, r, m, |w|), TailTo(w, a, m, |w|), TailTo(w, b, m, |w|), c1, c2);
  }

  // ---------------------------------------------------------------------
  // Accumulating every gain in one row-major scan of the pairs i < j

  /** What a row-major scan of the pairs (r, c), r < c, has added to the
      gain of m after the pairs before (i, j) have been processed: pair
      (r, c) adds w[r][c] * a[c] to r and w[r][c] * a[r] to c. */
  function PairAcc(w: Matrix, a: seq<real>, m: nat, i: nat, j: nat): real
    requires Square(w) && |a| == |w| && m < |w| && i < |w| && j <= |w|
  {
    if m < i then Lin(w, a, m)
    else if m == i then HeadTo(w, a, m, m) + TailTo(w, a, m, j)
    else HeadTo(w, a, m, i) + (if m < j then w[i][m] * a[i] else 0.0)
  }

  lemma PairAccStart(w: Matrix, a: seq<real>, m: nat)
    requires Square(w) && |a| == |w| && m < |w|
    ensures PairAcc(w, a, m, 0, 1) == 0.0
  {
  }

  /** Processing pair (i, j) adds to the gains of i and j only. */
  lemma PairAccStep(w: Matrix, a: seq<real>, m: nat, i: nat, j: nat)
    requires Square(w) && |a| == |w| && m < |w| && i < j < |w|
    ensures PairAcc(w, a, m, i, j + 1)
         == PairAcc(w, a, m, i, j) + (if m == i then w[i][j] * a[j] else 0.0)
                                   + (if m == j then w[i][j] * a[i] else 0.0)
  {
  }

  /** Finishing row i is starting row i + 1. */
  lemma PairAccRow(w: Matrix, a: seq<real>, m: nat, i: nat)
    requires Square(w) && |a| == |w| && m < |w| && i + 1 < |w|
    ensures PairAcc(w, a, m, i, |w|) == PairAcc(w, a, m, i + 1, i + 2)
  {
    if m > i {
      assert HeadTo(w, a, m, i + 1) == HeadTo(w, a, m, i) + w[i][m] * a[i];
    }
  }

  /** After the last row every gain is complete. */
  lemma PairAccEnd(w: Matrix, a: seq<real>, m: nat)
    requires Square(w) && |a| == |w| && m < |w|
    ensures PairAcc(w, a, m, |w| - 1, |w|) == Lin(w, a, m)
  {
  }

  /** The same scan accumulates the quadratic sum row by row. */
  lemma QPreRow(w: Matrix, a: seq<real>, i: nat)
    requires Square(w) && |a| == |w| && i < |w| && a[i] == 1.0
    ensures QPre(w, a, i + 1) == QPre(w, a, i) + TailTo(w, a, i, |w|)
  {
  }

  // ---------------------------------------------------------------------
  // A bound on the quadratic sum of a 0/1 vector

  function Abs(x: real): real
  {
    if x < 0.0 then -x else x
  }

  /** Sum of |w[m][j]| over m < j < J. */
  function TailAbs(w: Matrix, m: nat, J: nat): real
    requires Square(w) && m < |w| && J <= |w|
    decreases J
  {
    if J <= m + 1 then 0.0 else TailAbs(w, m, J - 1) + Abs(w[m][J - 1])
  }

  /** Sum of |w[r][j]| over the pairs r < j with r < I. */
  function QAbs(w: Matrix, I: nat): real
    requires Square(w) && I <= |w|
    decreases I
  {
    if I == 0 then 0.0 else QAbs(w, I - 1) + TailAbs(w, I - 1, |w|)
  }

  predicate ZeroOne(a: seq<real>)
  {
    forall i :: 0 <= i < |a| ==> a[i] == 0.0 || a[i] == 1.0
  }

  lemma {:induction false} TailBound(w: Matrix, a: seq<real>, m: nat, J: nat)
    requires Square(w) && |a| == |w| && m < |w| && J <= |w| && ZeroOne(a)
    ensures TailTo(w, a, m, J) <= TailAbs(w, m, J) && 0.0 <= TailAbs(w, m, J)
    decreases J
  {
    if J > m + 1 {
      TailBound(w, a, m, J - 1);
    }
  }

  lemma {:induction false} QPreBound(w: Matrix, a: seq<real>, I: nat)
    requires Square(w) && |a| == |w| && I <= |w| && ZeroOne(a)
    ensures QPre(w, a, I) <= QAbs(w, I)
    decreases I
  {
    if I > 0 {
      QPreBound(w, a, I - 1);
      TailBound(w, a, I - 1, |w|);
    }
  }

  /** No vertex set has a larger objective than the sum of all |w[i][j]|;
      this bounds how often the hill climber can improve by more than 1e-5. */
  lemma QuadBound(w: Matrix, a: seq<real>)
    requires Square(w) && |a| == |w| && ZeroOne(a)
    ensures Quad(w, a) <= QAbs(w, |w|)
  {
    QPreBound(w, a, |w|);
  }
}
