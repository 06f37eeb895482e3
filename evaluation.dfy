/** Direct evaluation of a vertex set: the double loop over the pairs of
    members with which each construction ends and with which the final
    result is re-checked. */
module Evaluation {
  import opened Weights
  import opened Solutions

  /** The objective of the set x, summed pair by pair. */
  method SetValue(w: Matrix, x: seq<int>) returns (v: real)
    requires Square(w) && |x| == |w|
    ensures v == PairSum(w, x)
  {
    ghost var a := Ind(x);
    var n := |x|;
    v := 0.0;
    if n == 0 {
      return;
    }
    var i := 0;
    while i < n - 1
      invariant 0 <= i <= n - 1
      invariant v == QPre(w, a, i)
    {
      if x[i] == 1 {
        var j := i + 1;
        while j < n
          invariant i + 1 <= j <= n
          invariant v == QPre(w, a, i) + TailTo(w, a, i, j)
        {
          if x[j] == 1 {
            v := v + w[i][j];
          }
          j := j + 1;
        }
        QPreRow(w, a, i);
      }
      i := i + 1;
    }
    assert TailTo(w, a, n - 1, n) == 0.0;
  }

  /** The size and the objective of the set x, as the final re-check
      computes them in one pass. */
  method SetSizeAndValue(w: Matrix, x: seq<int>) returns (size: nat, v: real)
    requires Square(w) && |x| == |w|
    ensures size == Count(x) && v == PairSum(w, x)
  {
    ghost var a := Ind(x);
    var n := |x|;
    size, v := 0, 0.0;
    var i := 0;
    while i < n
      invariant 0 <= i <= n
      invariant size == Count(x[..i]) && v == QPre(w, a, i)
    {
      assert x[..i + 1][..i] == x[..i];
      if x[i] == 1 {
        size := size + 1;
        var j := i + 1;
        while j < n
          invariant i + 1 <= j <= n
          invariant v == QPre(w, a, i) + TailTo(w, a, i, j)
        {
          if x[j] == 1 {
            v := v + w[i][j];
          }
          j := j + 1;
        }
        QPreRow(w, a, i);
      }
      i := i + 1;
    }
    assert x[..n] == x;
  }
}
