/** The per-vertex record array of the search engine and the objective it
    tracks.  Vertex i of the instance is record i (the engine itself counts
    records from 1); a vertex is in the current set S when its `sol` is 1. */
module Solutions {
  import opened Weights

  /** Tolerance used by every improvement test of the engine. */
  const Eps: real := 0.00001

  /** The starting value of the best improvement of a scan. */
  const NegLarge: real := -1000000.0

  /** One record per vertex.  `sol`/`bestSol`: membership in the current and
      in the best set; `val`: touched by the current perturbation; `t`: tabu
      countdown of the vertex; `cl`: gain of the vertex (sum of its weights to
      the members of S); `cand1`, `cand2`, `d`: a slot of the perturbation's
      candidate list; `s1`, `sf`: partial gains of the greedy construction. */
  datatype Solution = Solution(sol: int, bestSol: int, val: int, t: int,
                               cand1: int, cand2: int,
                               cl: real, d: real, s1: real, sf: real)

  /** The membership vector of the current set. */
  function Sols(ps: seq<Solution>): (x: seq<int>)
    ensures |x| == |ps| && forall i :: 0 <= i < |ps| ==> x[i] == ps[i].sol
  {
    seq(|ps|, i requires 0 <= i < |ps| => ps[i].sol)
  }

  /** The membership vector of the best set found so far. */
  function BestSols(ps: seq<Solution>): (x: seq<int>)
    ensures |x| == |ps| && forall i :: 0 <= i < |ps| ==> x[i] == ps[i].bestSol
  {
    seq(|ps|, i requires 0 <= i < |ps| => ps[i].bestSol)
  }

  predicate Binary(x: seq<int>)
  {
    forall i :: 0 <= i < |x| ==> x[i] == 0 || x[i] == 1
  }

  function Indicator(b: int): real
  {
    if b == 1 then 1.0 else 0.0
  }

  /** The 0/1 coefficient vector of a membership vector. */
  function Ind(x: seq<int>): (a: seq<real>)
    ensures |a| == |x| && forall i :: 0 <= i < |x| ==> a[i] == Indicator(x[i])
  {
    seq(|x|, i requires 0 <= i < |x| => Indicator(x[i]))
  }

  /** The objective: the sum of w[i][j] over the pairs i < j inside S. */
  function PairSum(w: Matrix, x: seq<int>): real
    requires Square(w) && |x| == |w|
  {
    Quad(w, Ind(x))
  }

  /** The gain of vertex j: the sum of w[i][j] over the members i != j of S. */
  function Gain(w: Matrix, x: seq<int>, j: nat): real
    requires Square(w) && |x| == |w| && j < |w|
  {
    Lin(w, Ind(x), j)
  }

  /** The number of entries of x equal to v. */
  function Tally(x: seq<int>, v: int): nat
    decreases |x|
  {
    if |x| == 0 then 0 else Tally(x[..|x| - 1], v) + (if x[|x| - 1] == v then 1 else 0)
  }

  /** The size of S. */
  function Count(x: seq<int>): nat
  {
    Tally(x, 1)
  }

  /** The records with membership and gain blanked out: what a move leaves
      alone. */
  function Others(ps: seq<Solution>): (r: seq<Solution>)
    ensures |r| == |ps| && forall i :: 0 <= i < |ps| ==> r[i] == ps[i].(sol := 0, cl := 0.0)
  {
    seq(|ps|, i requires 0 <= i < |ps| => ps[i].(sol := 0, cl := 0.0))
  }

  /** Records that differ only in their tabu times have the same current
      set, best set and gains. */
  lemma TimesOnly(a: seq<Solution>, b: seq<Solution>)
    requires |a| == |b| && forall i :: 0 <= i < |a| ==> b[i] == a[i].(t := b[i].t)
    ensures Sols(b) == Sols(a) && BestSols(b) == BestSols(a)
    ensures forall i :: 0 <= i < |a| ==> b[i].cl == a[i].cl
  {
    SolsOf(b, Sols(a));
    assert BestSols(b) == BestSols(a);
  }

  /** Records that agree outside `sol` and `cl` have the same best set. */
  lemma OthersBest(a: seq<Solution>, b: seq<Solution>)
    requires Others(a) == Others(b)
    ensures BestSols(a) == BestSols(b)
    ensures forall i :: 0 <= i < |a| ==> a[i].t == b[i].t && a[i].bestSol == b[i].bestSol
  {
    forall i | 0 <= i < |a|
      ensures a[i].t == b[i].t && a[i].bestSol == b[i].bestSol
    {
      assert Others(a)[i] == Others(b)[i];
    }
  }

  /** Every record's `cl` is the exact gain of its vertex. */
  predicate GainsExact(w: Matrix, ps: seq<Solution>)
    requires Square(w)
  {
    |ps| == |w| && forall j {:trigger Gain(w, Sols(ps), j)} :: 0 <= j < |ps| ==> ps[j].cl == Gain(w, Sols(ps), j)
  }

  /** Records that agree on the vertex and on its gain keep exact gains. */
  lemma GainsKept(w: Matrix, a: seq<Solution>, b: seq<Solution>)
    requires Square(w) && |a| == |b| == |w| && Sols(a) == Sols(b) && GainsExact(w, b)
    requires forall i :: 0 <= i < |a| ==> a[i].cl == b[i].cl
    ensures GainsExact(w, a)
  {
    forall j | 0 <= j < |a|
      ensures a[j].cl == Gain(w, Sols(a), j)
    {
      assert b[j].cl == Gain(w, Sols(b), j);
    }
  }

  // ---------------------------------------------------------------------
  // Facts about one membership change

  lemma IndUpdate(x: seq<int>, k: nat, v: int)
    requires k < |x|
    ensures Ind(x[k := v]) == Ind(x)[k := Indicator(v)]
  {
  }

  lemma SolsOf(ps: seq<Solution>, x: seq<int>)
    requires |ps| == |x| && forall i :: 0 <= i < |x| ==> ps[i].sol == x[i]
    ensures Sols(ps) == x
  {
  }

  /** Adding a vertex raises the objective by its gain, removing one lowers
      it by its gain. */
  lemma {:induction false} FlipValue(w: Matrix, x: seq<int>, k: nat)
    requires Square(w) && |x| == |w| && k < |w| && (x[k] == 0 || x[k] == 1)
    ensures PairSum(w, x[k := 1 - x[k]])
         == PairSum(w, x) + (if x[k] == 0 then Gain(w, x, k) else -Gain(w, x, k))
  {
    IndUpdate(x, k, 1 - x[k]);
    QuadUpdate(w, Ind(x), k, Indicator(1 - x[k]));
  }

  /** The gain of every other vertex j moves by w[j][k] when k joins S and by
      -w[j][k] when k leaves; the gain of k itself does not move. */
  lemma {:induction false} FlipGain(w: Matrix, x: seq<int>, k: nat, j: nat)
    requires Symmetric(w) && |x| == |w| && k < |w| && j < |w| && (x[k] == 0 || x[k] == 1)
    ensures Gain(w, x[k := 1 - x[k]], j)
         == Gain(w, x, j) + (if j == k then 0.0 else if x[k] == 0 then w[j][k] else -w[j][k])
  {
    IndUpdate(x, k, 1 - x[k]);
    LinUpdate(w, Ind(x), k, Indicator(1 - x[k]), j);
  }

  /** Exchanging a member k for a non-member m changes the objective by
      gain(m) - gain(k) - w[k][m]. */
  lemma {:induction false} SwapValue(w: Matrix, x: seq<int>, k: nat, m: nat)
    requires Symmetric(w) && |x| == |w| && k < |w| && m < |w| && x[k] == 1 && x[m] == 0
    ensures PairSum(w, x[k := 0][m := 1])
         == PairSum(w, x) + Gain(w, x, m) - Gain(w, x, k) - w[k][m]
  {
    var y := x[k := 0];
    FlipValue(w, x, k);
    FlipGain(w, x, k, m);
    assert y[m] == 0 && y[m := 1 - y[m]] == x[k := 0][m := 1];
    FlipValue(w, y, m);
  }

  lemma {:induction false} SwapGain(w: Matrix, x: seq<int>, k: nat, m: nat, j: nat)
    requires Symmetric(w) && |x| == |w| && k < |w| && m < |w| && j < |w|
    requires x[k] == 1 && x[m] == 0
    ensures Gain(w, x[k := 0][m := 1], j)
         == Gain(w, x, j) - (if j != k then w[j][k] else 0.0) + (if j != m then w[j][m] else 0.0)
  {
    var y := x[k := 0];
    FlipGain(w, x, k, j);
    assert y[m] == 0 && y[m := 1 - y[m]] == x[k := 0][m := 1];
    FlipGain(w, y, m, j);
  }

  /** Changing entry k from x[k] to u moves the tally of v accordingly. */
  lemma {:induction false} TallyUpdate(x: seq<int>, k: nat, u: int, v: int)
    requires k < |x|
    ensures Tally(x[k := u], v) == Tally(x, v) - (if x[k] == v then 1 else 0) + (if u == v then 1 else 0)
    decreases |x|
  {
    var n := |x| - 1;
    assert x[k := u][..n] == if k < n then x[..n][k := u] else x[..n];
    if k < n {
      TallyUpdate(x[..n], k, u, v);
    }
  }

  lemma {:induction false} TallyBound(x: seq<int>, v: int)
    ensures Tally(x, v) <= |x|
    decreases |x|
  {
    if |x| > 0 {
      TallyBound(x[..|x| - 1], v);
    }
  }

  /** The tally of v is zero exactly when v does not occur. */
  lemma {:induction false} TallyZero(x: seq<int>, v: int)
    ensures Tally(x, v) == 0 <==> forall i :: 0 <= i < |x| ==> x[i] != v
    decreases |x|
  {
    if |x| > 0 {
      var y := x[..|x| - 1];
      TallyZero(y, v);
      assert forall i :: 0 <= i < |y| ==> y[i] == x[i];
    }
  }

  /** In a vector of -1/0/1 entries the three tallies add up to its length. */
  lemma {:induction false} TallySplit(x: seq<int>)
    requires forall i :: 0 <= i < |x| ==> -1 <= x[i] <= 1
    ensures Tally(x, -1) + Tally(x, 0) + Tally(x, 1) == |x|
    decreases |x|
  {
    if |x| > 0 {
      var y := x[..|x| - 1];
      assert forall i :: 0 <= i < |y| ==> y[i] == x[i];
      TallySplit(y);
    }
  }

  /** No set is worth more than the sum of all |w[i][j]|. */
  lemma PairSumBound(w: Matrix, x: seq<int>)
    requires Square(w) && |x| == |w|
    ensures PairSum(w, x) <= QAbs(w, |w|)
  {
    QuadBound(w, Ind(x));
  }
}
