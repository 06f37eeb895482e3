/** The iterated tabu search as a whole: the parameters derived from the
    instance, the weight matrix filled from the edge list, the restart loop
    (a start, a tabu search, then perturbation and tabu search until the
    clock runs out) and the final re-check of the best set. */
module Its {
  import opened Weights
  import opened Solutions
  import opened Rng
  import opened Construction
  import opened Steepest
  import opened TabuList
  import opened Tabu
  import opened Perturb
  import opened Evaluation

  const TabuCoef: int := 4
  const TabuTime1: int := 20
  const TabuTime2: int := 20
  const IterationsFixedBound: int := 10000
  const MinPerCount: int := 10
  const ListSize: int := 5
  /** Above this order the start is random instead of greedy. */
  const GreedyLimit: int := 200

  // ---------------------------------------------------------------------
  // Parameters

  /** The search parameters of an instance of order n. */
  datatype Params = Params(tabuTime1: int, itBound: int, perturbCount: int)

  /** T1 is TabuTime1 capped by n / TabuCoef, the iteration bound is the
      fixed bound raised to n * itersCoef, and the perturbation length is a
      tenth of n, rounded down. */
  function DeriveParameters(n: nat, itersCoef: int): (p: Params)
    ensures p.tabuTime1 <= TabuTime1 && p.tabuTime1 <= n / TabuCoef
    ensures p.tabuTime1 == TabuTime1 || p.tabuTime1 == n / TabuCoef
    ensures p.itBound >= IterationsFixedBound && p.itBound >= n * itersCoef
    ensures p.itBound == IterationsFixedBound || p.itBound == n * itersCoef
    ensures 10 * p.perturbCount <= n < 10 * (p.perturbCount + 1)
  {
    var t1 := if n / TabuCoef < TabuTime1 then n / TabuCoef else TabuTime1;
    var lo := n * itersCoef;
    Params(t1, if IterationsFixedBound < lo then lo else IterationsFixedBound, n / 10)
  }

  // ---------------------------------------------------------------------
  // The weight matrix

  /** An input line: the weight w of the (0-based) pair i, j. */
  datatype Edge = Edge(i: int, j: int, w: real)

  /** The weight the fill leaves in cell (p, q): that of the last edge
      joining p and q, in either orientation, or d when there is none. */
  function LastWeight(edges: seq<Edge>, p: int, q: int, d: real): real
    decreases |edges|
  {
    if |edges| == 0 then d
    else
      var e := edges[|edges| - 1];
      if (e.i == p && e.j == q) || (e.i == q && e.j == p) then e.w
      else LastWeight(edges[..|edges| - 1], p, q, d)
  }

  /** Both orientations of a pair end with the same weight. */
  lemma {:induction false} LastWeightSymmetric(edges: seq<Edge>, p: int, q: int, d: real)
    ensures LastWeight(edges, p, q, d) == LastWeight(edges, q, p, d)
    decreases |edges|
  {
    if |edges| > 0 {
      LastWeightSymmetric(edges[..|edges| - 1], p, q, d);
    }
  }

  /** A pair joined by exactly one edge gets that edge's weight. */
  lemma {:induction false} LastWeightOnce(edges: seq<Edge>, p: int, q: int, d: real, k: int)
    requires 0 <= k < |edges| && ((edges[k].i == p && edges[k].j == q) || (edges[k].i == q && edges[k].j == p))
    requires forall l :: 0 <= l < |edges| && l != k ==>
      !((edges[l].i == p && edges[l].j == q) || (edges[l].i == q && edges[l].j == p))
    ensures LastWeight(edges, p, q, d) == edges[k].w
    decreases |edges|
  {
    if k < |edges| - 1 {
      LastWeightOnce(edges[..|edges| - 1], p, q, d, k);
    }
  }

  /** Reads the edges into the matrix, each weight into both cells. */
  method SymmetricFill(pw: array2<real>, edges: seq<Edge>)
    requires pw.Length0 == pw.Length1
    requires forall e :: e in edges ==> 0 <= e.i < pw.Length0 && 0 <= e.j < pw.Length0
    modifies pw
    ensures forall p, q :: 0 <= p < pw.Length0 && 0 <= q < pw.Length1 ==>
      pw[p, q] == LastWeight(edges, p, q, old(pw[p, q]))
  {
    var k := 0;
    while k < |edges|
      invariant 0 <= k <= |edges|
      invariant forall p, q :: 0 <= p < pw.Length0 && 0 <= q < pw.Length1 ==>
        pw[p, q] == LastWeight(edges[..k], p, q, old(pw[p, q]))
    {
      var e := edges[k];
      assert e in edges;
      assert edges[..k + 1][..k] == edges[..k];
      pw[e.i, e.j] := e.w;
      pw[e.j, e.i] := e.w;
      k := k + 1;
    }
    assert edges[..k] == edges;
  }

  /** The matrix as a value. */
  function ToMatrix(pw: array2<real>): (w: Matrix)
    requires pw.Length0 == pw.Length1
    reads pw
    ensures |w| == pw.Length0 && Square(w)
    ensures forall p, q :: 0 <= p < |w| && 0 <= q < |w| ==> w[p][q] == pw[p, q]
  {
    seq(pw.Length0, p requires 0 <= p < pw.Length0 reads pw =>
      seq(pw.Length1, q requires 0 <= q < pw.Length1 reads pw => pw[p, q]))
  }

  /** Filled from zero, the matrix is symmetric whatever the edges. */
  lemma FillSymmetric(pw: array2<real>, edges: seq<Edge>)
    requires pw.Length0 == pw.Length1
    requires forall p, q :: 0 <= p < pw.Length0 && 0 <= q < pw.Length1 ==> pw[p, q] == LastWeight(edges, p, q, 0.0)
    ensures Symmetric(ToMatrix(pw))
  {
    var w := ToMatrix(pw);
    forall p, q | 0 <= p < |w| && 0 <= q < |w|
      ensures w[p][q] == w[q][p]
    {
      LastWeightSymmetric(edges, p, q, 0.0);
    }
  }

  // ---------------------------------------------------------------------
  // The restart loop

  /** The length of one perturbation: count itself when it is at most
      minCount, otherwise a random number in [minCount, count]. */
  method PerturbLength(count: int, minCount: int, rng: Generator) returns (i: int)
    modifies rng
    ensures count <= minCount ==> i == count && rng.seed == old(rng.seed)
    ensures count > minCount ==> minCount <= i <= count && rng.seed == Next(old(rng.seed))
    ensures count > minCount ==> i == minCount + (rng.seed * (count - minCount + 1)) / (Coef + 1)
  {
    if count <= minCount {
      i := count;
    } else {
      var r := rng.Pick(count - minCount + 1);
      i := r + minCount;
    }
  }

  /** The start of the engine: a random set above GreedyLimit vertices, a
      greedy one otherwise, recorded as the best set. */
  method Start(ps: array<Solution>, w: Matrix, b1: nat, b2: nat, rng: Generator)
    returns (clSize: nat, solValue: real)
    requires Symmetric(w) && ps.Length == |w|
    requires b1 <= b2 <= |w| && (|w| > GreedyLimit || (0 < b2 && b1 < |w|))
    modifies ps, rng
    ensures Binary(Sols(ps[..])) && clSize == Count(Sols(ps[..])) && b1 <= clSize <= b2
    ensures solValue == PairSum(w, Sols(ps[..])) && BestSols(ps[..]) == Sols(ps[..])
  {
    if |w| > GreedyLimit {
      clSize, solValue := RandomStart(ps, w, b1, b2, rng);
    } else {
      var discrepancy;
      clSize, solValue, discrepancy := SteepestAscent(ps, w, b1, b2, rng);
    }
    SaveBest(ps);
  }

  /** One restart: a perturbation of a length drawn by rngLength, with
      moves drawn by rngMove, then a tabu search.  A perturbation that runs
      out of moves ends early and the tabu search follows all the same.  The
      search state is kept, and the budget shrinks unless the run stops. */
  method Restart(ps: array<Solution>, w: Matrix, tabu: array2<int>, v1: array<int>, v2: array<int>,
                 b1: nat, b2: nat, tabuTime1: int, tabuTime2: int, count: int,
                 minPerturbCount: int, listSize: int, itBound: int, rngMove: Generator, rngLength: Generator,
                 solValue: real, clSize: int, bestValue: real, budget: nat)
    returns (solValue': real, clSize': int, bestValue': real, budget': nat, stopCond: bool, stuck: bool)
    requires SearchState(w, ps[..], clSize, b1, b2, solValue, bestValue)
    requires tabu.Length0 == |w| && tabu.Length1 == |w|
    requires 1 <= tabuTime2 <= v1.Length && tabuTime2 <= v2.Length && 0 <= tabuTime1 && v1 != v2
    requires 1 <= listSize && 1 <= itBound
    modifies ps, tabu, v1, v2, rngMove, rngLength
    ensures SearchState(w, ps[..], clSize', b1, b2, solValue', bestValue')
    ensures (bestValue' == bestValue && BestSols(ps[..]) == BestSols(old(ps[..]))) || bestValue' > bestValue + Eps
    ensures !stuck && !stopCond ==> budget' < budget
  {
    var i := PerturbLength(count, minPerturbCount, rngLength);
    var early;
    ghost var before := ps[..];
    solValue', clSize', early := GetSolution(ps, w, b1, b2, i, listSize, solValue, clSize, rngMove);
    assert BestSols(ps[..]) == BestSols(before);
    solValue', clSize', bestValue', budget', stopCond, stuck :=
      TabuSearch(ps, w, tabu, v1, v2, b1, b2, tabuTime1, tabuTime2, itBound, solValue', clSize', bestValue, budget);
  }

  /** The engine: a start, a first tabu search, then restarts until the
      clock (budget) runs out.  The perturbation moves and lengths are drawn
      by generators seeded with twice and three times the seed.  The result
      is the value of the best set, which is 0/1, within the bounds and
      worth exactly that value and never below the value of the start.
      The run stops
      early (stuck) only where the program indexes record -1 in the tabu
      search. */
  method ItsInternal(ps: array<Solution>, w: Matrix, tabu: array2<int>, v1: array<int>, v2: array<int>,
                     b1: nat, b2: nat, tabuTime1: int, tabuTime2: int, perturbCount: int,
                     minPerturbCount: int, listSize: int, itBound: int, rng: Generator, budget: nat)
    returns (bestValue: real, starts: nat, stuck: bool, ghost startSet: seq<int>, ghost startValue: real)
    requires Symmetric(w) && ps.Length == |w| && tabu.Length0 == |w| && tabu.Length1 == |w|
    requires b1 <= b2 <= |w| && (|w| > GreedyLimit || (0 < b2 && b1 < |w|))
    requires 1 <= tabuTime2 <= v1.Length && tabuTime2 <= v2.Length && 0 <= tabuTime1 && v1 != v2
    requires 1 <= listSize && 1 <= itBound
    modifies ps, tabu, v1, v2, rng
    ensures Binary(BestSols(ps[..])) && b1 <= Count(BestSols(ps[..])) <= b2
    ensures bestValue == PairSum(w, BestSols(ps[..]))
    ensures starts >= 1
    ensures Binary(startSet) && |startSet| == |w| && b1 <= Count(startSet) <= b2 && startValue == PairSum(w, startSet)
    ensures bestValue >= startValue
  {
    var seed := rng.seed;
    var rngMove := new Generator(2 * seed);
    var rngLength := new Generator(3 * seed);
    var clSize, solValue := Start(ps, w, b1, b2, rng);
    startSet, startValue := Sols(ps[..]), solValue;
    starts := 1;
    var budget', stopCond;
    solValue, clSize, bestValue, budget', stopCond, stuck :=
      TabuSearch(ps, w, tabu, v1, v2, b1, b2, tabuTime1, tabuTime2, itBound, solValue, clSize, solValue, budget);
    var count := if perturbCount > b1 then b1 else perturbCount;
    while !stopCond && !stuck
      invariant SearchState(w, ps[..], clSize, b1, b2, solValue, bestValue) && bestValue >= startValue
      invariant starts >= 1
      decreases if stuck || stopCond then 0 else budget' + 1
    {
      starts := starts + 1;
      solValue, clSize, bestValue, budget', stopCond, stuck :=
        Restart(ps, w, tabu, v1, v2, b1, b2, tabuTime1, tabuTime2, count, minPerturbCount, listSize, itBound,
                rngMove, rngLength, solValue, clSize, bestValue, budget');
    }
  }

  // ---------------------------------------------------------------------
  // The run

  /** The re-check of the result: the size and the value of the best set,
      computed directly, and whether the value differs from the engine's
      by more than Eps. */
  method FinalRecheck(w: Matrix, ps: array<Solution>, value: real)
    returns (clSize: nat, valueFromSol: real, discrepancy: bool)
    requires Square(w) && ps.Length == |w|
    ensures clSize == Count(BestSols(ps[..])) && valueFromSol == PairSum(w, BestSols(ps[..]))
    ensures discrepancy <==> (value < valueFromSol - Eps || value > valueFromSol + Eps)
  {
    clSize, valueFromSol := SetSizeAndValue(w, BestSols(ps[..]));
    discrepancy := value < valueFromSol - Eps || value > valueFromSol + Eps;
  }

  /** A whole run on an instance of order n given as its edge list: the
      parameters are derived, the zeroed matrix is filled, the engine runs,
      and its result is re-checked.  The re-check never reports a
      discrepancy, and the best set lies within the bounds. */
  method Run(n: nat, edges: seq<Edge>, b1: nat, b2: nat, seed: int, itersCoef: int, budget: nat)
    returns (value: real, clSize: nat, valueFromSol: real, discrepancy: bool, best: seq<int>, stuck: bool)
    requires forall e :: e in edges ==> 0 <= e.i < n && 0 <= e.j < n
    requires b1 <= b2 <= n && (n > GreedyLimit || (0 < b2 && b1 < n))
    ensures !discrepancy && value == valueFromSol
    ensures |best| == n && Binary(best) && clSize == Count(best) && b1 <= clSize <= b2
  {
    var pw := new real[n, n]((p, q) => 0.0);
    var tabu := new int[n, n]((p, q) => 0);
    var v1 := new int[TabuTime2 + 1](p => 0);
    var v2 := new int[TabuTime2 + 1](p => 0);
    var ps := new Solution[n](p => Solution(0, 0, 0, 0, 0, 0, 0.0, 0.0, 0.0, 0.0));
    var params := DeriveParameters(n, itersCoef);
    SymmetricFill(pw, edges);
    FillSymmetric(pw, edges);
    var w := ToMatrix(pw);
    var rng := new Generator(seed);
    var starts;
    ghost var startSet, startValue;
    value, starts, stuck, startSet, startValue := ItsInternal(ps, w, tabu, v1, v2, b1, b2, params.tabuTime1, TabuTime2,
                                        params.perturbCount, MinPerCount, ListSize, params.itBound, rng, budget);
    clSize, valueFromSol, discrepancy := FinalRecheck(w, ps, value);
    best := BestSols(ps[..]);
  }

  // ---------------------------------------------------------------------
  // Elapsed time

  /** Splits elapsed seconds into hours, minutes and seconds in slots 1 to
      3 of tv, which sum back to them. */
  method TakeTime(tv: array<int>, secs: nat) returns (elapsed: nat)
    requires tv.Length >= 5
    modifies tv
    ensures elapsed == secs
    ensures 3600 * tv[1] + 60 * tv[2] + tv[3] == secs
    ensures 0 <= tv[1] && 0 <= tv[2] < 60 && 0 <= tv[3] < 60
  {
    var i := 1;
    while i <= 4
      invariant 1 <= i <= 5
      invariant forall j :: 1 <= j < i ==> tv[j] == 0
    {
      tv[i] := 0;
      i := i + 1;
    }
    var longsecs := secs;
    var hours := longsecs / 3600;
    if hours > 0 {
      tv[1] := hours;
      longsecs := longsecs - hours * 3600;
    }
    var mins := longsecs / 60;
    if mins > 0 {
      tv[2] := mins;
      longsecs := longsecs - mins * 60;
    }
    tv[3] := longsecs;
    elapsed := secs;
  }
}
