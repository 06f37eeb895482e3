/** The tabu search.  Every iteration takes the best admissible move: an
    addition (while |S| < b2), a removal (while |S| > b1) or, when |S| sits
    at a bound, an exchange of a member for a non-member.  A flipped vertex
    is tabu for T1 iterations and an exchanged pair for T2 iterations.  The
    first move found whose value beats the best value by more than the
    tolerance is taken at once (the scans stop there) and is followed by a
    local search and a new best set. */
module Tabu {
  import opened Weights
  import opened Solutions
  import opened Moves
  import opened Local
  import opened TabuList

  // ---------------------------------------------------------------------
  // Rebuilding the gains

  /** Pair (i, j) of the row-major scan: each end whose other end is a
      member gains w[i][j]. */
  function ScanPair(s: seq<Solution>, w: Matrix, i: nat, j: nat): (r: seq<Solution>)
    requires Square(w) && |s| == |w| && i < j < |w|
    ensures |r| == |s| && forall k :: 0 <= k < |r| ==> r[k].sol == s[k].sol
  {
    var s1 := if s[i].sol == 1 then s[j := s[j].(cl := s[j].cl + w[i][j])] else s;
    if s1[j].sol == 1 then s1[i := s1[i].(cl := s1[i].cl + w[i][j])] else s1
  }

  /** The records after the pairs before (i, j) of the row-major scan,
      (0, 1), (0, 2), ..., (0, n - 1), (1, 2), ..., have been processed. */
  ghost function Scanned(orig: seq<Solution>, w: Matrix, i: nat, j: nat): (r: seq<Solution>)
    requires Square(w) && |orig| == |w| && i < j <= |w|
    ensures |r| == |orig| && forall k :: 0 <= k < |r| ==> r[k].sol == orig[k].sol
    decreases i, j
  {
    if j == i + 1 then
      if i == 0 then orig else Scanned(orig, w, i - 1, |w|)
    else
      ScanPair(Scanned(orig, w, i, j - 1), w, i, j - 1)
  }

  /** Processing pair (i, j) moves the scan on to (i, j + 1). */
  lemma ScannedNext(orig: seq<Solution>, w: Matrix, i: nat, j: nat)
    requires Square(w) && |orig| == |w| && i < j < |w|
    ensures Scanned(orig, w, i, j + 1) == ScanPair(Scanned(orig, w, i, j), w, i, j)
  {
  }

  /** One pair of the scan adds w[i][j] times the membership of the other
      end to the gains of i and j, and changes nothing else. */
  lemma ScanPairAt(s: seq<Solution>, w: Matrix, i: nat, j: nat, m: nat)
    requires Square(w) && |s| == |w| && i < j < |w| && m < |w|
    ensures ScanPair(s, w, i, j)[m]
         == s[m].(cl := s[m].cl + (if m == i then w[i][j] * Indicator(s[j].sol) else 0.0)
                                + (if m == j then w[i][j] * Indicator(s[i].sol) else 0.0))
  {
  }

  /** What the scan has made of record m after the pairs before (i, j):
      its gain has grown by the partial sum PairAcc of the membership
      vector, and nothing else has changed. */
  ghost function Expected(orig: seq<Solution>, w: Matrix, i: nat, j: nat, m: nat): Solution
    requires Square(w) && |orig| == |w| && i < j <= |w| && m < |w|
  {
    orig[m].(cl := orig[m].cl + PairAcc(w, Ind(Sols(orig)), m, i, j))
  }

  /** After the pairs before (i, j) every record is what Expected says. */
  lemma {:induction false} ScannedGain(orig: seq<Solution>, w: Matrix, i: nat, j: nat, m: nat)
    requires Square(w) && |orig| == |w| && i < j <= |w| && m < |w|
    ensures Scanned(orig, w, i, j)[m] == Expected(orig, w, i, j, m)
    decreases i, j
  {
    if j == i + 1 {
      if i == 0 {
        ScannedGainFirst(orig, w, i, j, m);
      } else {
        ScannedGain(orig, w, i - 1, |w|, m);
        ScannedGainRow(orig, w, i, j, m);
      }
    } else {
      ScannedGain(orig, w, i, j - 1, m);
      ScannedGainStep(orig, w, i, j, m);
    }
  }

  /** The base case of ScannedGain: nothing is scanned yet. */
  lemma ScannedGainFirst(orig: seq<Solution>, w: Matrix, i: nat, j: nat, m: nat)
    requires Square(w) && |orig| == |w| && i == 0 && j == 1 <= |w| && m < |w|
    ensures Scanned(orig, w, i, j)[m] == Expected(orig, w, i, j, m)
  {
    PairAccStart(w, Ind(Sols(orig)), m);
    assert Scanned(orig, w, i, j) == orig;
  }

  /** The row step of ScannedGain: the end of row i - 1 is the start of
      row i. */
  lemma ScannedGainRow(orig: seq<Solution>, w: Matrix, i: nat, j: nat, m: nat)
    requires Square(w) && |orig| == |w| && 0 < i && j == i + 1 <= |w| && m < |w|
    requires Scanned(orig, w, i - 1, |w|)[m] == Expected(orig, w, i - 1, |w|, m)
    ensures Scanned(orig, w, i, j)[m] == Expected(orig, w, i, j, m)
  {
    PairAccRow(w, Ind(Sols(orig)), m, i - 1);
    assert Scanned(orig, w, i, j) == Scanned(orig, w, i - 1, |w|);
  }

  /** The pair step of ScannedGain: pair (i, j - 1) adds exactly what
      PairAcc adds. */
  lemma ScannedGainStep(orig: seq<Solution>, w: Matrix, i: nat, j: nat, m: nat)
    requires Square(w) && |orig| == |w| && i + 1 < j <= |w| && m < |w|
    requires Scanned(orig, w, i, j - 1)[m] == Expected(orig, w, i, j - 1, m)
    ensures Scanned(orig, w, i, j)[m] == Expected(orig, w, i, j, m)
  {
    var s := Scanned(orig, w, i, j - 1);
    assert Scanned(orig, w, i, j) == ScanPair(s, w, i, j - 1);
    ScanPairAt(s, w, i, j - 1, m);
    ExpectedStep(orig, w, i, j - 1, m);
    assert s[i].sol == orig[i].sol && s[j - 1].sol == orig[j - 1].sol;
  }

  /** Pair (i, j) adds to what Expected says of record m the same as one
      pair of the scan does. */
  lemma ExpectedStep(orig: seq<Solution>, w: Matrix, i: nat, j: nat, m: nat)
    requires Square(w) && |orig| == |w| && i < j < |w| && m < |w|
    ensures Expected(orig, w, i, j + 1, m)
         == Expected(orig, w, i, j, m).(cl := Expected(orig, w, i, j, m).cl
              + (if m == i then w[i][j] * Indicator(orig[j].sol) else 0.0)
              + (if m == j then w[i][j] * Indicator(orig[i].sol) else 0.0))
  {
    PairAccStep(w, Ind(Sols(orig)), m, i, j);
  }

  /** The tabu cells of the pairs before (i, j) of the row-major scan are
      cleared, in both orientations. */
  ghost predicate Cleared(tabu: array2<int>, i: nat, j: nat)
    reads tabu
  {
    tabu.Length0 == tabu.Length1 &&
    forall p, q :: 0 <= p < tabu.Length0 && p < q < tabu.Length1 && (p < i || (p == i && q < j)) ==> tabu[p, q] == 0 && tabu[q, p] == 0
  }

  /** Pair (i, j) of the scan: both tabu cells cleared, the gains of i and
      j updated. */
  method PairStep(ps: array<Solution>, w: Matrix, tabu: array2<int>, i: nat, j: nat)
    requires Square(w) && ps.Length == |w| && i < j < |w|
    requires tabu.Length0 == |w| && tabu.Length1 == |w|
    requires Cleared(tabu, i, j)
    modifies ps, tabu
    ensures ps[..] == ScanPair(old(ps[..]), w, i, j)
    ensures Cleared(tabu, i, j + 1)
  {
    tabu[i, j] := 0;
    tabu[j, i] := 0;
    if ps[i].sol == 1 {
      ps[j] := ps[j].(cl := ps[j].cl + w[i][j]);
    }
    if ps[j].sol == 1 {
      ps[i] := ps[i].(cl := ps[i].cl + w[i][j]);
    }
  }

  /** Row i of the pair scan: the pairs (i, j), j > i, have both tabu
      cells cleared and their weights added to the gains. */
  method ScanRow(ps: array<Solution>, w: Matrix, tabu: array2<int>, i: nat, ghost orig: seq<Solution>)
    requires Square(w) && ps.Length == |w| && |orig| == |w| && i + 1 < |w|
    requires tabu.Length0 == |w| && tabu.Length1 == |w|
    requires ps[..] == Scanned(orig, w, i, i + 1)
    requires Cleared(tabu, i, i + 1)
    modifies ps, tabu
    ensures ps[..] == Scanned(orig, w, i + 1, i + 2)
    ensures Cleared(tabu, i + 1, i + 2)
  {
    var n := ps.Length;
    var j := i + 1;
    while j < n
      invariant i + 1 <= j <= n
      invariant ps[..] == Scanned(orig, w, i, j)
      invariant Cleared(tabu, i, j)
    {
      ScannedNext(orig, w, i, j);
      PairStep(ps, w, tabu, i, j);
      j := j + 1;
    }
  }

  /** Clear the vertex tabu times and the gains. */
  method ResetRecords(ps: array<Solution>)
    modifies ps
    ensures forall v :: 0 <= v < ps.Length ==> ps[v] == old(ps[v]).(t := 0, cl := 0.0)
  {
    var i := 0;
    while i < ps.Length
      invariant 0 <= i <= ps.Length
      invariant forall v :: 0 <= v < ps.Length ==> ps[v] == if v < i then old(ps[v]).(t := 0, cl := 0.0) else old(ps[v])
    {
      ps[i] := ps[i].(t := 0, cl := 0.0);
      i := i + 1;
    }
  }

  /** The scan over the pairs i < j, starting from cleared gains: every
      gain ends exact and every tabu cell off the diagonal cleared. */
  method GainScan(ps: array<Solution>, w: Matrix, tabu: array2<int>)
    requires Square(w) && ps.Length == |w| && tabu.Length0 == |w| && tabu.Length1 == |w|
    requires forall v :: 0 <= v < ps.Length ==> ps[v].cl == 0.0
    modifies ps, tabu
    ensures forall v :: 0 <= v < ps.Length ==> ps[v] == old(ps[v]).(cl := Gain(w, Sols(old(ps[..])), v))
    ensures forall p, q :: 0 <= p < |w| && 0 <= q < |w| && p < q ==> tabu[p, q] == 0 && tabu[q, p] == 0
  {
    var n := ps.Length;
    ghost var orig := ps[..];
    if n == 0 {
      return;
    }
    var i := 0;
    while i < n - 1
      invariant 0 <= i <= n - 1
      invariant ps[..] == Scanned(orig, w, i, i + 1)
      invariant Cleared(tabu, i, i + 1)
    {
      ScanRow(ps, w, tabu, i, orig);
      i := i + 1;
    }
    forall v | 0 <= v < n
      ensures ps[v] == orig[v].(cl := Gain(w, Sols(orig), v))
    {
      ScannedGain(orig, w, n - 1, n, v);
      PairAccEnd(w, Ind(Sols(orig)), v);
    }
  }

  /** The start of every tabu search: no vertex is tabu, every gain is
      recomputed from the membership, and no pair is tabu. */
  method InitGains(ps: array<Solution>, w: Matrix, tabu: array2<int>)
    requires Square(w) && ps.Length == |w| && tabu.Length0 == |w| && tabu.Length1 == |w|
    modifies ps, tabu
    ensures forall v :: 0 <= v < ps.Length ==> ps[v] == old(ps[v]).(t := 0, cl := Gain(w, Sols(old(ps[..])), v))
    ensures Sols(ps[..]) == Sols(old(ps[..])) && GainsExact(w, ps[..])
    ensures forall p, q :: 0 <= p < |w| && 0 <= q < |w| && p != q ==> tabu[p, q] == 0
  {
    ResetRecords(ps);
    assert Sols(ps[..]) == Sols(old(ps[..]));
    GainScan(ps, w, tabu);
    assert Sols(ps[..]) == Sols(old(ps[..]));
  }

  // ---------------------------------------------------------------------
  // Choosing the move

  /** v beats the best value found so far by more than the tolerance. */
  predicate Aspires(v: real, bestValue: real)
  {
    v > bestValue + Eps
  }

  /** Vertex k with membership s is a candidate of the flip scan for s: it
      is not tabu. */
  predicate FlipOk(ps: seq<Solution>, s: int, k: int)
  {
    0 <= k < |ps| && ps[k].t <= 0 && ps[k].sol == s
  }

  /** No candidate of the flip scan below i aspires. */
  predicate FlipCalm(ps: seq<Solution>, s: int, solValue: real, bestValue: real, i: int)
  {
    forall k :: 0 <= k < i && FlipOk(ps, s, k) ==> !Aspires(solValue + FlipGainOf(s, ps[k].cl), bestValue)
  }

  /** Every candidate of the flip scan below i gains at most best. */
  predicate FlipBelow(ps: seq<Solution>, s: int, best: real, i: int)
  {
    forall k :: 0 <= k < i && FlipOk(ps, s, k) ==> FlipGainOf(s, ps[k].cl) <= best
  }

  /** The flip scan for the vertices with membership s (0: additions, 1:
      removals).  The best move so far (ind0, best0) is replaced by a
      better candidate; the first candidate that aspires is taken at once.
      it counts the candidates looked at. */
  method FlipScan(ps: array<Solution>, s: int, solValue: real, bestValue: real, ind0: int, best0: real, it: int)
    returns (ind: int, asp: bool, best: real, it': int)
    requires s == 0 || s == 1
    requires Binary(Sols(ps[..]))
    ensures it' >= it && (ind != ind0 ==> it' > it)
    ensures asp ==> FlipOk(ps[..], s, ind) && best == FlipGainOf(s, ps[ind].cl) && Aspires(solValue + best, bestValue)
    ensures asp ==> FlipCalm(ps[..], s, solValue, bestValue, ind)
    ensures !asp ==> FlipCalm(ps[..], s, solValue, bestValue, ps.Length) && FlipBelow(ps[..], s, best, ps.Length)
    ensures !asp ==> best >= best0
    ensures !asp ==> (ind == ind0 && best == best0) || (FlipOk(ps[..], s, ind) && best == FlipGainOf(s, ps[ind].cl) && best > best0)
  {
    ind, asp, best, it' := ind0, false, best0, it;
    var k := 0;
    while k < ps.Length
      invariant 0 <= k <= ps.Length
      invariant best >= best0 && it' >= it && (ind != ind0 ==> it' > it)
      invariant FlipCalm(ps[..], s, solValue, bestValue, k) && FlipBelow(ps[..], s, best, k)
      invariant (ind == ind0 && best == best0) || (FlipOk(ps[..], s, ind) && best == FlipGainOf(s, ps[ind].cl) && best > best0)
    {
      if ps[k].t > 0 || ps[k].sol == 1 - s {
        k := k + 1;
        continue;
      }
      it' := it' + 1;
      var g := FlipGainOf(s, ps[k].cl);
      if solValue + g > bestValue + Eps {
        best, ind, asp := g, k, true;
        return;
      }
      if g > best {
        best, ind := g, k;
      }
      k := k + 1;
    }
  }

  /** Member k may be exchanged for non-member m: the pair is not tabu. */
  predicate SwapOk(ps: seq<Solution>, tabu: array2<int>, k: int, m: int)
    reads tabu
  {
    0 <= k < |ps| && 0 <= m < |ps| && tabu.Length0 == |ps| && tabu.Length1 == |ps| &&
    ps[k].sol == 1 && ps[m].sol == 0 && tabu[k, m] <= 0
  }

  /** No exchange of k for a candidate below i aspires. */
  predicate SwapCalm(w: Matrix, ps: seq<Solution>, tabu: array2<int>, solValue: real, bestValue: real, k: int, i: int)
    requires Square(w) && |ps| == |w|
    reads tabu
  {
    forall m :: 0 <= m < i && SwapOk(ps, tabu, k, m) ==> !Aspires(solValue + SwapGainOf(w, ps, k, m), bestValue)
  }

  /** No exchange of a member in [lo, hi) aspires. */
  predicate SwapsCalm(w: Matrix, ps: seq<Solution>, tabu: array2<int>, solValue: real, bestValue: real, lo: int, hi: int)
    requires Square(w) && |ps| == |w|
    reads tabu
  {
    forall k :: lo <= k < hi ==> SwapCalm(w, ps, tabu, solValue, bestValue, k, |ps|)
  }

  /** Every exchange of k for a candidate below i gains at most best. */
  predicate SwapBelow(w: Matrix, ps: seq<Solution>, tabu: array2<int>, best: real, k: int, i: int)
    requires Square(w) && |ps| == |w|
    reads tabu
  {
    forall m :: 0 <= m < i && SwapOk(ps, tabu, k, m) ==> SwapGainOf(w, ps, k, m) <= best
  }

  /** Every exchange of a member below hi gains at most best. */
  predicate SwapsBelow(w: Matrix, ps: seq<Solution>, tabu: array2<int>, best: real, hi: int)
    requires Square(w) && |ps| == |w|
    reads tabu
  {
    forall k :: 0 <= k < hi ==> SwapBelow(w, ps, tabu, best, k, |ps|)
  }

  /** The exchanges of member k: as the flip scan, the first aspiring one
      is taken at once (ending the row only). */
  method SwapRow(ps: array<Solution>, w: Matrix, tabu: array2<int>, k: int, solValue: real, bestValue: real,
                 i1: int, i2: int, best0: real, it: int)
    returns (ind1: int, ind2: int, asp: bool, best: real, it': int)
    requires Square(w) && ps.Length == |w| && tabu.Length0 == |w| && tabu.Length1 == |w|
    requires Binary(Sols(ps[..])) && 0 <= k < ps.Length && ps[k].sol == 1
    ensures it' >= it && (ind1 != i1 || ind2 != i2 ==> it' > it)
    ensures asp ==> ind1 == k && SwapOk(ps[..], tabu, k, ind2) && best == SwapGainOf(w, ps[..], k, ind2)
    ensures asp ==> Aspires(solValue + best, bestValue) && SwapCalm(w, ps[..], tabu, solValue, bestValue, k, ind2)
    ensures !asp ==> best >= best0 && SwapCalm(w, ps[..], tabu, solValue, bestValue, k, ps.Length)
    ensures !asp ==> SwapBelow(w, ps[..], tabu, best, k, ps.Length)
    ensures !asp ==> (ind1 == i1 && ind2 == i2 && best == best0) ||
                     (ind1 == k && SwapOk(ps[..], tabu, k, ind2) && best == SwapGainOf(w, ps[..], k, ind2) && best > best0)
  {
    ind1, ind2, asp, best, it' := i1, i2, false, best0, it;
    var m := 0;
    while m < ps.Length
      invariant 0 <= m <= ps.Length
      invariant best >= best0 && it' >= it && (ind1 != i1 || ind2 != i2 ==> it' > it)
      invariant SwapCalm(w, ps[..], tabu, solValue, bestValue, k, m) && SwapBelow(w, ps[..], tabu, best, k, m)
      invariant (ind1 == i1 && ind2 == i2 && best == best0) ||
                (ind1 == k && SwapOk(ps[..], tabu, k, ind2) && best == SwapGainOf(w, ps[..], k, ind2) && best > best0)
    {
      if ps[m].sol == 1 || tabu[k, m] > 0 {
        m := m + 1;
        continue;
      }
      it' := it' + 1;
      var del := ps[m].cl - ps[k].cl - w[k][m];
      if solValue + del > bestValue + Eps {
        best, ind1, ind2, asp := del, k, m, true;
        return;
      }
      if del > best {
        best, ind1, ind2 := del, k, m;
      }
      m := m + 1;
    }
  }

  /** The state of the exchange scan after the rows below k, started
      from (i1, i2, best0) with count it. */
  predicate ScanInv(w: Matrix, ps: seq<Solution>, tabu: array2<int>, solValue: real, bestValue: real,
                    i1: int, i2: int, best0: real, it: int, k: int,
                    ind1: int, ind2: int, asp: bool, best: real, it': int)
    requires Square(w) && |ps| == |w|
    reads tabu
  {
    0 <= k <= |ps| && it' >= it && (ind1 != i1 || ind2 != i2 ==> it' > it) &&
    (asp ==> 0 <= ind1 < k && SwapOk(ps, tabu, ind1, ind2) && best == SwapGainOf(w, ps, ind1, ind2) &&
             Aspires(solValue + best, bestValue) && SwapCalm(w, ps, tabu, solValue, bestValue, ind1, ind2) &&
             SwapsCalm(w, ps, tabu, solValue, bestValue, ind1 + 1, k)) &&
    (!asp ==> best >= best0 && SwapsCalm(w, ps, tabu, solValue, bestValue, 0, k) && SwapsBelow(w, ps, tabu, best, k) &&
              ((ind1 == i1 && ind2 == i2 && best == best0) ||
               (SwapOk(ps, tabu, ind1, ind2) && best == SwapGainOf(w, ps, ind1, ind2) && best > best0)))
  }

  /** A bound on every exchange is a bound for any larger best. */
  lemma SwapsBelowMono(w: Matrix, ps: seq<Solution>, tabu: array2<int>, b: real, b': real, hi: int)
    requires Square(w) && |ps| == |w| && b <= b' && SwapsBelow(w, ps, tabu, b, hi)
    ensures SwapsBelow(w, ps, tabu, b', hi)
  {
    forall k | 0 <= k < hi
      ensures SwapBelow(w, ps, tabu, b', k, |ps|)
    {
      assert SwapBelow(w, ps, tabu, b, k, |ps|);
    }
  }

  /** Row k of the exchange scan: rows of non-members are skipped. */
  method ScanStep(ps: array<Solution>, w: Matrix, tabu: array2<int>, solValue: real, bestValue: real,
                  ghost i1: int, ghost i2: int, ghost best0: real, ghost it: int, k: int,
                  ind1: int, ind2: int, asp: bool, best: real, it': int)
    returns (ind1': int, ind2': int, asp': bool, best': real, it'': int)
    requires Square(w) && ps.Length == |w| && tabu.Length0 == |w| && tabu.Length1 == |w|
    requires Binary(Sols(ps[..])) && k < ps.Length
    requires ScanInv(w, ps[..], tabu, solValue, bestValue, i1, i2, best0, it, k, ind1, ind2, asp, best, it')
    ensures ScanInv(w, ps[..], tabu, solValue, bestValue, i1, i2, best0, it, k + 1, ind1', ind2', asp', best', it'')
  {
    ind1', ind2', asp', best', it'' := ind1, ind2, asp, best, it';
    if ps[k].sol == 0 {
      return;
    }
    var rowAsp;
    ind1', ind2', rowAsp, best', it'' := SwapRow(ps, w, tabu, k, solValue, bestValue, ind1, ind2, best, it');
    if rowAsp {
      asp' := true;
    } else if asp {
      assert ind1' == ind1 && ind2' == ind2 && best' == best;
    } else {
      SwapsBelowMono(w, ps[..], tabu, best, best', k);
    }
  }

  /** The exchange scan over every member.  An aspiring exchange ends its
      row only: a later row can still replace it, by its own first
      aspiring exchange (an exchange that gains more than an aspiring one
      aspires too).  So the exchange taken is the first aspiring one of the
      last row that has one. */
  method SwapScan(ps: array<Solution>, w: Matrix, tabu: array2<int>, solValue: real, bestValue: real,
                  i1: int, i2: int, best0: real, it: int)
    returns (ind1: int, ind2: int, asp: bool, best: real, it': int)
    requires Square(w) && ps.Length == |w| && tabu.Length0 == |w| && tabu.Length1 == |w|
    requires Binary(Sols(ps[..]))
    ensures it' >= it && (ind1 != i1 || ind2 != i2 ==> it' > it)
    ensures asp ==> SwapOk(ps[..], tabu, ind1, ind2) && best == SwapGainOf(w, ps[..], ind1, ind2)
    ensures asp ==> Aspires(solValue + best, bestValue) && SwapCalm(w, ps[..], tabu, solValue, bestValue, ind1, ind2)
    ensures asp ==> SwapsCalm(w, ps[..], tabu, solValue, bestValue, ind1 + 1, ps.Length)
    ensures !asp ==> best >= best0 && SwapsCalm(w, ps[..], tabu, solValue, bestValue, 0, ps.Length)
    ensures !asp ==> SwapsBelow(w, ps[..], tabu, best, ps.Length)
    ensures !asp ==> (ind1 == i1 && ind2 == i2 && best == best0) ||
                     (SwapOk(ps[..], tabu, ind1, ind2) && best == SwapGainOf(w, ps[..], ind1, ind2) && best > best0)
  {
    ind1, ind2, asp, best, it' := i1, i2, false, best0, it;
    var k := 0;
    while k < ps.Length
      invariant ScanInv(w, ps[..], tabu, solValue, bestValue, i1, i2, best0, it, k, ind1, ind2, asp, best, it')
    {
      ind1, ind2, asp, best, it' := ScanStep(ps, w, tabu, solValue, bestValue, i1, i2, best0, it, k, ind1, ind2, asp, best, it');
      k := k + 1;
    }
  }

  /** Flipping vertex k is admissible: it is not tabu and the size bounds
      allow adding it (out of S) or removing it (in S). */
  predicate FlipAllowed(ps: seq<Solution>, clSize: int, b1: int, b2: int, k: int)
  {
    0 <= k < |ps| && ps[k].t <= 0 && ((ps[k].sol == 0 && clSize < b2) || (ps[k].sol == 1 && clSize > b1))
  }

  /** Move (k, m) is admissible: a flip of k when m is -1, otherwise an
      exchange of member k for non-member m, allowed at a size bound. */
  predicate MoveAllowed(ps: seq<Solution>, tabu: array2<int>, clSize: int, b1: int, b2: int, k: int, m: int)
    reads tabu
  {
    if m == -1 then FlipAllowed(ps, clSize, b1, b2, k)
    else (clSize == b1 || clSize == b2) && SwapOk(ps, tabu, k, m)
  }

  /** The objective change of move (k, m). */
  function MoveGain(w: Matrix, ps: seq<Solution>, k: int, m: int): real
    requires Square(w) && |ps| == |w| && 0 <= k < |ps| && -1 <= m < |ps|
  {
    if m == -1 then FlipGainOf(ps[k].sol, ps[k].cl) else SwapGainOf(w, ps, k, m)
  }

  /** No admissible move gains more than best, and none aspires. */
  predicate BestOfAll(w: Matrix, ps: seq<Solution>, tabu: array2<int>, clSize: int, b1: int, b2: int,
                      solValue: real, bestValue: real, best: real)
    requires Square(w) && |ps| == |w|
    reads tabu
  {
    forall k, m :: 0 <= k < |ps| && -1 <= m < |ps| && MoveAllowed(ps, tabu, clSize, b1, b2, k, m) ==>
      MoveGain(w, ps, k, m) <= best && !Aspires(solValue + MoveGain(w, ps, k, m), bestValue)
  }

  /** The bounds the scans leave behind make best the best admissible
      move when no scan aspired. */
  lemma CombineScans(w: Matrix, ps: seq<Solution>, tabu: array2<int>, clSize: int, b1: int, b2: int,
                     solValue: real, bestValue: real, bA: real, bR: real, best: real)
    requires Square(w) && |ps| == |w| && bA <= bR <= best
    requires clSize < b2 ==> FlipCalm(ps, 0, solValue, bestValue, |ps|) && FlipBelow(ps, 0, bA, |ps|)
    requires clSize > b1 ==> FlipCalm(ps, 1, solValue, bestValue, |ps|) && FlipBelow(ps, 1, bR, |ps|)
    requires clSize == b1 || clSize == b2 ==>
      SwapsCalm(w, ps, tabu, solValue, bestValue, 0, |ps|) && SwapsBelow(w, ps, tabu, best, |ps|)
    ensures BestOfAll(w, ps, tabu, clSize, b1, b2, solValue, bestValue, best)
  {
    forall k, m | 0 <= k < |ps| && -1 <= m < |ps| && MoveAllowed(ps, tabu, clSize, b1, b2, k, m)
      ensures MoveGain(w, ps, k, m) <= best && !Aspires(solValue + MoveGain(w, ps, k, m), bestValue)
    {
      if m == -1 {
        if ps[k].sol == 0 {
          assert FlipOk(ps, 0, k);
        } else {
          assert FlipOk(ps, 1, k);
        }
      } else {
        assert SwapCalm(w, ps, tabu, solValue, bestValue, k, |ps|);
        assert SwapBelow(w, ps, tabu, best, k, |ps|);
      }
    }
  }

  /** The choice of the move of one iteration: additions (if |S| < b2),
      then removals (if |S| > b1 and no addition aspired), then exchanges
      (if |S| is at a bound and nothing aspired yet), all sharing one
      running best.  imp tells which scan found an aspiring move (1, 2, 3)
      or 0.  With no aspiring move, the move taken is the best admissible
      one; no move at all is found only when every admissible move gains
      at most NegLarge. */
  method Select(ps: array<Solution>, w: Matrix, tabu: array2<int>, clSize: int, b1: int, b2: int,
                solValue: real, bestValue: real, it: int)
    returns (ind1: int, ind2: int, imp: int, best: real, it': int)
    requires Square(w) && ps.Length == |w| && tabu.Length0 == |w| && tabu.Length1 == |w|
    requires Binary(Sols(ps[..]))
    ensures 0 <= imp <= 3 && it' >= it
    ensures ind1 == -1 ==> ind2 == -1 && imp == 0 && best == NegLarge
    ensures ind1 != -1 ==> (0 <= ind1 < ps.Length && -1 <= ind2 < ps.Length && it' > it &&
                            MoveAllowed(ps[..], tabu, clSize, b1, b2, ind1, ind2) && best == MoveGain(w, ps[..], ind1, ind2))
    ensures imp > 0 ==> ind1 != -1 && Aspires(solValue + best, bestValue)
    ensures imp == 0 ==> BestOfAll(w, ps[..], tabu, clSize, b1, b2, solValue, bestValue, best)
    ensures imp == 1 ==> ind2 == -1 && ps[ind1].sol == 0 && FlipCalm(ps[..], 0, solValue, bestValue, ind1)
    ensures imp == 2 ==> ind2 == -1 && ps[ind1].sol == 1 && FlipCalm(ps[..], 1, solValue, bestValue, ind1)
    ensures imp == 3 ==> (ind2 != -1 && SwapCalm(w, ps[..], tabu, solValue, bestValue, ind1, ind2) &&
                          SwapsCalm(w, ps[..], tabu, solValue, bestValue, ind1 + 1, ps.Length))
  {
    ind1, ind2, imp, best, it' := -1, -1, 0, NegLarge, it;
    var asp;
    if clSize < b2 {
      ind1, asp, best, it' := FlipScan(ps, 0, solValue, bestValue, ind1, best, it');
      if asp {
        imp := 1;
      }
    }
    ghost var bA := best;
    if clSize > b1 && imp == 0 {
      ind1, asp, best, it' := FlipScan(ps, 1, solValue, bestValue, ind1, best, it');
      if asp {
        imp := 2;
      }
    }
    ghost var bR := best;
    if (clSize == b1 || clSize == b2) && imp == 0 {
      ind1, ind2, asp, best, it' := SwapScan(ps, w, tabu, solValue, bestValue, ind1, ind2, best, it');
      if asp {
        imp := 3;
      }
    }
    if imp == 0 {
      CombineScans(w, ps[..], tabu, clSize, b1, b2, solValue, bestValue, bA, bR, best);
    }
  }

  // ---------------------------------------------------------------------
  // One iteration

  /** The state the search keeps between iterations: gains exact, the
      size tracked and within the bounds, solValue and bestValue the
      objective of the current and of the best set, the best set 0/1 and
      within the bounds. */
  predicate SearchState(w: Matrix, ps: seq<Solution>, clSize: int, b1: int, b2: int, solValue: real, bestValue: real)
  {
    Tracked(w, ps, clSize) && b1 <= clSize <= b2 && solValue == PairSum(w, Sols(ps)) &&
    Binary(BestSols(ps)) && bestValue == PairSum(w, BestSols(ps)) && b1 <= Count(BestSols(ps)) <= b2
  }

  /** Every vertex tabu time lies in [0, T1]. */
  predicate TimesIn(ps: seq<Solution>, T1: int)
  {
    forall i :: 0 <= i < |ps| ==> 0 <= ps[i].t <= T1
  }

  /** The best set becomes the current one. */
  method SaveBest(ps: array<Solution>)
    modifies ps
    ensures forall i :: 0 <= i < ps.Length ==> ps[i] == old(ps[i]).(bestSol := old(ps[i].sol))
    ensures Sols(ps[..]) == Sols(old(ps[..])) == BestSols(ps[..])
  {
    var i := 0;
    while i < ps.Length
      invariant 0 <= i <= ps.Length
      invariant forall v :: 0 <= v < i ==> ps[v] == old(ps[v]).(bestSol := old(ps[v].sol))
      invariant forall v :: i <= v < ps.Length ==> ps[v] == old(ps[v])
    {
      ps[i] := ps[i].(bestSol := ps[i].sol);
      i := i + 1;
    }
  }

  /** One tick of a vertex tabu time. */
  function Tick(t: int): int
  {
    if t > 0 then t - 1 else t
  }

  /** The records after an iteration's ageing: every tabu time ticks down
      and the flipped vertex of a flip (ind2 == -1) becomes tabu for T1
      iterations. */
  function Aged(s: seq<Solution>, ind1: int, ind2: int, T1: int): (r: seq<Solution>)
    ensures |r| == |s|
    ensures forall i :: 0 <= i < |s| ==> r[i] == s[i].(t := if ind2 == -1 && i == ind1 then T1 else Tick(s[i].t))
  {
    seq(|s|, i requires 0 <= i < |s| => s[i].(t := if ind2 == -1 && i == ind1 then T1 else Tick(s[i].t)))
  }

  /** Every vertex still tabu has one iteration less to wait. */
  method TickVertices(ps: array<Solution>)
    modifies ps
    ensures forall i :: 0 <= i < ps.Length ==> ps[i] == old(ps[i]).(t := Tick(old(ps[i].t)))
  {
    var i := 0;
    while i < ps.Length
      invariant 0 <= i <= ps.Length
      invariant forall v :: 0 <= v < i ==> ps[v] == old(ps[v]).(t := Tick(old(ps[v].t)))
      invariant forall v :: i <= v < ps.Length ==> ps[v] == old(ps[v])
    {
      if ps[i].t > 0 {
        ps[i] := ps[i].(t := ps[i].t - 1);
      }
      i := i + 1;
    }
  }

  /** Makes the selected move, adds its gain to solValue and, after an
      aspiring move, runs the local search and records the result as the
      new best set. */
  method ApplyMove(ps: array<Solution>, w: Matrix, b1: int, b2: int, ind1: int, ind2: int, imp: int, best: real,
                   solValue: real, clSize: int, bestValue: real, it: int)
    returns (solValue': real, clSize': int, bestValue': real, it': int)
    requires SearchState(w, ps[..], clSize, b1, b2, solValue, bestValue)
    requires 0 <= ind1 < ps.Length && -1 <= ind2 < ps.Length
    requires ind2 == -1 ==> FlipAllowed(ps[..], clSize, b1, b2, ind1)
    requires ind2 != -1 ==> ps[ind1].sol == 1 && ps[ind2].sol == 0
    requires best == MoveGain(w, ps[..], ind1, ind2)
    requires 0 <= imp && (imp > 0 <==> Aspires(solValue + best, bestValue))
    modifies ps
    ensures SearchState(w, ps[..], clSize', b1, b2, solValue', bestValue')
    ensures forall i :: 0 <= i < ps.Length ==> ps[i].t == old(ps[i].t)
    ensures imp == 0 ==> bestValue' == bestValue && BestSols(ps[..]) == BestSols(old(ps[..])) &&
                         solValue' == solValue + best &&
                         Sols(ps[..]) == (if ind2 == -1 then Sols(old(ps[..]))[ind1 := 1 - old(ps[ind1].sol)]
                                          else Sols(old(ps[..]))[ind1 := 0][ind2 := 1])
    ensures imp > 0 ==> bestValue' > bestValue + Eps && bestValue' == solValue' && LocalOpt(w, ps[..], clSize', b1, b2)
    ensures solValue' <= bestValue' + Eps
    ensures it' >= it
  {
    ghost var orig := ps[..];
    clSize' := TakeMove(ps, w, b1, b2, ind1, ind2, clSize);
    solValue', bestValue', it' := solValue + best, bestValue, it;
    ghost var moved := ps[..];
    OthersBest(moved, orig);
    if imp > 0 {
      clSize', it', solValue' := Climb(ps, w, b1, b2, clSize', it', solValue');
      bestValue' := solValue';
    }
  }

  /** Make move (ind1, ind2): a flip of ind1 when ind2 is -1, otherwise the
      exchange of member ind1 for non-member ind2. */
  method TakeMove(ps: array<Solution>, w: Matrix, b1: int, b2: int, ind1: int, ind2: int, clSize: int)
    returns (clSize': int)
    requires Tracked(w, ps[..], clSize) && b1 <= clSize <= b2
    requires 0 <= ind1 < ps.Length && -1 <= ind2 < ps.Length
    requires ind2 == -1 ==> FlipAllowed(ps[..], clSize, b1, b2, ind1)
    requires ind2 != -1 ==> ps[ind1].sol == 1 && ps[ind2].sol == 0
    modifies ps
    ensures Tracked(w, ps[..], clSize') && b1 <= clSize' <= b2
    ensures Sols(ps[..]) == (if ind2 == -1 then Sols(old(ps[..]))[ind1 := 1 - old(ps[ind1].sol)]
                             else Sols(old(ps[..]))[ind1 := 0][ind2 := 1])
    ensures PairSum(w, Sols(ps[..])) == PairSum(w, Sols(old(ps[..]))) + MoveGain(w, old(ps[..]), ind1, ind2)
    ensures Others(ps[..]) == Others(old(ps[..]))
  {
    if ind2 == -1 {
      var g;
      clSize', g := FlipMove(ps, w, ind1, clSize);
    } else {
      var g := SwapMove(ps, w, ind1, ind2, clSize);
      clSize' := clSize;
    }
  }

  /** After an aspiring move: the local search climbs to a local optimum,
      which becomes the best set. */
  method Climb(ps: array<Solution>, w: Matrix, b1: int, b2: int, clSize: int, it: int, solValue: real)
    returns (clSize': int, it': int, solValue': real)
    requires Tracked(w, ps[..], clSize) && b1 <= clSize <= b2 && solValue == PairSum(w, Sols(ps[..]))
    modifies ps
    ensures Tracked(w, ps[..], clSize') && b1 <= clSize' <= b2 && solValue' == PairSum(w, Sols(ps[..]))
    ensures solValue' >= solValue && Sols(ps[..]) == BestSols(ps[..]) && LocalOpt(w, ps[..], clSize', b1, b2)
    ensures forall i :: 0 <= i < ps.Length ==> ps[i].t == old(ps[i].t)
    ensures it' >= it
  {
    ghost var orig := ps[..];
    var c;
    clSize', it', c := LocalSearch(ps, w, b1, b2, clSize, it);
    solValue' := solValue + c;
    ghost var searched := ps[..];
    SaveBest(ps);
    OthersBest(searched, orig);
    GainsKept(w, ps[..], searched);
  }

  /** The end of an iteration: every tabu time drops by one, the pair
      whose time runs out leaves the list, then the flipped vertex becomes
      tabu for T1 iterations or the exchanged pair for T2. */
  method AgeTabu(ps: array<Solution>, tabu: array2<int>, v1: array<int>, v2: array<int>, len: int,
                 ind1: int, ind2: int, T1: int, T2: int)
    returns (len': int)
    requires ListValid(tabu, v1, v2, len, ps.Length, T2) && 1 <= T2 && v1 != v2
    requires 0 <= ind1 < ps.Length && -1 <= ind2 < ps.Length
    requires ind2 != -1 ==> ind1 != ind2 && !InList(v1[..len], v2[..len], ind1, ind2)
    modifies ps, tabu, v1, v2
    ensures ListValid(tabu, v1, v2, len', ps.Length, T2)
    ensures ps[..] == Aged(old(ps[..]), ind1, ind2, T1)
    ensures var a, b := old(v1[..len]), old(v2[..len]);
      var d := if len > 0 && old(tabu[a[0], b[0]]) == 1 then 1 else 0;
      v1[..len'] == a[d..] + (if ind2 == -1 then [] else [ind1]) &&
      v2[..len'] == b[d..] + (if ind2 == -1 then [] else [ind2])
    ensures ind2 != -1 ==> tabu[ind1, ind2] == T2 && tabu[ind2, ind1] == T2
  {
    AgeVertices(ps, ind1, ind2, T1);
    len' := AgeList(tabu, v1, v2, len, ps.Length, ind1, ind2, T2);
  }

  /** Every vertex tabu time drops by one, then the flipped vertex, if
      any, becomes tabu for T1 iterations. */
  method AgeVertices(ps: array<Solution>, ind1: int, ind2: int, T1: int)
    requires 0 <= ind1 < ps.Length
    modifies ps
    ensures ps[..] == Aged(old(ps[..]), ind1, ind2, T1)
  {
    TickVertices(ps);
    if ind2 == -1 {
      ps[ind1] := ps[ind1].(t := T1);
    }
    assert ps[..] == Aged(old(ps[..]), ind1, ind2, T1);
  }

  /** Every pair time drops by one and the pair whose time runs out
      leaves the list, then the exchanged pair, if any, joins it for T2
      iterations. */
  method AgeList(tabu: array2<int>, v1: array<int>, v2: array<int>, len: int, ghost n: int,
                 ind1: int, ind2: int, T2: int)
    returns (len': int)
    requires ListValid(tabu, v1, v2, len, n, T2) && 1 <= T2 && v1 != v2
    requires 0 <= ind1 < n && -1 <= ind2 < n
    requires ind2 != -1 ==> ind1 != ind2 && !InList(v1[..len], v2[..len], ind1, ind2)
    modifies tabu, v1, v2
    ensures ListValid(tabu, v1, v2, len', n, T2)
    ensures var a, b := old(v1[..len]), old(v2[..len]);
      var d := if len > 0 && old(tabu[a[0], b[0]]) == 1 then 1 else 0;
      v1[..len'] == a[d..] + (if ind2 == -1 then [] else [ind1]) &&
      v2[..len'] == b[d..] + (if ind2 == -1 then [] else [ind2])
    ensures ind2 != -1 ==> tabu[ind1, ind2] == T2 && tabu[ind2, ind1] == T2
  {
    ghost var a, b := v1[..len], v2[..len];
    ghost var d := if len > 0 && tabu[a[0], b[0]] == 1 then 1 else 0;
    len' := Expire(tabu, v1, v2, len, n, T2);
    assert v1[..len'] == a[d..] && v2[..len'] == b[d..];
    if ind2 == -1 {
      ListWeaken(tabu, v1[..len'], v2[..len'], T2);
      assert a[d..] + [] == a[d..] && b[d..] + [] == b[d..];
    } else {
      NotListedSuffix(a, b, d, ind1, ind2);
      len' := Push(tabu, v1, v2, len', ind1, ind2, n, T2);
    }
  }

  /** One iteration of the tabu search.  When no move is found (every
      admissible move gains at most NegLarge, which the program leaves
      undefined) the iteration reports that it is stuck and changes
      nothing.  Otherwise the state is kept, the best value either stays
      with its set or grows by more than the tolerance, and the current
      value does not beat the best one by more than the tolerance. */
  method TabuStep(ps: array<Solution>, w: Matrix, tabu: array2<int>, v1: array<int>, v2: array<int>, len: int,
                  b1: int, b2: int, T1: int, T2: int, solValue: real, clSize: int, bestValue: real, it: int)
    returns (len': int, solValue': real, clSize': int, bestValue': real, it': int, stuck: bool)
    requires SearchState(w, ps[..], clSize, b1, b2, solValue, bestValue) && TimesIn(ps[..], T1)
    requires ListValid(tabu, v1, v2, len, |w|, T2) && 1 <= T2 && 0 <= T1 && v1 != v2
    modifies ps, tabu, v1, v2
    ensures stuck ==> ps[..] == old(ps[..]) && len' == len && solValue' == solValue && clSize' == clSize &&
                      bestValue' == bestValue &&
                      BestOfAll(w, ps[..], tabu, clSize, b1, b2, solValue, bestValue, NegLarge)
    ensures !stuck ==> SearchState(w, ps[..], clSize', b1, b2, solValue', bestValue') && TimesIn(ps[..], T1) &&
                       ListValid(tabu, v1, v2, len', |w|, T2) && it' > it
    ensures !stuck ==> (bestValue' == bestValue && BestSols(ps[..]) == BestSols(old(ps[..]))) ||
                       bestValue' > bestValue + Eps
    ensures !stuck ==> solValue' <= bestValue' + Eps
  {
    var ind1, ind2, imp, best;
    ind1, ind2, imp, best, it' := Select(ps, w, tabu, clSize, b1, b2, solValue, bestValue, it);
    len', solValue', clSize', bestValue', stuck := len, solValue, clSize, bestValue, false;
    if ind1 == -1 {
      stuck := true;
      return;
    }
    if imp == 0 {
      assert !Aspires(solValue + MoveGain(w, ps[..], ind1, ind2), bestValue);
    }
    len', solValue', clSize', bestValue', it' :=
      MoveAndAge(ps, w, tabu, v1, v2, len, b1, b2, T1, T2, ind1, ind2, imp, best, solValue, clSize, bestValue, it');
  }

  /** The second half of an iteration: the selected move is made and the
      tabu times age. */
  method MoveAndAge(ps: array<Solution>, w: Matrix, tabu: array2<int>, v1: array<int>, v2: array<int>, len: int,
                    b1: int, b2: int, T1: int, T2: int, ind1: int, ind2: int, imp: int, best: real,
                    solValue: real, clSize: int, bestValue: real, it: int)
    returns (len': int, solValue': real, clSize': int, bestValue': real, it': int)
    requires SearchState(w, ps[..], clSize, b1, b2, solValue, bestValue) && TimesIn(ps[..], T1)
    requires ListValid(tabu, v1, v2, len, |w|, T2) && 1 <= T2 && 0 <= T1 && v1 != v2
    requires 0 <= ind1 < ps.Length && -1 <= ind2 < ps.Length
    requires ind2 == -1 ==> FlipAllowed(ps[..], clSize, b1, b2, ind1)
    requires ind2 != -1 ==> ps[ind1].sol == 1 && ps[ind2].sol == 0 && tabu[ind1, ind2] <= 0
    requires best == MoveGain(w, ps[..], ind1, ind2)
    requires 0 <= imp && (imp > 0 <==> Aspires(solValue + best, bestValue))
    modifies ps, tabu, v1, v2
    ensures SearchState(w, ps[..], clSize', b1, b2, solValue', bestValue') && TimesIn(ps[..], T1)
    ensures ListValid(tabu, v1, v2, len', |w|, T2) && it' >= it
    ensures (bestValue' == bestValue && BestSols(ps[..]) == BestSols(old(ps[..]))) || bestValue' > bestValue + Eps
    ensures solValue' <= bestValue' + Eps
  {
    if ind2 != -1 {
      NotListed(tabu, v1, v2, len, |w|, T2, ind1, ind2);
    }
    solValue', clSize', bestValue', it' := ApplyMove(ps, w, b1, b2, ind1, ind2, imp, best, solValue, clSize, bestValue, it);
    ghost var moved := ps[..];
    assert TimesIn(moved, T1);
    len' := AgeTabu(ps, tabu, v1, v2, len, ind1, ind2, T1, T2);
    AgedKeeps(moved, ind1, ind2, T1);
    GainsKept(w, ps[..], moved);
  }

  /** Ageing touches only the tabu times and keeps them in [0, T1]. */
  lemma AgedKeeps(s: seq<Solution>, ind1: int, ind2: int, T1: int)
    ensures Sols(Aged(s, ind1, ind2, T1)) == Sols(s) && BestSols(Aged(s, ind1, ind2, T1)) == BestSols(s)
    ensures forall i :: 0 <= i < |s| ==> Aged(s, ind1, ind2, T1)[i].cl == s[i].cl
    ensures TimesIn(s, T1) && 0 <= T1 ==> TimesIn(Aged(s, ind1, ind2, T1), T1)
  {
    TimesOnly(s, Aged(s, ind1, ind2, T1));
  }

  // ---------------------------------------------------------------------
  // The search

  /** The tabu search from the set in ps: the gains are rebuilt, every
      vertex and pair is released, and iterations run until itBound moves
      have been examined, no move is found (stuck), or the budget of
      iterations standing for the wall clock is spent (stopCond).  The
      best value never decreases and stays the value of the 0/1 best set
      within the bounds; the current value ends at most the tolerance above
      it. */
  method TabuSearch(ps: array<Solution>, w: Matrix, tabu: array2<int>, v1: array<int>, v2: array<int>,
                    b1: int, b2: int, T1: int, T2: int, itBound: int,
                    solValue: real, clSize: int, bestValue: real, budget: nat)
    returns (solValue': real, clSize': int, bestValue': real, budget': nat, stopCond: bool, stuck: bool)
    requires Symmetric(w) && ps.Length == |w| && tabu.Length0 == |w| && tabu.Length1 == |w|
    requires 1 <= T2 <= v1.Length && T2 <= v2.Length && 0 <= T1 && v1 != v2
    requires Binary(Sols(ps[..])) && clSize == Count(Sols(ps[..])) && b1 <= clSize <= b2
    requires solValue == PairSum(w, Sols(ps[..]))
    requires Binary(BestSols(ps[..])) && bestValue == PairSum(w, BestSols(ps[..])) && b1 <= Count(BestSols(ps[..])) <= b2
    modifies ps, tabu, v1, v2
    ensures SearchState(w, ps[..], clSize', b1, b2, solValue', bestValue') && TimesIn(ps[..], T1)
    ensures (bestValue' == bestValue && BestSols(ps[..]) == BestSols(old(ps[..]))) || bestValue' > bestValue + Eps
    ensures budget' <= budget && (stopCond ==> budget' == 0)
    ensures itBound > 0 && !stuck ==> solValue' <= bestValue' + Eps
    ensures itBound > 0 && !stuck && !stopCond ==> budget' < budget
    ensures stuck ==> BestOfAll(w, ps[..], tabu, clSize', b1, b2, solValue', bestValue', NegLarge)
  {
    InitGains(ps, w, tabu);
    assert Sols(ps[..]) == Sols(old(ps[..])) && BestSols(ps[..]) == BestSols(old(ps[..]));
    ghost var start := ps[..];
    var len, it := 0, 0;
    solValue', clSize', bestValue', budget', stopCond, stuck := solValue, clSize, bestValue, budget, false, false;
    ghost var moved := false;
    while it < itBound
      invariant SearchState(w, ps[..], clSize', b1, b2, solValue', bestValue') && TimesIn(ps[..], T1)
      invariant ListValid(tabu, v1, v2, len, |w|, T2)
      invariant (bestValue' == bestValue && BestSols(ps[..]) == BestSols(start)) || bestValue' > bestValue + Eps
      invariant budget' <= budget && !stopCond && !stuck
      invariant moved ==> budget' < budget && solValue' <= bestValue' + Eps
      invariant !moved ==> it == 0
      decreases itBound - it
    {
      var st;
      len, solValue', clSize', bestValue', it, st :=
        TabuStep(ps, w, tabu, v1, v2, len, b1, b2, T1, T2, solValue', clSize', bestValue', it);
      if st {
        stuck := true;
        break;
      }
      moved := true;
      if budget' > 0 {
        budget' := budget' - 1;
      }
      if budget' == 0 {
        stopCond := true;
        break;
      }
    }
  }
}
