/** The greedy construction procedure (steepest ascent over the relaxation
    of module Greedy): every vertex starts undecided, then the choice that
    raises the relaxation most is committed one vertex at a time until S
    reaches the upper size bound or its complement the lower one, and the
    remaining vertices are filled in accordingly. */
module Steepest {
  import opened Weights
  import opened Solutions
  import opened Rng
  import opened Evaluation
  import opened Greedy

  /** The state the construction keeps: partial memberships, exact partial
      gains, and f equal to the scaled relaxation. */
  predicate GreedyInv(w: Matrix, ps: seq<Solution>, q: nat, n: nat, f: real)
  {
    Square(w) && n == |w| && |ps| == n && Partial(Sols(ps)) && PartialGains(w, ps) &&
    f == Quad(w, Relax(q, n, Sols(ps)))
  }

  // ---------------------------------------------------------------------
  // The starting state

  /** Every vertex undecided with its sums cleared. */
  method ResetGains(ps: array<Solution>)
    modifies ps
    ensures forall v :: 0 <= v < ps.Length ==> ps[v] == old(ps[v]).(sol := -1, sf := 0.0, s1 := 0.0)
  {
    var i := 0;
    while i < ps.Length
      invariant 0 <= i <= ps.Length
      invariant forall v :: 0 <= v < i ==> ps[v] == old(ps[v]).(sol := -1, sf := 0.0, s1 := 0.0)
      invariant forall v :: i <= v < ps.Length ==> ps[v] == old(ps[v])
    {
      ps[i] := ps[i].(sol := -1, sf := 0.0, s1 := 0.0);
      i := i + 1;
    }
  }

  /** Pair (i, j) of the initial scan adds its weight to the sums of i and j. */
  method AddPair(ps: array<Solution>, w: Matrix, i: nat, j: nat, ghost orig: seq<Solution>)
    requires Square(w) && ps.Length == |w| && |orig| == |w| && i < j < |w|
    requires forall m :: 0 <= m < ps.Length ==> ps[m] == orig[m].(sf := PairAcc(w, Ones(|w|), m, i, j))
    modifies ps
    ensures forall m :: 0 <= m < ps.Length ==> ps[m] == orig[m].(sf := PairAcc(w, Ones(|w|), m, i, j + 1))
  {
    ghost var a := Ones(|w|);
    ps[i] := ps[i].(sf := ps[i].sf + w[i][j]);
    ps[j] := ps[j].(sf := ps[j].sf + w[i][j]);
    forall m | 0 <= m < ps.Length
      ensures PairAcc(w, a, m, i, j + 1)
           == PairAcc(w, a, m, i, j) + (if m == i then w[i][j] * a[j] else 0.0)
                                     + (if m == j then w[i][j] * a[i] else 0.0)
    {
      PairAccStep(w, a, m, i, j);
    }
  }

  /** The initial scan over the pairs i < j: f collects every weight and
      each vertex the sum of its weights to all the others. */
  method PairScan(ps: array<Solution>, w: Matrix) returns (f: real)
    requires Square(w) && ps.Length == |w|
    requires forall v :: 0 <= v < ps.Length ==> ps[v].sf == 0.0
    modifies ps
    ensures f == Quad(w, Ones(|w|))
    ensures forall v :: 0 <= v < ps.Length ==> ps[v] == old(ps[v]).(sf := Lin(w, Ones(|w|), v))
  {
    var n := ps.Length;
    ghost var a := Ones(n);
    ghost var orig := ps[..];
    f := 0.0;
    if n == 0 {
      return;
    }
    forall m | 0 <= m < n
      ensures PairAcc(w, a, m, 0, 1) == 0.0
    {
      PairAccStart(w, a, m);
    }
    var i := 0;
    while i < n - 1
      invariant 0 <= i <= n - 1
      invariant f == QPre(w, a, i)
      invariant forall m :: 0 <= m < n ==> ps[m] == orig[m].(sf := PairAcc(w, a, m, i, i + 1))
    {
      var j := i + 1;
      while j < n
        invariant i + 1 <= j <= n
        invariant f == QPre(w, a, i) + TailTo(w, a, i, j)
        invariant forall m :: 0 <= m < n ==> ps[m] == orig[m].(sf := PairAcc(w, a, m, i, j))
      {
        f := f + w[i][j];
        AddPair(ps, w, i, j, orig);
        j := j + 1;
      }
      QPreRow(w, a, i);
      forall m | 0 <= m < n
        ensures PairAcc(w, a, m, i, n) == PairAcc(w, a, m, i + 1, i + 2)
      {
        PairAccRow(w, a, m, i);
      }
      i := i + 1;
    }
    forall m | 0 <= m < n
      ensures PairAcc(w, a, m, n - 1, n) == Lin(w, a, m)
    {
      PairAccEnd(w, a, m);
    }
    QPreRow(w, a, n - 1);
  }

  /** The cleared and scanned records form the starting state, once f is
      scaled by q * q: the relaxation of an all-undecided vector is q times
      the all-ones vector. */
  lemma StartState(w: Matrix, ps: seq<Solution>, q: nat, n: nat, f: real)
    requires Square(w) && n == |w| && |ps| == n
    requires forall v :: 0 <= v < n ==> ps[v].sol == -1 && ps[v].s1 == 0.0 && ps[v].sf == Lin(w, Ones(n), v)
    requires f == (q * q) as real * Quad(w, Ones(n))
    ensures GreedyInv(w, ps, q, n, f)
  {
    var x := Sols(ps);
    assert x == seq(n, v => -1);
    StartGains(w, ps, x, n);
    StartRelax(w, x, q, n);
  }

  lemma StartGains(w: Matrix, ps: seq<Solution>, x: seq<int>, n: nat)
    requires Square(w) && n == |w| && |ps| == n && x == Sols(ps)
    requires forall v :: 0 <= v < n ==> ps[v].sol == -1 && ps[v].s1 == 0.0 && ps[v].sf == Lin(w, Ones(n), v)
    ensures Partial(x) && PartialGains(w, ps)
  {
    var one := Ones(n);
    assert Und(x) == one;
    assert Ind(x) == Scale(0.0, one);
    forall v | 0 <= v < n
      ensures Gain(w, x, v) == 0.0
    {
      LinScale(w, 0.0, one, v);
    }
  }

  lemma StartRelax(w: Matrix, x: seq<int>, q: nat, n: nat)
    requires Square(w) && n == |w| && |x| == n && forall v :: 0 <= v < n ==> x[v] == -1
    ensures Quad(w, Relax(q, n, x)) == (q * q) as real * Quad(w, Ones(n))
  {
    var one := Ones(n);
    forall k | 0 <= k < n
      ensures Relax(q, n, x)[k] == Scale(q as real, one)[k]
    {
      RelaxAt(q, n, x, k);
    }
    assert Relax(q, n, x) == Scale(q as real, one);
    QuadScale(w, q as real, one);
    assert (q * q) as real == q as real * q as real;
  }

  // ---------------------------------------------------------------------
  // One step

  /** The scan of one step: among the undecided vertices and the two
      values, find a largest improvement; ties are broken at random, the
      c-th equal candidate replacing the kept one when a draw is at most
      1 / c. */
  method Scan(ps: array<Solution>, q: nat, n: nat, rng: Generator)
    returns (ind: int, val: int, maxImpr: real, ghost draws: nat)
    requires q <= n && ps.Length == n
    modifies rng
    ensures ind == -1 <==> forall j :: 0 <= j < n ==> ps[j].sol != -1
    ensures ind == -1 ==> maxImpr == NegLarge
    ensures ind != -1 ==> 0 <= ind < n && ps[ind].sol == -1 && (val == 0 || val == 1) &&
                          maxImpr == Impr(q, n, ps[ind], val)
    ensures forall j :: 0 <= j < n && ps[j].sol == -1 ==> Impr(q, n, ps[j], 0) <= maxImpr && Impr(q, n, ps[j], 1) <= maxImpr
    ensures rng.seed == Iter(old(rng.seed), draws)
  {
    maxImpr := NegLarge;
    ind, val := -1, 0;
    draws := 0;
    var count := 0;
    var i := 0;
    while i < n
      invariant 0 <= i <= n
      invariant ind == -1 <==> forall j :: 0 <= j < i ==> ps[j].sol != -1
      invariant ind == -1 ==> maxImpr == NegLarge
      invariant ind != -1 ==> 0 <= ind < i && ps[ind].sol == -1 && (val == 0 || val == 1) &&
                              maxImpr == Impr(q, n, ps[ind], val)
      invariant forall j :: 0 <= j < i && ps[j].sol == -1 ==> Impr(q, n, ps[j], 0) <= maxImpr && Impr(q, n, ps[j], 1) <= maxImpr
      invariant rng.seed == Iter(old(rng.seed), draws)
    {
      if ps[i].sol != -1 {
        i := i + 1;
        continue;
      }
      ImprBest(q, n, ps[i]);
      var impr0 := Impr(q, n, ps[i], 0);
      if impr0 > maxImpr {
        maxImpr := impr0;
        ind, val := i, 0;
        count := 1;
      } else if impr0 == maxImpr {
        count := count + 1;
        var r := rng.Random();
        draws := draws + 1;
        if r <= 1.0 / count as real {
          ind, val := i, 0;
        }
      }
      var impr1 := Impr(q, n, ps[i], 1);
      if impr1 > maxImpr {
        maxImpr := impr1;
        ind, val := i, 1;
        count := 1;
      } else if impr1 == maxImpr {
        count := count + 1;
        var r := rng.Random();
        draws := draws + 1;
        if r <= 1.0 / count as real {
          ind, val := i, 1;
        }
      }
      i := i + 1;
    }
  }

  /** Committing vertex k to val keeps the construction's state, f moving
      by the improvement of that choice. */
  lemma CommitKeeps(w: Matrix, before: seq<Solution>, after: seq<Solution>, q: nat, n: nat, f: real,
                    k: nat, val: int, from: nat)
    requires Symmetric(w) && GreedyInv(w, before, q, n, f)
    requires k < n && before[k].sol == -1 && (val == 0 || val == 1)
    requires forall i :: 0 <= i < from && i < n && i != k ==> before[i].sol != -1
    requires Decided(w, before, after, k, val, from)
    ensures Sols(after) == Sols(before)[k := val]
    ensures GreedyInv(w, after, q, n, f + Impr(q, n, before[k], val))
  {
    ImprIsChange(w, before, q, n, k, val);
    DecidedKeepsGains(w, before, after, k, val, from);
  }

  /** No undecided vertex of x, fixed to either value, gives a relaxation
      above m. */
  predicate NoBetter(w: Matrix, x: seq<int>, q: nat, n: nat, m: real)
    requires Square(w) && n == |w| && |x| == n
  {
    forall j :: 0 <= j < n && x[j] == -1 ==>
      Quad(w, Relax(q, n, x[j := 0])) <= m && Quad(w, Relax(q, n, x[j := 1])) <= m
  }

  /** The committed choice is a steepest one: no other undecided vertex and
      value would leave a larger relaxation. */
  lemma SteepestChoice(w: Matrix, ps: seq<Solution>, q: nat, n: nat, f: real, ind: nat, val: int, m: real)
    requires GreedyInv(w, ps, q, n, f)
    requires ind < n && ps[ind].sol == -1 && (val == 0 || val == 1) && m == Impr(q, n, ps[ind], val)
    requires forall j :: 0 <= j < n && ps[j].sol == -1 ==> Impr(q, n, ps[j], 0) <= m && Impr(q, n, ps[j], 1) <= m
    ensures NoBetter(w, Sols(ps), q, n, f + m)
    ensures Quad(w, Relax(q, n, Sols(ps)[ind := val])) == f + m
  {
    ImprIsChange(w, ps, q, n, ind, val);
    forall j | 0 <= j < n && ps[j].sol == -1
      ensures Quad(w, Relax(q, n, Sols(ps)[j := 0])) <= f + m && Quad(w, Relax(q, n, Sols(ps)[j := 1])) <= f + m
    {
      ImprIsChange(w, ps, q, n, j, 0);
      ImprIsChange(w, ps, q, n, j, 1);
    }
  }

  /** One step of the main loop: scan, add the best improvement to f,
      commit the vertex and update the sums of the undecided vertices. */
  method GreedyStep(ps: array<Solution>, w: Matrix, q: nat, n: nat, f: real, rng: Generator)
    returns (f': real, ind: nat, val: int)
    requires Symmetric(w) && q <= n && GreedyInv(w, ps[..], q, n, f)
    requires exists j :: 0 <= j < n && ps[j].sol == -1
    modifies ps, rng
    ensures ind < n && old(ps[ind].sol) == -1 && (val == 0 || val == 1)
    ensures Sols(ps[..]) == Sols(old(ps[..]))[ind := val]
    ensures GreedyInv(w, ps[..], q, n, f')
    ensures NoBetter(w, Sols(old(ps[..])), q, n, f')
  {
    ghost var before := ps[..];
    var i, maxImpr;
    ghost var draws;
    i, val, maxImpr, draws := Scan(ps, q, n, rng);
    ind := i;
    SteepestChoice(w, before, q, n, f, ind, val, maxImpr);
    f' := f + maxImpr;
    Decide(ps, w, ind, val, 0);
    CommitKeeps(w, before, ps[..], q, n, f, ind, val, 0);
  }

  // ---------------------------------------------------------------------
  // Filling in the rest and the whole construction

  /** x with every undecided entry set to v. */
  function Filled(x: seq<int>, v: int): (y: seq<int>)
    ensures |y| == |x| && forall i :: 0 <= i < |x| ==> y[i] == if x[i] == -1 then v else x[i]
  {
    seq(|x|, i requires 0 <= i < |x| => if x[i] == -1 then v else x[i])
  }

  /** Fixing the first undecided vertex k to val, with its improvement. */
  method FixNext(ps: array<Solution>, w: Matrix, q: nat, n: nat, val: int, f: real, k: nat) returns (f': real)
    requires Symmetric(w) && GreedyInv(w, ps[..], q, n, f) && (val == 0 || val == 1)
    requires k < n && ps[k].sol == -1 && forall i :: 0 <= i < k ==> ps[i].sol != -1
    modifies ps
    ensures Sols(ps[..]) == Sols(old(ps[..]))[k := val]
    ensures GreedyInv(w, ps[..], q, n, f')
  {
    ghost var before := ps[..];
    var impr := Impr(q, n, ps[k], val);
    f' := f + impr;
    Decide(ps, w, k, val, k + 1);
    CommitKeeps(w, before, ps[..], q, n, f, k, val, k + 1);
  }

  /** The state of the fill-in after k vertices: those below k that were
      undecided are fixed to val, `added` of them. */
  predicate FillInv(w: Matrix, x0: seq<int>, ps: seq<Solution>, q: nat, n: nat, val: int, f: real, k: nat, added: nat)
  {
    k <= n && |x0| == n && GreedyInv(w, ps, q, n, f) &&
    (forall j :: 0 <= j < n ==> ps[j].sol == if j < k && x0[j] == -1 then val else x0[j]) &&
    Tally(Sols(ps), -1) + added == Tally(x0, -1) &&
    Tally(Sols(ps), val) == Tally(x0, val) + added &&
    Tally(Sols(ps), 1 - val) == Tally(x0, 1 - val)
  }

  /** Step k of the fill-in. */
  method FillStep(ps: array<Solution>, w: Matrix, q: nat, n: nat, val: int, f: real, k: nat, added: nat, ghost x0: seq<int>)
    returns (f': real, added': nat)
    requires Symmetric(w) && (val == 0 || val == 1) && k < n
    requires FillInv(w, x0, ps[..], q, n, val, f, k, added)
    modifies ps
    ensures FillInv(w, x0, ps[..], q, n, val, f', k + 1, added')
  {
    if ps[k].sol != -1 {
      f', added' := f, added;
      return;
    }
    ghost var x := Sols(ps[..]);
    f' := FixNext(ps, w, q, n, val, f, k);
    FillTallies(x, Sols(ps[..]), k, val);
    added' := added + 1;
  }

  lemma FillTallies(x: seq<int>, y: seq<int>, k: nat, val: int)
    requires k < |x| && x[k] == -1 && y == x[k := val] && (val == 0 || val == 1)
    ensures Tally(y, -1) + 1 == Tally(x, -1)
    ensures Tally(y, val) == Tally(x, val) + 1
    ensures Tally(y, 1 - val) == Tally(x, 1 - val)
  {
    TallyUpdate(x, k, val, -1);
    TallyUpdate(x, k, val, val);
    TallyUpdate(x, k, val, 1 - val);
  }

  /** The fill-in after the main loop stops at a size bound: every vertex
      still undecided is fixed to val in index order, f moving by each
      improvement and the later undecided vertices' sums being updated. */
  method Complete(ps: array<Solution>, w: Matrix, q: nat, n: nat, val: int, f: real) returns (f': real, added: nat)
    requires Symmetric(w) && GreedyInv(w, ps[..], q, n, f) && (val == 0 || val == 1)
    modifies ps
    ensures GreedyInv(w, ps[..], q, n, f')
    ensures Sols(ps[..]) == Filled(Sols(old(ps[..])), val)
    ensures added == Tally(Sols(old(ps[..])), -1)
    ensures Tally(Sols(ps[..]), val) == Tally(Sols(old(ps[..])), val) + added
    ensures Tally(Sols(ps[..]), 1 - val) == Tally(Sols(old(ps[..])), 1 - val)
    ensures Tally(Sols(ps[..]), -1) == 0
  {
    ghost var x0 := Sols(ps[..]);
    f' := f;
    added := 0;
    var k := 0;
    while k < n
      invariant FillInv(w, x0, ps[..], q, n, val, f', k, added)
    {
      f', added := FillStep(ps, w, q, n, val, f', k, added, x0);
      k := k + 1;
    }
    assert Sols(ps[..]) == Filled(x0, val);
    TallyZero(Sols(ps[..]), -1);
  }

  /** Once every vertex is decided the relaxation is n * n times the
      objective, so dividing twice by n recovers it. */
  lemma EndValue(w: Matrix, x: seq<int>, q: nat, n: nat, f: real)
    requires Square(w) && n == |w| && |x| == n && Binary(x) && 0 < n
    requires f == Quad(w, Relax(q, n, x))
    ensures f / n as real / n as real == PairSum(w, x)
  {
    forall k | 0 <= k < n
      ensures Relax(q, n, x)[k] == Scale(n as real, Ind(x))[k]
    {
      RelaxAt(q, n, x, k);
    }
    assert Relax(q, n, x) == Scale(n as real, Ind(x));
    QuadScale(w, n as real, Ind(x));
    DivTwice(f, n as real, PairSum(w, x));
  }

  lemma DivTwice(f: real, c: real, p: real)
    requires 0.0 < c && f == c * c * p
    ensures f / c / c == p
  {
    assert f / c == c * p;
  }

  /** Once nothing is undecided the vector is a 0/1 vector. */
  lemma AllDecided(x: seq<int>)
    requires Partial(x) && Tally(x, -1) == 0
    ensures Binary(x)
  {
    TallyZero(x, -1);
  }

  /** The state of the main loop after k steps: k vertices decided, m0 of
      them out of S and m1 in. */
  predicate MainInv(w: Matrix, ps: seq<Solution>, q: nat, n: nat, f: real, k: nat, m0: nat, m1: nat)
  {
    k <= n && GreedyInv(w, ps, q, n, f) &&
    Tally(Sols(ps), -1) == n - k && m0 == Tally(Sols(ps), 0) && m1 == Tally(Sols(ps), 1)
  }

  /** Step k of the main loop, with the count of the side the vertex went to. */
  method MainStep(ps: array<Solution>, w: Matrix, q: nat, n: nat, f: real, rng: Generator, k: nat, m0: nat, m1: nat)
    returns (f': real, m0': nat, m1': nat, val: int)
    requires Symmetric(w) && q <= n && k < n && MainInv(w, ps[..], q, n, f, k, m0, m1)
    modifies ps, rng
    ensures MainInv(w, ps[..], q, n, f', k + 1, m0', m1')
    ensures (val == 0 && m0' == m0 + 1 && m1' == m1) || (val == 1 && m0' == m0 && m1' == m1 + 1)
    ensures NoBetter(w, Sols(old(ps[..])), q, n, f')
  {
    ghost var x := Sols(ps[..]);
    TallyZero(x, -1);
    var ind;
    f', ind, val := GreedyStep(ps, w, q, n, f, rng);
    StepTallies(x, Sols(ps[..]), ind, val);
    if val == 0 {
      m0', m1' := m0 + 1, m1;
    } else {
      m0', m1' := m0, m1 + 1;
    }
  }

  lemma StepTallies(x: seq<int>, y: seq<int>, k: nat, val: int)
    requires k < |x| && x[k] == -1 && y == x[k := val] && (val == 0 || val == 1)
    ensures Tally(y, -1) + 1 == Tally(x, -1)
    ensures Tally(y, 0) == Tally(x, 0) + (if val == 0 then 1 else 0)
    ensures Tally(y, 1) == Tally(x, 1) + (if val == 1 then 1 else 0)
  {
    TallyUpdate(x, k, val, -1);
    TallyUpdate(x, k, val, 0);
    TallyUpdate(x, k, val, 1);
  }

  /** The start of the construction: clear the records, scan the pairs and
      scale f by q * q. */
  method GreedyInit(ps: array<Solution>, w: Matrix, q: nat, n: nat) returns (f: real)
    requires Square(w) && ps.Length == n && n == |w|
    modifies ps
    ensures MainInv(w, ps[..], q, n, f, 0, 0, 0)
  {
    ResetGains(ps);
    f := PairScan(ps, w);
    f := f * (q * q) as real;
    StartState(w, ps[..], q, n, f);
    StartTallies(Sols(ps[..]));
  }

  /** After the main loop: when it stopped at the upper bound the rest stay
      out, at the lower bound the rest join; S then has m1 members, or
      every vertex not out. */
  method FillRest(ps: array<Solution>, w: Matrix, q: nat, n: nat, f: real, cs: int, k: nat, m0: nat, m1: nat)
    returns (f': real, clSize: nat)
    requires Symmetric(w) && MainInv(w, ps[..], q, n, f, k, m0, m1) && (cs == 0 ==> k == n)
    modifies ps
    ensures GreedyInv(w, ps[..], q, n, f') && Binary(Sols(ps[..])) && clSize == Count(Sols(ps[..]))
    ensures cs >= 0 ==> clSize == m1
    ensures cs <= 0 ==> clSize == n - m0
  {
    TallySplit(Sols(ps[..]));
    f', clSize := f, m1;
    if cs > 0 {
      var added;
      f', added := Complete(ps, w, q, n, 0, f);
    } else if cs < 0 {
      var added;
      f', added := Complete(ps, w, q, n, 1, f);
      clSize := clSize + added;
    }
    AllDecided(Sols(ps[..]));
  }

  /** The greedy construction: q is the target size (b1 when the bounds
      agree, their midpoint otherwise); vertices are committed by steepest
      ascent until S has b2 members (the rest then stay out) or only b1
      vertices are not out (the rest then join), and the relaxation f, into
      which the objective has been tracked throughout, is compared with a
      direct evaluation of the result.  The engine stops with an error on a
      mismatch; here that is the `discrepancy` result, which never holds. */
  method SteepestAscent(ps: array<Solution>, w: Matrix, b1: nat, b2: nat, rng: Generator)
    returns (clSize: nat, value: real, discrepancy: bool)
    requires Symmetric(w) && ps.Length == |w| && b1 <= b2 <= |w|
    modifies ps, rng
    ensures Binary(Sols(ps[..])) && clSize == Count(Sols(ps[..]))
    ensures value == PairSum(w, Sols(ps[..])) && !discrepancy
    ensures 0 < b2 && b1 < |w| ==> b1 <= clSize <= b2
  {
    var n := ps.Length;
    var q: nat := if b1 == b2 then b1 else (b1 + b2) / 2;
    var f := GreedyInit(ps, w, q, n);
    var m0: nat, m1: nat := 0, 0;
    clSize := 0;
    var cs := 0;
    var k := 0;
    while k < n
      invariant MainInv(w, ps[..], q, n, f, k, m0, m1) && clSize == m1
      invariant 0 < b2 && b1 < n ==> m1 < b2 && b1 < n - m0
    {
      var val;
      f, m0, m1, val := MainStep(ps, w, q, n, f, rng, k, m0, m1);
      k := k + 1;
      if val == 1 {
        clSize := clSize + 1;
      }
      if m1 == b2 {
        cs := 1;
        break;
      }
      if n - m0 == b1 {
        cs := -1;
        break;
      }
    }
    f, clSize := FillRest(ps, w, q, n, f, cs, k, m0, m1);
    if n > 0 {
      EndValue(w, Sols(ps[..]), q, n, f);
      f := f / n as real;
      f := f / n as real;
    }
    value := SetValue(w, Sols(ps[..]));
    discrepancy := f < value - Eps || f > value + Eps;
  }

  /** At the start every vertex is undecided. */
  lemma StartTallies(x: seq<int>)
    requires forall i :: 0 <= i < |x| ==> x[i] == -1
    ensures Tally(x, -1) == |x| && Tally(x, 0) == 0 && Tally(x, 1) == 0
  {
    TallyZero(x, 0);
    TallyZero(x, 1);
    TallySplit(x);
  }
}
