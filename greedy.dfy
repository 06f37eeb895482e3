/** The greedy construction used on small instances.  Every vertex starts
    undecided (`sol` = -1) and is then fixed to 0 or 1, one at a time, by
    the choice that raises a fractional relaxation of the objective most:
    an undecided vertex counts with weight q / n in the relaxation (q is
    the target size), a member with weight 1 and a non-member with 0.  The
    engine keeps that relaxation multiplied by n * n, so that every
    coefficient is an integer: q, n or 0. */
module Greedy {
  import opened Weights
  import opened Solutions
  import opened Rng
  import opened Evaluation

  predicate Partial(x: seq<int>)
  {
    forall i :: 0 <= i < |x| ==> -1 <= x[i] <= 1
  }

  /** The 0/1 vector of the undecided vertices. */
  function Und(x: seq<int>): (a: seq<real>)
    ensures |a| == |x| && forall i :: 0 <= i < |x| ==> a[i] == if x[i] == -1 then 1.0 else 0.0
  {
    seq(|x|, i requires 0 <= i < |x| => if x[i] == -1 then 1.0 else 0.0)
  }

  /** The relaxation coefficient of a vertex with membership s, scaled by
      n: q when undecided, n when in S, 0 when out. */
  function Coef(q: nat, n: nat, s: int): real
  {
    if s == -1 then q as real else if s == 1 then n as real else 0.0
  }

  /** The coefficients of the relaxation, built vertex by vertex (RelaxAt
      gives each coefficient). */
  function Relax(q: nat, n: nat, x: seq<int>): (a: seq<real>)
    ensures |a| == |x|
  {
    if |x| == 0 then [] else Relax(q, n, x[..|x| - 1]) + [Coef(q, n, x[|x| - 1])]
  }

  lemma {:induction false} RelaxAt(q: nat, n: nat, x: seq<int>, k: nat)
    requires k < |x|
    ensures Relax(q, n, x)[k] == Coef(q, n, x[k])
    decreases |x|
  {
    if k < |x| - 1 {
      RelaxAt(q, n, x[..|x| - 1], k);
    }
  }

  /** Each undecided vertex carries its gain towards the undecided vertices
      (`sf`) and towards the members (`s1`). */
  predicate PartialGains(w: Matrix, ps: seq<Solution>)
    requires Square(w)
  {
    |ps| == |w| &&
    forall i :: 0 <= i < |ps| && ps[i].sol == -1 ==>
      ps[i].sf == Lin(w, Und(Sols(ps)), i) && ps[i].s1 == Gain(w, Sols(ps), i)
  }

  /** The gain of a vertex in the relaxation. */
  function Db(q: nat, n: nat, p: Solution): real
  {
    q as real * p.sf + n as real * p.s1
  }

  /** The change of the relaxation when an undecided vertex is fixed to v:
      its coefficient drops from q to 0, or rises from q to n. */
  function Impr(q: nat, n: nat, p: Solution, v: int): real
  {
    if v == 0 then -(q as real) * Db(q, n, p) else (n - q) as real * Db(q, n, p)
  }

  /** The change of c1 * lu + c2 * lb-weighted relaxation when a
      coefficient moves from c1 to c: (c - c1) times the relaxed gain. */
  function Change(c1: real, c2: real, c: real, lu: real, lb: real): real
  {
    (c - c1) * (c1 * lu + c2 * lb)
  }

  /** The improvement of fixing v is that change, with the vertex's partial
      gains as the gains towards the undecided vertices and the members. */
  lemma ImprIsDelta(q: nat, n: nat, p: Solution, v: int)
    requires v == 0 || v == 1
    ensures Impr(q, n, p, v) == Change(q as real, n as real, Coef(q, n, v), p.sf, p.s1)
  {
  }

  /** Fixing an undecided vertex i to v changes the relaxation by exactly
      the improvement computed from its partial gains. */
  lemma ImprIsChange(w: Matrix, ps: seq<Solution>, q: nat, n: nat, i: nat, v: int)
    requires Square(w) && n == |w| && PartialGains(w, ps) && Partial(Sols(ps))
    requires i < |ps| && ps[i].sol == -1 && (v == 0 || v == 1)
    ensures Quad(w, Relax(q, n, Sols(ps)[i := v])) == Quad(w, Relax(q, n, Sols(ps))) + Impr(q, n, ps[i], v)
  {
    var x := Sols(ps);
    assert ps[i].sf == Lin(w, Und(x), i) && ps[i].s1 == Lin(w, Ind(x), i);
    RelaxStep(w, x, q, n, i, v);
    ImprIsDelta(q, n, ps[i], v);
  }

  /** The same change, stated over the two partial gains. */
  lemma RelaxStep(w: Matrix, x: seq<int>, q: nat, n: nat, i: nat, v: int)
    requires Square(w) && n == |w| && |x| == |w| && Partial(x) && i < |x| && x[i] == -1
    ensures Quad(w, Relax(q, n, x[i := v]))
         == Quad(w, Relax(q, n, x)) + Change(q as real, n as real, Coef(q, n, v), Lin(w, Und(x), i), Lin(w, Ind(x), i))
  {
    RelaxUpdate(q, n, x, i, v);
    RelaxSplit(q, n, x);
    CombChange(w, Relax(q, n, x), Relax(q, n, x[i := v]), Und(x), Ind(x), i, q as real, n as real, Coef(q, n, v));
  }

  /** The relaxation is q times the undecided vector plus n times the
      members' vector. */
  lemma RelaxSplit(q: nat, n: nat, x: seq<int>)
    requires Partial(x)
    ensures forall k :: 0 <= k < |x| ==> Relax(q, n, x)[k] == q as real * Und(x)[k] + n as real * Ind(x)[k]
  {
    forall k | 0 <= k < |x|
      ensures Relax(q, n, x)[k] == q as real * Und(x)[k] + n as real * Ind(x)[k]
    {
      RelaxAt(q, n, x, k);
    }
  }

  /** Setting coordinate i of r = c1 * u + c2 * b from c1 to c moves the
      quadratic form by (c - c1) times c1 * Lin(u) + c2 * Lin(b). */
  lemma CombChange(w: Matrix, r: seq<real>, r': seq<real>, u: seq<real>, b: seq<real>, i: nat, c1: real, c2: real, c: real)
    requires Square(w) && |r| == |w| && |u| == |w| && |b| == |w| && i < |w|
    requires r' == r[i := c] && r[i] == c1
    requires forall k :: 0 <= k < |r| ==> r[k] == c1 * u[k] + c2 * b[k]
    ensures Quad(w, r') == Quad(w, r) + Change(c1, c2, c, Lin(w, u, i), Lin(w, b, i))
  {
    QuadSet(w, r, r', i, c, c1);
    ChangeFromLin(w, r, u, b, i, c1, c2, c);
  }

  /** The gain of i in r = c1 * u + c2 * b, scaled by c - c1, is the
      change. */
  lemma ChangeFromLin(w: Matrix, r: seq<real>, u: seq<real>, b: seq<real>, i: nat, c1: real, c2: real, c: real)
    requires Square(w) && |r| == |w| && |u| == |w| && |b| == |w| && i < |w|
    requires forall k :: 0 <= k < |r| ==> r[k] == c1 * u[k] + c2 * b[k]
    ensures (c - c1) * Lin(w, r, i) == Change(c1, c2, c, Lin(w, u, i), Lin(w, b, i))
  {
    LinComb(w, u, b, r, c1, c2, i);
    ChangeOf(c1, c2, c, Lin(w, r, i), Lin(w, u, i), Lin(w, b, i));
  }

  /** The arithmetic step of CombChange. */
  lemma ChangeOf(c1: real, c2: real, c: real, l: real, lu: real, lb: real)
    requires l == c1 * lu + c2 * lb
    ensures (c - c1) * l == Change(c1, c2, c, lu, lb)
  {
  }

  /** QuadUpdate for a vector known to equal r[i := c], with r[i] == o. */
  lemma QuadSet(w: Matrix, r: seq<real>, r': seq<real>, i: nat, c: real, o: real)
    requires Square(w) && |r| == |w| && i < |r| && r' == r[i := c] && r[i] == o
    ensures Quad(w, r') == Quad(w, r) + (c - o) * Lin(w, r, i)
  {
    QuadUpdate(w, r, i, c);
  }

  lemma RelaxUpdate(q: nat, n: nat, x: seq<int>, i: nat, v: int)
    requires i < |x| && x[i] == -1
    ensures Relax(q, n, x[i := v]) == Relax(q, n, x)[i := Coef(q, n, v)]
    ensures Relax(q, n, x)[i] == q as real
  {
    forall k | 0 <= k < |x|
      ensures Relax(q, n, x[i := v])[k] == if k == i then Coef(q, n, v) else Relax(q, n, x)[k]
    {
      RelaxAt(q, n, x, k);
      RelaxAt(q, n, x[i := v], k);
    }
    RelaxAt(q, n, x, i);
  }

  /** With 0 <= q <= n, one of the two choices never lowers the
      relaxation. */
  lemma ImprBest(q: nat, n: nat, p: Solution)
    requires q <= n
    ensures Impr(q, n, p, 0) >= 0.0 || Impr(q, n, p, 1) >= 0.0
  {
    var d := Db(q, n, p);
    if d >= 0.0 {
      assert (n - q) as real * d >= 0.0;
    } else {
      assert -(q as real) * d >= 0.0;
    }
  }

  // ---------------------------------------------------------------------
  // Fixing one vertex

  /** `after` is `before` with vertex k fixed to val and the partial gains
      of the undecided vertices from `from` on moved accordingly. */
  predicate Decided(w: Matrix, before: seq<Solution>, after: seq<Solution>, k: nat, val: int, from: nat)
    requires Square(w) && |before| == |w| && k < |w|
  {
    |after| == |before| &&
    forall j :: 0 <= j < |after| ==>
      after[j] == if j == k then before[j].(sol := val)
                  else if from <= j && before[j].sol == -1 then
                    before[j].(sf := before[j].sf - w[j][k],
                               s1 := before[j].s1 + (if val == 1 then w[j][k] else 0.0))
                  else before[j]
  }

  /** Fixing a vertex keeps the partial gains exact. */
  lemma DecidedKeepsGains(w: Matrix, before: seq<Solution>, after: seq<Solution>, k: nat, val: int, from: nat)
    requires Symmetric(w) && |before| == |w| && k < |w| && before[k].sol == -1 && (val == 0 || val == 1)
    requires forall i :: 0 <= i < from && i < |before| && i != k ==> before[i].sol != -1
    requires Decided(w, before, after, k, val, from)
    ensures Sols(after) == Sols(before)[k := val]
    ensures Partial(Sols(before)) ==> Partial(Sols(after))
    ensures PartialGains(w, before) ==> PartialGains(w, after)
  {
    var x := Sols(before);
    var y := x[k := val];
    SolsOf(after, y);
    assert Und(y) == Und(x)[k := 0.0];
    IndUpdate(x, k, val);
    if PartialGains(w, before) {
      forall i | 0 <= i < |after| && after[i].sol == -1
        ensures after[i].sf == Lin(w, Und(y), i) && after[i].s1 == Gain(w, y, i)
      {
        LinUpdate(w, Und(x), k, 0.0, i);
        LinUpdate(w, Ind(x), k, Indicator(val), i);
      }
    }
  }

  /** Fix vertex k to val, then update the partial gains of the undecided
      vertices from `from` on (a zero weight changes nothing and is
      skipped). */
  method Decide(ps: array<Solution>, w: Matrix, k: nat, val: int, from: nat)
    requires Square(w) && ps.Length == |w| && k < |w| && (val == 0 || val == 1)
    modifies ps
    ensures Decided(w, old(ps[..]), ps[..], k, val, from)
  {
    ps[k] := ps[k].(sol := val);
    var i := from;
    while i < ps.Length
      invariant from <= i
      invariant forall j :: 0 <= j < ps.Length ==>
        ps[j] == if j == k then old(ps[j]).(sol := val)
                 else if from <= j < i && old(ps[j]).sol == -1 then
                   old(ps[j]).(sf := old(ps[j]).sf - w[j][k],
                               s1 := old(ps[j]).s1 + (if val == 1 then w[j][k] else 0.0))
                 else old(ps[j])
    {
      if ps[i].sol != -1 || w[i][k] == 0.0 {
        i := i + 1;
        continue;
      }
      if val == 1 {
        ps[i] := ps[i].(s1 := ps[i].s1 + w[i][k]);
      }
      ps[i] := ps[i].(sf := ps[i].sf - w[i][k]);
      i := i + 1;
    }
  }
}
