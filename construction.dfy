/** The two ways the engine builds its first solution: a random set of
    random size (large instances), and a greedy build over a fractional
    relaxation of the objective (small instances). */
module Construction {
  import opened Weights
  import opened Solutions
  import opened Rng
  import opened Evaluation

  /** The vertex that slot s (the `t` field of record s) keeps. */
  function Slot(ps: seq<Solution>, s: nat): int
    requires s < |ps|
  {
    ps[s].t
  }

  /** Slots from `from` on hold distinct vertices out of S. */
  predicate FreeSlots(ps: seq<Solution>, from: nat)
  {
    (forall s :: from <= s < |ps| ==> 0 <= Slot(ps, s) < |ps| && ps[Slot(ps, s)].sol == 0) &&
    (forall s, s' :: from <= s < s' < |ps| ==> Slot(ps, s) != Slot(ps, s'))
  }

  /** A random start: draw a size in [b1, b2], then pick that many distinct
      vertices by a partial Fisher-Yates shuffle kept in the `t` fields.
      Returns the size and the objective of the chosen set. */
  method RandomStart(ps: array<Solution>, w: Matrix, b1: nat, b2: nat, rng: Generator)
    returns (clSize: nat, value: real)
    requires Square(w) && ps.Length == |w| && b1 <= b2 <= |w|
    modifies ps, rng
    ensures b1 <= clSize <= b2
    ensures clSize == b1 + (Next(old(rng.seed)) * (b2 - b1 + 1)) / (Coef + 1)
    ensures Binary(Sols(ps[..])) && Count(Sols(ps[..])) == clSize
    ensures value == PairSum(w, Sols(ps[..]))
    ensures FreeSlots(ps[..], clSize)
    ensures rng.seed == Iter(old(rng.seed), clSize + 1)
    ensures forall v :: 0 <= v < ps.Length ==> ps[v] == old(ps[v]).(sol := ps[v].sol, t := ps[v].t)
  {
    var i := rng.Pick(b2 - b1 + 1);
    clSize := b1 + i;
    ResetSlots(ps);
    ChooseVertices(ps, clSize, rng);
    IterShift(old(rng.seed), clSize);
    value := SetValue(w, Sols(ps[..]));
  }

  /** Every vertex out of S, slot v holding vertex v. */
  method ResetSlots(ps: array<Solution>)
    modifies ps
    ensures forall v :: 0 <= v < ps.Length ==> ps[v] == old(ps[v]).(sol := 0, t := v)
  {
    var i := 0;
    while i < ps.Length
      invariant 0 <= i <= ps.Length
      invariant forall v :: 0 <= v < i ==> ps[v] == old(ps[v]).(sol := 0, t := v)
      invariant forall v :: i <= v < ps.Length ==> ps[v] == old(ps[v])
    {
      ps[i] := ps[i].(t := i, sol := 0);
      i := i + 1;
    }
  }

  /** The state of the selection loop after i steps: i vertices are in S,
      the slots from i on hold distinct vertices still out of S, and only
      `sol` and `t` differ from `orig`. */
  predicate ChooseInv(orig: seq<Solution>, ps: seq<Solution>, i: nat)
  {
    |ps| == |orig| && i <= |ps| &&
    FreeSlots(ps, i) &&
    Binary(Sols(ps)) && Count(Sols(ps)) == i &&
    (forall v {:trigger orig[v]} :: 0 <= v < |ps| ==> ps[v] == orig[v].(sol := ps[v].sol, t := ps[v].t))
  }

  /** One step of the selection loop keeps its invariant: the vertex of
      slot r joins S and slot r takes over the vertex of slot i. */
  lemma ChooseStep(orig: seq<Solution>, ps: seq<Solution>, i: nat, r: nat, mid: seq<Solution>, after: seq<Solution>)
    requires ChooseInv(orig, ps, i) && i <= r < |ps|
    requires mid == ps[Slot(ps, r) := ps[Slot(ps, r)].(sol := 1)]
    requires after == mid[r := mid[r].(t := mid[i].t)]
    ensures ChooseInv(orig, after, i + 1)
  {
    StepSlots(ps, i, r, mid, after);
    StepCount(ps, Slot(ps, r), after);
  }

  lemma StepSlots(ps: seq<Solution>, i: nat, r: nat, mid: seq<Solution>, after: seq<Solution>)
    requires FreeSlots(ps, i) && i <= r < |ps|
    requires mid == ps[Slot(ps, r) := ps[Slot(ps, r)].(sol := 1)]
    requires after == mid[r := mid[r].(t := mid[i].t)]
    ensures FreeSlots(after, i + 1)
  {
    var c := Slot(ps, r);
    forall s | i + 1 <= s < |after|
      ensures 0 <= Slot(after, s) < |after| && after[Slot(after, s)].sol == 0
    {
      if s == r {
        assert Slot(after, s) == Slot(ps, i) != c;
      } else {
        assert Slot(after, s) == Slot(ps, s);
        assert Slot(ps, s) != Slot(ps, r);
      }
    }
    forall s, s' | i + 1 <= s < s' < |after|
      ensures Slot(after, s) != Slot(after, s')
    {
      assert Slot(after, s) == if s == r then Slot(ps, i) else Slot(ps, s);
      assert Slot(after, s') == if s' == r then Slot(ps, i) else Slot(ps, s');
    }
  }

  /** Vertex c, out of S, joins it: S stays a 0/1 vector and grows by one. */
  lemma StepCount(ps: seq<Solution>, c: nat, after: seq<Solution>)
    requires c < |ps| && ps[c].sol == 0 && Binary(Sols(ps))
    requires |after| == |ps| && forall v :: 0 <= v < |ps| ==> after[v].sol == if v == c then 1 else ps[v].sol
    ensures Binary(Sols(after)) && Count(Sols(after)) == Count(Sols(ps)) + 1
  {
    var x := Sols(ps);
    SolsOf(after, x[c := 1]);
    TallyUpdate(x, c, 1, 1);
  }

  /** The selection loop of the random start: step i draws a slot r in
      [i, n), puts the vertex kept there into S and moves the vertex of slot
      i into slot r, so that the slots after i keep the vertices not yet
      chosen. */
  method ChooseVertices(ps: array<Solution>, clSize: nat, rng: Generator)
    requires clSize <= ps.Length
    requires forall v :: 0 <= v < ps.Length ==> ps[v].t == v && ps[v].sol == 0
    modifies ps, rng
    ensures Binary(Sols(ps[..])) && Count(Sols(ps[..])) == clSize
    ensures FreeSlots(ps[..], clSize)
    ensures rng.seed == Iter(old(rng.seed), clSize)
    ensures forall v :: 0 <= v < ps.Length ==> ps[v] == old(ps[v]).(sol := ps[v].sol, t := ps[v].t)
  {
    var n := ps.Length;
    ghost var orig := ps[..];
    assert Sols(ps[..]) == seq(n, v => 0);
    TallyZero(Sols(ps[..]), 1);
    var i := 0;
    while i < clSize
      invariant i <= clSize
      invariant ChooseInv(orig, ps[..], i)
      invariant rng.seed == Iter(old(rng.seed), i)
    {
      var r := ChooseOne(ps, orig, i, rng);
      i := i + 1;
    }
  }

  /** Step i of the selection loop. */
  method ChooseOne(ps: array<Solution>, ghost orig: seq<Solution>, i: nat, rng: Generator) returns (r: nat)
    requires ChooseInv(orig, ps[..], i) && i < ps.Length
    modifies ps, rng
    ensures ChooseInv(orig, ps[..], i + 1)
    ensures rng.seed == Next(old(rng.seed))
    ensures r == i + (rng.seed * (ps.Length - i)) / (Coef + 1) && i <= r < ps.Length
    ensures ps[Slot(old(ps[..]), r)].sol == 1
  {
    ghost var before := ps[..];
    r := rng.Pick(ps.Length - i);
    r := r + i;
    var chosen := ps[r].t;
    assert chosen == Slot(before, r);
    ps[chosen] := ps[chosen].(sol := 1);
    ghost var mid := ps[..];
    assert mid == before[chosen := before[chosen].(sol := 1)];
    ps[r] := ps[r].(t := ps[i].t);
    assert ps[..] == mid[r := mid[r].(t := mid[i].t)];
    ChooseStep(orig, before, i, r, mid, ps[..]);
  }
}
