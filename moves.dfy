/** The two move executors shared by the perturbation, the local search and
    the tabu search: flipping one vertex in or out of S, and exchanging a
    member for a non-member.  Each keeps every record's gain exact and moves
    the objective by exactly the gain the search read before the move. */
module Moves {
  import opened Weights
  import opened Solutions

  /** How the gain of vertex j moves when vertex k, currently with
      membership s, is flipped. */
  function FlipDelta(w: Matrix, k: nat, s: int, j: nat): real
    requires Square(w) && k < |w| && j < |w|
  {
    if j == k then 0.0 else if s == 0 then w[j][k] else -w[j][k]
  }

  /** How the gain of vertex j moves when member k is exchanged for
      non-member m. */
  function SwapDelta(w: Matrix, k: nat, m: nat, j: nat): real
    requires Square(w) && k < |w| && m < |w| && j < |w|
  {
    (if j != k then -w[j][k] else 0.0) + (if j != m then w[j][m] else 0.0)
  }

  /** The objective change of flipping k, read off its (exact) gain. */
  function FlipGainOf(s: int, cl: real): real
  {
    if s == 0 then cl else -cl
  }

  /** `after` is `before` with vertex k flipped and every gain moved by
      FlipDelta. */
  predicate Flipped(w: Matrix, before: seq<Solution>, after: seq<Solution>, k: nat)
    requires Square(w) && |before| == |w| && k < |w|
  {
    |after| == |before| &&
    forall j :: 0 <= j < |after| ==>
      after[j] == before[j].(sol := if j == k then 1 - before[j].sol else before[j].sol,
                             cl := before[j].cl + FlipDelta(w, k, before[k].sol, j))
  }

  /** After a flip the gain of vertex i is exact if it was before. */
  lemma FlippedGainAt(w: Matrix, before: seq<Solution>, after: seq<Solution>, k: nat, i: nat)
    requires Symmetric(w) && |before| == |w| && k < |w| && i < |w| && (before[k].sol == 0 || before[k].sol == 1)
    requires Flipped(w, before, after, k) && Sols(after) == Sols(before)[k := 1 - before[k].sol]
    requires before[i].cl == Gain(w, Sols(before), i)
    ensures after[i].cl == Gain(w, Sols(after), i)
  {
    FlipGain(w, Sols(before), k, i);
    assert after[i].cl == before[i].cl + FlipDelta(w, k, before[k].sol, i);
  }

  /** A flip changes the membership of k alone. */
  lemma FlippedSols(w: Matrix, before: seq<Solution>, after: seq<Solution>, k: nat)
    requires Square(w) && |before| == |w| && k < |w|
    requires Flipped(w, before, after, k)
    ensures Sols(after) == Sols(before)[k := 1 - before[k].sol]
  {
    var x := Sols(before);
    forall i | 0 <= i < |after|
      ensures after[i].sol == x[k := 1 - before[k].sol][i]
    {
      assert after[i] == before[i].(sol := if i == k then 1 - before[i].sol else before[i].sol,
                                    cl := before[i].cl + FlipDelta(w, k, before[k].sol, i));
    }
    SolsOf(after, x[k := 1 - before[k].sol]);
  }

  /** After a flip every gain is exact if every gain was before. */
  lemma FlippedGains(w: Matrix, before: seq<Solution>, after: seq<Solution>, k: nat)
    requires Symmetric(w) && |before| == |w| && k < |w| && (before[k].sol == 0 || before[k].sol == 1)
    requires Flipped(w, before, after, k) && Sols(after) == Sols(before)[k := 1 - before[k].sol]
    requires GainsExact(w, before)
    ensures GainsExact(w, after)
  {
    forall i | 0 <= i < |after|
      ensures after[i].cl == Gain(w, Sols(after), i)
    {
      FlippedGainAt(w, before, after, k, i);
    }
  }

  /** A flip keeps the gains exact and moves the objective by the gain. */
  lemma FlippedKeepsGains(w: Matrix, before: seq<Solution>, after: seq<Solution>, k: nat)
    requires Symmetric(w) && |before| == |w| && k < |w| && (before[k].sol == 0 || before[k].sol == 1)
    requires Flipped(w, before, after, k)
    ensures Sols(after) == Sols(before)[k := 1 - before[k].sol]
    ensures GainsExact(w, before) ==> GainsExact(w, after)
    ensures GainsExact(w, before) ==>
      PairSum(w, Sols(after)) == PairSum(w, Sols(before)) + FlipGainOf(before[k].sol, before[k].cl)
  {
    FlippedSols(w, before, after, k);
    if GainsExact(w, before) {
      FlippedGains(w, before, after, k);
      FlipValue(w, Sols(before), k);
    }
  }

  /** Add vertex k to S if it is out, remove it if it is in. */
  method Flip(ps: array<Solution>, w: Matrix, k: nat)
    requires Symmetric(w) && ps.Length == |w| && k < |w|
    requires ps[k].sol == 0 || ps[k].sol == 1
    modifies ps
    ensures Flipped(w, old(ps[..]), ps[..], k)
    ensures Sols(ps[..]) == Sols(old(ps[..]))[k := 1 - old(ps[k].sol)]
    ensures GainsExact(w, old(ps[..])) ==> GainsExact(w, ps[..])
    ensures GainsExact(w, old(ps[..])) ==>
      PairSum(w, Sols(ps[..])) == PairSum(w, Sols(old(ps[..]))) + FlipGainOf(old(ps[k].sol), old(ps[k].cl))
  {
    ghost var before := ps[..];
    var s := ps[k].sol;
    ShiftForFlip(ps, w, k, s);
    ps[k] := ps[k].(sol := 1 - s);
    assert Flipped(w, before, ps[..], k);
    FlippedKeepsGains(w, before, ps[..], k);
  }

  /** The gain updates of a flip of k, whose membership is s, before the
      membership itself changes. */
  method ShiftForFlip(ps: array<Solution>, w: Matrix, k: nat, s: int)
    requires Square(w) && ps.Length == |w| && k < |w| && (s == 0 || s == 1)
    modifies ps
    ensures forall i :: 0 <= i < ps.Length ==> ps[i] == old(ps[i]).(cl := old(ps[i].cl) + FlipDelta(w, k, s, i))
  {
    var j := 0;
    while j < ps.Length
      invariant 0 <= j <= ps.Length
      invariant forall i :: 0 <= i < j ==> ps[i] == old(ps[i]).(cl := old(ps[i].cl) + FlipDelta(w, k, s, i))
      invariant forall i :: j <= i < ps.Length ==> ps[i] == old(ps[i])
    {
      if j != k {
        if s == 1 {
          ps[j] := ps[j].(cl := ps[j].cl - w[j][k]);
        } else {
          ps[j] := ps[j].(cl := ps[j].cl + w[j][k]);
        }
      }
      j := j + 1;
    }
  }

  /** `after` is `before` with member k exchanged for non-member m and
      every gain moved by SwapDelta. */
  predicate Swapped(w: Matrix, before: seq<Solution>, after: seq<Solution>, k: nat, m: nat)
    requires Square(w) && |before| == |w| && k < |w| && m < |w|
  {
    |after| == |before| &&
    forall j :: 0 <= j < |after| ==>
      after[j] == before[j].(sol := if j == k then 0 else if j == m then 1 else before[j].sol,
                             cl := before[j].cl + SwapDelta(w, k, m, j))
  }

  /** After an exchange the gain of vertex i is exact if it was before. */
  lemma SwappedGainAt(w: Matrix, before: seq<Solution>, after: seq<Solution>, k: nat, m: nat, i: nat)
    requires Symmetric(w) && |before| == |w| && k < |w| && m < |w| && i < |w|
    requires before[k].sol == 1 && before[m].sol == 0
    requires Swapped(w, before, after, k, m) && Sols(after) == Sols(before)[k := 0][m := 1]
    requires before[i].cl == Gain(w, Sols(before), i)
    ensures after[i].cl == Gain(w, Sols(after), i)
  {
    SwapGain(w, Sols(before), k, m, i);
    assert after[i].cl == before[i].cl + SwapDelta(w, k, m, i);
  }

  /** An exchange changes the membership of k and m alone. */
  lemma SwappedSols(w: Matrix, before: seq<Solution>, after: seq<Solution>, k: nat, m: nat)
    requires Square(w) && |before| == |w| && k < |w| && m < |w| && k != m
    requires Swapped(w, before, after, k, m)
    ensures Sols(after) == Sols(before)[k := 0][m := 1]
  {
    var x := Sols(before);
    forall i | 0 <= i < |after|
      ensures after[i].sol == x[k := 0][m := 1][i]
    {
      assert after[i] == before[i].(sol := if i == k then 0 else if i == m then 1 else before[i].sol,
                                    cl := before[i].cl + SwapDelta(w, k, m, i));
    }
    SolsOf(after, x[k := 0][m := 1]);
  }

  /** After an exchange every gain is exact if every gain was before. */
  lemma SwappedGains(w: Matrix, before: seq<Solution>, after: seq<Solution>, k: nat, m: nat)
    requires Symmetric(w) && |before| == |w| && k < |w| && m < |w|
    requires before[k].sol == 1 && before[m].sol == 0
    requires Swapped(w, before, after, k, m) && Sols(after) == Sols(before)[k := 0][m := 1]
    requires GainsExact(w, before)
    ensures GainsExact(w, after)
  {
    forall i | 0 <= i < |after|
      ensures after[i].cl == Gain(w, Sols(after), i)
    {
      SwappedGainAt(w, before, after, k, m, i);
    }
  }

  /** An exchange keeps the gains exact and moves the objective by
      gain(m) - gain(k) - w[k][m]. */
  lemma SwappedKeepsGains(w: Matrix, before: seq<Solution>, after: seq<Solution>, k: nat, m: nat)
    requires Symmetric(w) && |before| == |w| && k < |w| && m < |w|
    requires before[k].sol == 1 && before[m].sol == 0
    requires Swapped(w, before, after, k, m)
    ensures Sols(after) == Sols(before)[k := 0][m := 1]
    ensures GainsExact(w, before) ==> GainsExact(w, after)
    ensures GainsExact(w, before) ==>
      PairSum(w, Sols(after)) == PairSum(w, Sols(before)) + before[m].cl - before[k].cl - w[k][m]
  {
    SwappedSols(w, before, after, k, m);
    if GainsExact(w, before) {
      SwappedGains(w, before, after, k, m);
      SwapValue(w, Sols(before), k, m);
    }
  }

  /** Exchange member k for non-member m. */
  method Swap(ps: array<Solution>, w: Matrix, k: nat, m: nat)
    requires Symmetric(w) && ps.Length == |w| && k < |w| && m < |w|
    requires ps[k].sol == 1 && ps[m].sol == 0
    modifies ps
    ensures Swapped(w, old(ps[..]), ps[..], k, m)
    ensures Sols(ps[..]) == Sols(old(ps[..]))[k := 0][m := 1]
    ensures GainsExact(w, old(ps[..])) ==> GainsExact(w, ps[..])
    ensures GainsExact(w, old(ps[..])) ==>
      PairSum(w, Sols(ps[..])) == PairSum(w, Sols(old(ps[..]))) + old(ps[m].cl) - old(ps[k].cl) - w[k][m]
  {
    ghost var before := ps[..];
    ShiftForSwap(ps, w, k, m);
    ps[k] := ps[k].(sol := 0);
    ps[m] := ps[m].(sol := 1);
    assert Swapped(w, before, ps[..], k, m);
    SwappedKeepsGains(w, before, ps[..], k, m);
  }

  /** The gain updates of an exchange, before the two memberships change. */
  method ShiftForSwap(ps: array<Solution>, w: Matrix, k: nat, m: nat)
    requires Square(w) && ps.Length == |w| && k < |w| && m < |w|
    modifies ps
    ensures forall i :: 0 <= i < ps.Length ==> ps[i] == old(ps[i]).(cl := old(ps[i].cl) + SwapDelta(w, k, m, i))
  {
    var j := 0;
    while j < ps.Length
      invariant 0 <= j <= ps.Length
      invariant forall i :: 0 <= i < j ==> ps[i] == old(ps[i]).(cl := old(ps[i].cl) + SwapDelta(w, k, m, i))
      invariant forall i :: j <= i < ps.Length ==> ps[i] == old(ps[i])
    {
      if j != k {
        ps[j] := ps[j].(cl := ps[j].cl - w[j][k]);
      }
      if j != m {
        ps[j] := ps[j].(cl := ps[j].cl + w[j][m]);
      }
      j := j + 1;
    }
  }

  // ---------------------------------------------------------------------
  // The state every search keeps

  /** A 0/1 set with every gain exact and its size known. */
  predicate Tracked(w: Matrix, ps: seq<Solution>, clSize: int)
  {
    Symmetric(w) && |ps| == |w| && Binary(Sols(ps)) && GainsExact(w, ps) && clSize == Count(Sols(ps))
  }

  /** A flip keeps a 0/1 vector and moves its size by one. */
  lemma FlipCount(x: seq<int>, k: nat)
    requires Binary(x) && k < |x|
    ensures Binary(x[k := 1 - x[k]])
    ensures Count(x[k := 1 - x[k]]) == Count(x) + (if x[k] == 0 then 1 else -1)
  {
    TallyUpdate(x, k, 1 - x[k], 1);
  }

  /** An exchange keeps a 0/1 vector and its size. */
  lemma SwapCount(x: seq<int>, k: nat, m: nat)
    requires Binary(x) && k < |x| && m < |x| && x[k] == 1 && x[m] == 0
    ensures Binary(x[k := 0][m := 1]) && Count(x[k := 0][m := 1]) == Count(x)
  {
    TallyUpdate(x, k, 0, 1);
    TallyUpdate(x[k := 0], m, 1, 1);
  }

  /** A flip on a tracked state: the size moves by one and the objective by
      the flipped vertex's gain (its negation for a member). */
  method FlipMove(ps: array<Solution>, w: Matrix, k: nat, clSize: int) returns (clSize': int, gain: real)
    requires Tracked(w, ps[..], clSize) && k < ps.Length
    modifies ps
    ensures Tracked(w, ps[..], clSize')
    ensures Sols(ps[..]) == Sols(old(ps[..]))[k := 1 - old(ps[k].sol)]
    ensures clSize' == clSize + (if old(ps[k].sol) == 0 then 1 else -1)
    ensures gain == FlipGainOf(old(ps[k].sol), old(ps[k].cl))
    ensures PairSum(w, Sols(ps[..])) == PairSum(w, Sols(old(ps[..]))) + gain
    ensures Others(ps[..]) == Others(old(ps[..]))
  {
    ghost var x := Sols(ps[..]);
    FlipCount(x, k);
    gain := FlipGainOf(ps[k].sol, ps[k].cl);
    clSize' := if ps[k].sol == 0 then clSize + 1 else clSize - 1;
    Flip(ps, w, k);
  }

  /** An exchange on a tracked state: the size stays and the objective moves
      by gain(m) - gain(k) - w[k][m]. */
  method SwapMove(ps: array<Solution>, w: Matrix, k: nat, m: nat, clSize: int) returns (gain: real)
    requires Tracked(w, ps[..], clSize) && k < ps.Length && m < ps.Length
    requires ps[k].sol == 1 && ps[m].sol == 0
    modifies ps
    ensures Tracked(w, ps[..], clSize)
    ensures Sols(ps[..]) == Sols(old(ps[..]))[k := 0][m := 1]
    ensures gain == old(ps[m].cl) - old(ps[k].cl) - w[k][m]
    ensures PairSum(w, Sols(ps[..])) == PairSum(w, Sols(old(ps[..]))) + gain
    ensures Others(ps[..]) == Others(old(ps[..]))
  {
    ghost var x := Sols(ps[..]);
    SwapCount(x, k, m);
    gain := ps[m].cl - ps[k].cl - w[k][m];
    Swap(ps, w, k, m);
  }
}
