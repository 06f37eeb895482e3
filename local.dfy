/** The first-improvement local search run after every aspiration move of
    the tabu search: repeated passes of additions (while |S| < b2), removals
    (while |S| > b1) and exchanges (when |S| is at a bound), each move taken
    as soon as it gains more than the tolerance, until a whole round finds
    nothing. */
module Local {
  import opened Weights
  import opened Solutions
  import opened Moves

  /** No non-member would raise the objective by more than the tolerance. */
  predicate NoAdd(ps: seq<Solution>)
  {
    NoAddBelow(ps, |ps|)
  }

  predicate NoAddBelow(ps: seq<Solution>, i: nat)
  {
    forall k :: 0 <= k < i && k < |ps| && ps[k].sol == 0 ==> ps[k].cl <= Eps
  }

  /** No member would raise the objective by more than the tolerance by
      leaving. */
  predicate NoRemove(ps: seq<Solution>)
  {
    NoRemoveBelow(ps, |ps|)
  }

  predicate NoRemoveBelow(ps: seq<Solution>, i: nat)
  {
    forall k :: 0 <= k < i && k < |ps| && ps[k].sol == 1 ==> ps[k].cl >= -Eps
  }

  /** The objective change of exchanging member k for non-member m. */
  function SwapGainOf(w: Matrix, ps: seq<Solution>, k: nat, m: nat): real
    requires Square(w) && |ps| == |w| && k < |w| && m < |w|
  {
    ps[m].cl - ps[k].cl - w[k][m]
  }

  /** No exchange would raise the objective by more than the tolerance. */
  predicate NoSwap(w: Matrix, ps: seq<Solution>)
    requires Square(w) && |ps| == |w|
  {
    NoSwapBelow(w, ps, |ps|)
  }

  /** No exchange of a member below i gains more than the tolerance. */
  predicate NoSwapBelow(w: Matrix, ps: seq<Solution>, i: nat)
    requires Square(w) && |ps| == |w|
  {
    forall k :: 0 <= k < i && k < |ps| && ps[k].sol == 1 ==> NoSwapOf(w, ps, k, |ps|)
  }

  /** No exchange of member k for a non-member below i gains more than the
      tolerance. */
  predicate NoSwapOf(w: Matrix, ps: seq<Solution>, k: nat, i: nat)
    requires Square(w) && |ps| == |w| && k < |ps|
  {
    forall m :: 0 <= m < i && m < |ps| && ps[m].sol == 0 ==> SwapGainOf(w, ps, k, m) <= Eps
  }

  /** A local optimum for the moves the size bounds allow. */
  predicate LocalOpt(w: Matrix, ps: seq<Solution>, clSize: int, b1: int, b2: int)
    requires Square(w) && |ps| == |w|
  {
    (clSize < b2 ==> NoAdd(ps)) && (clSize > b1 ==> NoRemove(ps)) &&
    (clSize == b1 || clSize == b2 ==> NoSwap(w, ps))
  }

  /** How many tolerance steps the objective of x lies below its bound. */
  function Headroom(w: Matrix, x: seq<int>): int
    requires Square(w) && |x| == |w|
  {
    ((QAbs(w, |w|) - PairSum(w, x)) / Eps).Floor
  }

  /** A gain above the tolerance lowers the headroom, which stays
      non-negative. */
  lemma HeadroomDrop(w: Matrix, x: seq<int>, y: seq<int>, c: real)
    requires Square(w) && |x| == |w| && |y| == |w|
    requires PairSum(w, y) == PairSum(w, x) + c && c > Eps
    ensures 0 <= Headroom(w, y) < Headroom(w, x)
  {
    PairSumBound(w, y);
    var a := (QAbs(w, |w|) - PairSum(w, x)) / Eps;
    var b := (QAbs(w, |w|) - PairSum(w, y)) / Eps;
    assert b == a - c / Eps;
    assert c / Eps > 1.0;
  }

  // ---------------------------------------------------------------------
  // The three passes

  /** One pass of additions: every non-member whose gain exceeds the
      tolerance joins S, until S reaches b2.  `moved` tells whether any
      vertex joined; if none did, no addition gains anything. */
  method AddPass(ps: array<Solution>, w: Matrix, b2: int, clSize: int, itCount: int)
    returns (clSize': int, itCount': int, change: real, moved: bool)
    requires Tracked(w, ps[..], clSize) && clSize < b2
    modifies ps
    ensures Tracked(w, ps[..], clSize')
    ensures PairSum(w, Sols(ps[..])) == PairSum(w, Sols(old(ps[..]))) + change
    ensures clSize <= clSize' <= b2 && itCount' >= itCount
    ensures moved ==> change > Eps
    ensures !moved ==> ps[..] == old(ps[..]) && clSize' == clSize && change == 0.0 && NoAdd(ps[..])
    ensures Others(ps[..]) == Others(old(ps[..]))
  {
    clSize', itCount', change, moved := clSize, itCount, 0.0, false;
    var k := 0;
    while k < ps.Length
      invariant 0 <= k <= ps.Length
      invariant Tracked(w, ps[..], clSize') && Others(ps[..]) == Others(old(ps[..]))
      invariant PairSum(w, Sols(ps[..])) == PairSum(w, Sols(old(ps[..]))) + change
      invariant clSize <= clSize' < b2 && itCount' >= itCount
      invariant moved ==> change > Eps
      invariant !moved ==> ps[..] == old(ps[..]) && clSize' == clSize && change == 0.0
      invariant !moved ==> NoAddBelow(ps[..], k)
    {
      if ps[k].sol == 1 {
        k := k + 1;
        continue;
      }
      itCount' := itCount' + 1;
      if ps[k].cl <= Eps {
        k := k + 1;
        continue;
      }
      moved := true;
      var gain;
      clSize', gain := FlipMove(ps, w, k, clSize');
      change := change + gain;
      if clSize' >= b2 {
        break;
      }
      k := k + 1;
    }
  }

  /** One pass of removals: every member whose gain is below minus the
      tolerance leaves S, until S is down to b1. */
  method RemovePass(ps: array<Solution>, w: Matrix, b1: int, clSize: int, itCount: int)
    returns (clSize': int, itCount': int, change: real, moved: bool)
    requires Tracked(w, ps[..], clSize) && clSize > b1
    modifies ps
    ensures Tracked(w, ps[..], clSize')
    ensures PairSum(w, Sols(ps[..])) == PairSum(w, Sols(old(ps[..]))) + change
    ensures b1 <= clSize' <= clSize && itCount' >= itCount
    ensures moved ==> change > Eps
    ensures !moved ==> ps[..] == old(ps[..]) && clSize' == clSize && change == 0.0 && NoRemove(ps[..])
    ensures Others(ps[..]) == Others(old(ps[..]))
  {
    clSize', itCount', change, moved := clSize, itCount, 0.0, false;
    var k := 0;
    while k < ps.Length
      invariant 0 <= k <= ps.Length
      invariant Tracked(w, ps[..], clSize') && Others(ps[..]) == Others(old(ps[..]))
      invariant PairSum(w, Sols(ps[..])) == PairSum(w, Sols(old(ps[..]))) + change
      invariant b1 < clSize' <= clSize && itCount' >= itCount
      invariant moved ==> change > Eps
      invariant !moved ==> ps[..] == old(ps[..]) && clSize' == clSize && change == 0.0
      invariant !moved ==> NoRemoveBelow(ps[..], k)
    {
      if ps[k].sol == 0 {
        k := k + 1;
        continue;
      }
      itCount' := itCount' + 1;
      if ps[k].cl >= -Eps {
        k := k + 1;
        continue;
      }
      moved := true;
      var gain;
      clSize', gain := FlipMove(ps, w, k, clSize');
      change := change + gain;
      if clSize' <= b1 {
        break;
      }
      k := k + 1;
    }
  }

  /** The exchanges of member k: the first non-member m whose exchange gains
      more than the tolerance replaces k. */
  method SwapRow(ps: array<Solution>, w: Matrix, k: nat, clSize: int, itCount: int)
    returns (itCount': int, change: real, moved: bool)
    requires Tracked(w, ps[..], clSize) && k < ps.Length && ps[k].sol == 1
    modifies ps
    ensures Tracked(w, ps[..], clSize)
    ensures PairSum(w, Sols(ps[..])) == PairSum(w, Sols(old(ps[..]))) + change
    ensures itCount' >= itCount
    ensures moved ==> change > Eps
    ensures !moved ==> ps[..] == old(ps[..]) && change == 0.0 && NoSwapOf(w, ps[..], k, ps.Length)
    ensures Others(ps[..]) == Others(old(ps[..]))
  {
    itCount', change, moved := itCount, 0.0, false;
    var m := 0;
    while m < ps.Length
      invariant 0 <= m <= ps.Length
      invariant ps[..] == old(ps[..]) && NoSwapOf(w, ps[..], k, m) && itCount' >= itCount
    {
      if ps[m].sol == 1 {
        m := m + 1;
        continue;
      }
      itCount' := itCount' + 1;
      var del := ps[m].cl - ps[k].cl - w[k][m];
      if del <= Eps {
        m := m + 1;
        continue;
      }
      moved := true;
      change := SwapMove(ps, w, k, m, clSize);
      break;
    }
  }

  /** One pass of exchanges over every member. */
  method SwapPass(ps: array<Solution>, w: Matrix, clSize: int, itCount: int)
    returns (itCount': int, change: real, moved: bool)
    requires Tracked(w, ps[..], clSize)
    modifies ps
    ensures Tracked(w, ps[..], clSize)
    ensures PairSum(w, Sols(ps[..])) == PairSum(w, Sols(old(ps[..]))) + change
    ensures itCount' >= itCount
    ensures moved ==> change > Eps
    ensures !moved ==> ps[..] == old(ps[..]) && change == 0.0 && NoSwap(w, ps[..])
    ensures Others(ps[..]) == Others(old(ps[..]))
  {
    itCount', change, moved := itCount, 0.0, false;
    var k := 0;
    while k < ps.Length
      invariant 0 <= k <= ps.Length
      invariant Tracked(w, ps[..], clSize) && Others(ps[..]) == Others(old(ps[..]))
      invariant PairSum(w, Sols(ps[..])) == PairSum(w, Sols(old(ps[..]))) + change
      invariant itCount' >= itCount
      invariant moved ==> change > Eps
      invariant !moved ==> ps[..] == old(ps[..]) && change == 0.0 && NoSwapBelow(w, ps[..], k)
    {
      if ps[k].sol == 0 {
        k := k + 1;
        continue;
      }
      var c, mv;
      itCount', c, mv := SwapRow(ps, w, k, clSize, itCount');
      change := change + c;
      moved := moved || mv;
      k := k + 1;
    }
  }

  // ---------------------------------------------------------------------
  // The search

  /** One round: the passes the current size allows. */
  method Round(ps: array<Solution>, w: Matrix, b1: int, b2: int, clSize: int, itCount: int)
    returns (clSize': int, itCount': int, change: real, moved: bool)
    requires Tracked(w, ps[..], clSize)
    modifies ps
    ensures Tracked(w, ps[..], clSize')
    ensures PairSum(w, Sols(ps[..])) == PairSum(w, Sols(old(ps[..]))) + change
    ensures itCount' >= itCount
    ensures b1 <= clSize <= b2 ==> b1 <= clSize' <= b2
    ensures moved ==> change > Eps
    ensures !moved ==> ps[..] == old(ps[..]) && clSize' == clSize && change == 0.0 && LocalOpt(w, ps[..], clSize, b1, b2)
    ensures Others(ps[..]) == Others(old(ps[..]))
  {
    clSize', itCount', change, moved := clSize, itCount, 0.0, false;
    if clSize' < b2 {
      var c, mv;
      clSize', itCount', c, mv := AddPass(ps, w, b2, clSize', itCount');
      change, moved := change + c, moved || mv;
    }
    if clSize' > b1 {
      var c, mv;
      clSize', itCount', c, mv := RemovePass(ps, w, b1, clSize', itCount');
      change, moved := change + c, moved || mv;
    }
    if clSize' == b1 || clSize' == b2 {
      var c, mv;
      itCount', c, mv := SwapPass(ps, w, clSize', itCount');
      change, moved := change + c, moved || mv;
    }
  }

  /** The local search: rounds are repeated until one makes no move.  The
      objective rises by `valueChange`, which is zero (nothing moved) or
      above the tolerance; a size within the bounds stays within them; and
      the result is a local optimum for every move the final size allows.
      The search ends because each round that moves raises the objective by
      more than the tolerance and the objective is bounded. */
  method LocalSearch(ps: array<Solution>, w: Matrix, b1: int, b2: int, clSize: int, itCount: int)
    returns (clSize': int, itCount': int, valueChange: real)
    requires Tracked(w, ps[..], clSize)
    modifies ps
    ensures Tracked(w, ps[..], clSize')
    ensures PairSum(w, Sols(ps[..])) == PairSum(w, Sols(old(ps[..]))) + valueChange
    ensures valueChange == 0.0 || valueChange > Eps
    ensures valueChange == 0.0 ==> ps[..] == old(ps[..]) && clSize' == clSize
    ensures b1 <= clSize <= b2 ==> b1 <= clSize' <= b2
    ensures LocalOpt(w, ps[..], clSize', b1, b2)
    ensures itCount' >= itCount
    ensures Others(ps[..]) == Others(old(ps[..]))
  {
    clSize', itCount', valueChange := clSize, itCount, 0.0;
    var repeat := true;
    PairSumBound(w, Sols(ps[..]));
    while repeat
      invariant Tracked(w, ps[..], clSize') && Others(ps[..]) == Others(old(ps[..]))
      invariant PairSum(w, Sols(ps[..])) == PairSum(w, Sols(old(ps[..]))) + valueChange
      invariant (valueChange == 0.0 && ps[..] == old(ps[..]) && clSize' == clSize) || valueChange > Eps
      invariant b1 <= clSize <= b2 ==> b1 <= clSize' <= b2
      invariant itCount' >= itCount
      invariant !repeat ==> LocalOpt(w, ps[..], clSize', b1, b2)
      invariant 0 <= Headroom(w, Sols(ps[..]))
      decreases Headroom(w, Sols(ps[..])), if repeat then 1 else 0
    {
      ghost var before := Sols(ps[..]);
      var c, moved;
      clSize', itCount', c, moved := Round(ps, w, b1, b2, clSize', itCount');
      if moved {
        HeadroomDrop(w, before, Sols(ps[..]), c);
      }
      valueChange := valueChange + c;
      repeat := moved;
    }
  }
}
