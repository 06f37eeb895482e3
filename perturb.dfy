/** The perturbation between two tabu searches.  Each step gathers a short
    list of the best moves among the vertices not moved yet in this
    perturbation (additions while |S| < b2, removals while |S| > b1,
    exchanges when |S| sits at a bound), makes one of them chosen at
    random, and marks the vertices it moved; steps go on until enough
    vertices have moved.  Tabu times play no part here. */
module Perturb {
  import opened Weights
  import opened Solutions
  import opened Moves
  import opened Local
  import opened Rng

  /** The "large" start value of the running minimum of the program. */
  const PosLarge: real := 30000.0

  /** A listed move: vertex v1 flips (v2 == -1) or member v1 is exchanged
      for non-member v2; d is its objective change. */
  datatype Cand = Cand(v1: int, v2: int, d: real)

  /** Move (k, m) is a perturbation move: a flip of a vertex not moved yet
      that the size bounds allow, or, at a size bound, an exchange of an
      unmoved member for an unmoved non-member. */
  predicate PertAllowed(ps: seq<Solution>, clSize: int, b1: int, b2: int, k: int, m: int)
  {
    0 <= k < |ps| && -1 <= m < |ps| && ps[k].val <= 0 &&
    if m == -1 then (ps[k].sol == 0 && clSize < b2) || (ps[k].sol == 1 && clSize > b1)
    else (clSize == b1 || clSize == b2) && ps[k].sol == 1 && ps[m].val <= 0 && ps[m].sol == 0
  }

  /** The list entry of move (k, m) with its objective change. */
  function CandOf(w: Matrix, ps: seq<Solution>, k: int, m: int): Cand
    requires Square(w) && |ps| == |w| && 0 <= k < |ps| && -1 <= m < |ps|
  {
    Cand(k, m, if m == -1 then FlipGainOf(ps[k].sol, ps[k].cl) else SwapGainOf(w, ps, k, m))
  }

  /** Every entry of the list is a perturbation move with its true change. */
  predicate Genuine(w: Matrix, ps: seq<Solution>, clSize: int, b1: int, b2: int, cands: seq<Cand>)
    requires Square(w) && |ps| == |w|
  {
    forall e :: e in cands ==>
      PertAllowed(ps, clSize, b1, b2, e.v1, e.v2) && e == CandOf(w, ps, e.v1, e.v2)
  }

  /** Move c is accounted for by the list: it is listed, or the list is
      full and c changes the objective by no more than any listed move. */
  predicate Covered(cands: seq<Cand>, size: int, c: Cand)
  {
    c in cands || (|cands| == size && forall j :: 0 <= j < |cands| ==> c.d <= cands[j].d)
  }

  /** Entry minind holds the smallest change minval of the list. */
  predicate MinAt(cands: seq<Cand>, minval: real, minind: int)
  {
    0 <= minind < |cands| && cands[minind].d == minval &&
    forall j :: 0 <= j < |cands| ==> minval <= cands[j].d
  }

  // ---------------------------------------------------------------------
  // The candidate list

  /** The rescan after a replacement: the first smallest entry. */
  method ListMin(cands: seq<Cand>) returns (minval: real, minind: int)
    requires |cands| > 0
    ensures MinAt(cands, minval, minind)
    ensures forall j :: 0 <= j < minind ==> cands[j].d > minval
  {
    minval, minind := cands[0].d, 0;
    var j := 1;
    while j < |cands|
      invariant 1 <= j <= |cands| && MinAt(cands[..j], minval, minind)
      invariant forall i :: 0 <= i < minind ==> cands[i].d > minval
    {
      if cands[j].d < minval {
        minval, minind := cands[j].d, j;
      }
      j := j + 1;
    }
    assert cands[..j] == cands;
  }

  /** Offers move c to a list of at most size entries: while the list has
      room c is appended, otherwise c replaces the smallest entry when it
      is larger.  Whatever the list accounted for stays accounted for, and
      c is accounted for too. */
  method Offer(cands: seq<Cand>, minval: real, minind: int, c: Cand, size: int)
    returns (cands': seq<Cand>, minval': real, minind': int)
    requires 1 <= size && |cands| <= size && (|cands| > 0 ==> MinAt(cands, minval, minind))
    ensures 0 < |cands'| <= size && MinAt(cands', minval', minind')
    ensures |cands| < size ==> cands' == cands + [c]
    ensures forall e :: e in cands' ==> e in cands || e == c
    ensures Covered(cands', size, c)
    ensures forall x {:trigger Covered(cands, size, x)} :: Covered(cands, size, x) ==> Covered(cands', size, x)
  {
    if |cands| < size {
      cands' := cands + [c];
      if |cands| == 0 || c.d < minval {
        minval', minind' := c.d, |cands|;
      } else {
        minval', minind' := minval, minind;
      }
    } else if c.d > minval {
      cands' := cands[minind := c];
      minval', minind' := ListMin(cands');
      forall x | Covered(cands, size, x)
        ensures Covered(cands', size, x)
      {
        if x in cands {
          var j :| 0 <= j < |cands| && cands[j] == x;
          if j != minind {
            assert cands'[j] == x;
          }
        }
      }
      assert cands'[minind] == c;
    } else {
      cands', minval', minind' := cands, minval, minind;
    }
  }

  /** The running minimum of the program while the list fills: it starts
      at PosLarge with no index, and an entry becomes the minimum only when
      it is below the current one.  The index is -1 while none has been
      assigned. */
  function FillMinAsWritten(cands: seq<Cand>): (r: (real, int))
    ensures r.1 == -1 ==> r.0 == PosLarge && forall j :: 0 <= j < |cands| ==> cands[j].d >= PosLarge
    ensures r.1 != -1 ==> 0 <= r.1 < |cands| && cands[r.1].d == r.0 < PosLarge
    ensures forall j :: 0 <= j < |cands| ==> r.0 <= cands[j].d
    decreases |cands|
  {
    if |cands| == 0 then (PosLarge, -1)
    else
      var p := FillMinAsWritten(cands[..|cands| - 1]);
      if cands[|cands| - 1].d < p.0 then (cands[|cands| - 1].d, |cands| - 1) else p
  }

  /** While every listed change is below PosLarge the running minimum of
      the program is the true minimum of the list. */
  lemma FillMinAgrees(cands: seq<Cand>)
    requires |cands| > 0 && forall j :: 0 <= j < |cands| ==> cands[j].d < PosLarge
    ensures MinAt(cands, FillMinAsWritten(cands).0, FillMinAsWritten(cands).1)
  {
  }

  /** A full list of the program's five entries whose changes are all at
      least PosLarge leaves the index unassigned, and the replacement that
      the next larger move triggers writes through it; kept by Offer, the
      minimum is entry 0. */
  lemma UnassignedMin()
    ensures var full := [Cand(0, -1, PosLarge), Cand(1, -1, PosLarge + 1.0), Cand(2, -1, PosLarge + 2.0),
                         Cand(3, -1, PosLarge + 3.0), Cand(4, -1, PosLarge + 4.0)];
      FillMinAsWritten(full).1 == -1 && MinAt(full, PosLarge, 0)
  {
    var full := [Cand(0, -1, PosLarge), Cand(1, -1, PosLarge + 1.0), Cand(2, -1, PosLarge + 2.0),
                 Cand(3, -1, PosLarge + 3.0), Cand(4, -1, PosLarge + 4.0)];
    assert forall j :: 0 <= j < |full| ==> full[j].d >= PosLarge;
  }

  /** The state of a list being filled: genuine, within size, its minimum
      known when it is not empty. */
  predicate ListInv(w: Matrix, ps: seq<Solution>, clSize: int, b1: int, b2: int,
                    cands: seq<Cand>, minval: real, minind: int, size: int)
    requires Square(w) && |ps| == |w|
  {
    Genuine(w, ps, clSize, b1, b2, cands) && 1 <= size && |cands| <= size &&
    (|cands| > 0 ==> MinAt(cands, minval, minind))
  }

  /** Offers every unmoved vertex with membership s as a flip. */
  method OfferFlips(w: Matrix, ps: seq<Solution>, clSize: int, b1: int, b2: int, s: int,
                    cands: seq<Cand>, minval: real, minind: int, size: int)
    returns (cands': seq<Cand>, minval': real, minind': int)
    requires Square(w) && |ps| == |w| && (s == 0 || s == 1)
    requires (s == 0 ==> clSize < b2) && (s == 1 ==> clSize > b1)
    requires ListInv(w, ps, clSize, b1, b2, cands, minval, minind, size)
    ensures ListInv(w, ps, clSize, b1, b2, cands', minval', minind', size)
    ensures forall x {:trigger Covered(cands, size, x)} :: Covered(cands, size, x) ==> Covered(cands', size, x)
    ensures forall k :: 0 <= k < |ps| && ps[k].val <= 0 && ps[k].sol == s ==> Covered(cands', size, CandOf(w, ps, k, -1))
  {
    cands', minval', minind' := cands, minval, minind;
    var k := 0;
    while k < |ps|
      invariant 0 <= k <= |ps| && ListInv(w, ps, clSize, b1, b2, cands', minval', minind', size)
      invariant forall x {:trigger Covered(cands, size, x)} :: Covered(cands, size, x) ==> Covered(cands', size, x)
      invariant forall v :: 0 <= v < k && ps[v].val <= 0 && ps[v].sol == s ==> Covered(cands', size, CandOf(w, ps, v, -1))
    {
      if ps[k].val <= 0 && ps[k].sol == s {
        ghost var before := cands';
        cands', minval', minind' := Offer(cands', minval', minind', CandOf(w, ps, k, -1), size);
        assert forall v :: 0 <= v < k && ps[v].val <= 0 && ps[v].sol == s ==> Covered(before, size, CandOf(w, ps, v, -1));
      }
      k := k + 1;
    }
  }

  /** Offers the exchanges of unmoved member k for every unmoved non-member. */
  method OfferSwapRow(w: Matrix, ps: seq<Solution>, clSize: int, b1: int, b2: int, k: int,
                      cands: seq<Cand>, minval: real, minind: int, size: int)
    returns (cands': seq<Cand>, minval': real, minind': int)
    requires Square(w) && |ps| == |w| && (clSize == b1 || clSize == b2)
    requires 0 <= k < |ps| && ps[k].val <= 0 && ps[k].sol == 1
    requires ListInv(w, ps, clSize, b1, b2, cands, minval, minind, size)
    ensures ListInv(w, ps, clSize, b1, b2, cands', minval', minind', size)
    ensures forall x {:trigger Covered(cands, size, x)} :: Covered(cands, size, x) ==> Covered(cands', size, x)
    ensures forall m :: 0 <= m < |ps| && ps[m].val <= 0 && ps[m].sol == 0 ==> Covered(cands', size, CandOf(w, ps, k, m))
  {
    cands', minval', minind' := cands, minval, minind;
    var m := 0;
    while m < |ps|
      invariant 0 <= m <= |ps| && ListInv(w, ps, clSize, b1, b2, cands', minval', minind', size)
      invariant forall x {:trigger Covered(cands, size, x)} :: Covered(cands, size, x) ==> Covered(cands', size, x)
      invariant forall v :: 0 <= v < m && ps[v].val <= 0 && ps[v].sol == 0 ==> Covered(cands', size, CandOf(w, ps, k, v))
    {
      if ps[m].val <= 0 && ps[m].sol == 0 {
        ghost var before := cands';
        cands', minval', minind' := Offer(cands', minval', minind', CandOf(w, ps, k, m), size);
        assert forall v :: 0 <= v < m && ps[v].val <= 0 && ps[v].sol == 0 ==> Covered(before, size, CandOf(w, ps, k, v));
      }
      m := m + 1;
    }
  }

  /** Offers every exchange of an unmoved member for an unmoved non-member. */
  method OfferSwaps(w: Matrix, ps: seq<Solution>, clSize: int, b1: int, b2: int,
                    cands: seq<Cand>, minval: real, minind: int, size: int)
    returns (cands': seq<Cand>, minval': real, minind': int)
    requires Square(w) && |ps| == |w| && (clSize == b1 || clSize == b2)
    requires ListInv(w, ps, clSize, b1, b2, cands, minval, minind, size)
    ensures ListInv(w, ps, clSize, b1, b2, cands', minval', minind', size)
    ensures forall x {:trigger Covered(cands, size, x)} :: Covered(cands, size, x) ==> Covered(cands', size, x)
    ensures forall k, m :: 0 <= m < |ps| && PertAllowed(ps, clSize, b1, b2, k, m) ==> Covered(cands', size, CandOf(w, ps, k, m))
  {
    cands', minval', minind' := cands, minval, minind;
    var k := 0;
    while k < |ps|
      invariant 0 <= k <= |ps| && ListInv(w, ps, clSize, b1, b2, cands', minval', minind', size)
      invariant forall x {:trigger Covered(cands, size, x)} :: Covered(cands, size, x) ==> Covered(cands', size, x)
      invariant forall u, m :: 0 <= u < k && 0 <= m < |ps| && PertAllowed(ps, clSize, b1, b2, u, m) ==>
        Covered(cands', size, CandOf(w, ps, u, m))
    {
      if ps[k].val <= 0 && ps[k].sol == 1 {
        ghost var before := cands';
        cands', minval', minind' := OfferSwapRow(w, ps, clSize, b1, b2, k, cands', minval', minind', size);
        assert forall u, m :: 0 <= u < k && 0 <= m < |ps| && PertAllowed(ps, clSize, b1, b2, u, m) ==>
          Covered(before, size, CandOf(w, ps, u, m));
      }
      k := k + 1;
    }
  }

  /** The list of one perturbation step: additions, then removals, then
      exchanges, as the size bounds allow.  Every entry is a perturbation
      move, and every perturbation move is listed or no better than any
      listed one, in which case the list is full. */
  method Collect(w: Matrix, ps: seq<Solution>, clSize: int, b1: int, b2: int, size: int)
    returns (cands: seq<Cand>)
    requires Square(w) && |ps| == |w| && 1 <= size
    ensures Genuine(w, ps, clSize, b1, b2, cands) && |cands| <= size
    ensures forall k, m :: PertAllowed(ps, clSize, b1, b2, k, m) ==> Covered(cands, size, CandOf(w, ps, k, m))
  {
    var minval, minind := PosLarge, 0;
    cands := [];
    if clSize < b2 {
      cands, minval, minind := OfferFlips(w, ps, clSize, b1, b2, 0, cands, minval, minind, size);
    }
    ghost var afterAdd := cands;
    if clSize > b1 {
      cands, minval, minind := OfferFlips(w, ps, clSize, b1, b2, 1, cands, minval, minind, size);
    }
    ghost var afterRemove := cands;
    if clSize == b1 || clSize == b2 {
      cands, minval, minind := OfferSwaps(w, ps, clSize, b1, b2, cands, minval, minind, size);
    }
    forall k, m | PertAllowed(ps, clSize, b1, b2, k, m)
      ensures Covered(cands, size, CandOf(w, ps, k, m))
    {
      if m == -1 {
        if ps[k].sol == 0 {
          assert Covered(afterAdd, size, CandOf(w, ps, k, m));
          assert Covered(afterRemove, size, CandOf(w, ps, k, m));
        } else {
          assert Covered(afterRemove, size, CandOf(w, ps, k, m));
        }
      }
    }
  }

  /** With no entry in the list there is no perturbation move at all. */
  lemma EmptyList(w: Matrix, ps: seq<Solution>, clSize: int, b1: int, b2: int, cands: seq<Cand>, size: int)
    requires Square(w) && |ps| == |w| && 1 <= size && |cands| == 0
    requires forall k, m :: PertAllowed(ps, clSize, b1, b2, k, m) ==> Covered(cands, size, CandOf(w, ps, k, m))
    ensures forall k, m :: !PertAllowed(ps, clSize, b1, b2, k, m)
  {
  }

  // ---------------------------------------------------------------------
  // The perturbation

  /** The moved-vertex marks. */
  function Vals(ps: seq<Solution>): (x: seq<int>)
    ensures |x| == |ps| && forall i :: 0 <= i < |ps| ==> x[i] == ps[i].val
  {
    seq(|ps|, i requires 0 <= i < |ps| => ps[i].val)
  }

  /** Makes move (k, m), a flip when m is -1 and otherwise the exchange of
      member k for non-member m, and marks the vertices it moves. */
  method MarkMove(ps: array<Solution>, w: Matrix, k: int, m: int, clSize: int) returns (clSize': int)
    requires Tracked(w, ps[..], clSize) && 0 <= k < ps.Length && -1 <= m < ps.Length
    requires m != -1 ==> ps[k].sol == 1 && ps[m].sol == 0
    modifies ps
    ensures Tracked(w, ps[..], clSize')
    ensures clSize' == clSize + (if m != -1 then 0 else if old(ps[k].sol) == 0 then 1 else -1)
    ensures PairSum(w, Sols(ps[..])) == PairSum(w, Sols(old(ps[..]))) + CandOf(w, old(ps[..]), k, m).d
    ensures forall i :: 0 <= i < ps.Length ==>
      ps[i] == old(ps[i]).(sol := if i == k || i == m then 1 - old(ps[i].sol) else old(ps[i].sol),
                           val := if i == k || i == m then 1 else old(ps[i].val), cl := ps[i].cl)
    ensures Tally(Vals(ps[..]), 1) ==
      Tally(Vals(old(ps[..])), 1) - (if old(ps[k].val) == 1 then 1 else 0) + 1 -
      (if m != -1 && old(ps[m].val) == 1 then 1 else 0) + (if m != -1 then 1 else 0)
  {
    if m == -1 {
      clSize' := MarkFlip(ps, w, k, clSize);
    } else {
      MarkSwap(ps, w, k, m, clSize);
      clSize' := clSize;
    }
  }

  /** MarkMove for a flip of k. */
  method MarkFlip(ps: array<Solution>, w: Matrix, k: int, clSize: int) returns (clSize': int)
    requires Tracked(w, ps[..], clSize) && 0 <= k < ps.Length
    modifies ps
    ensures Tracked(w, ps[..], clSize')
    ensures clSize' == clSize + (if old(ps[k].sol) == 0 then 1 else -1)
    ensures PairSum(w, Sols(ps[..])) == PairSum(w, Sols(old(ps[..]))) + FlipGainOf(old(ps[k].sol), old(ps[k].cl))
    ensures forall i :: 0 <= i < ps.Length ==>
      ps[i] == old(ps[i]).(sol := if i == k then 1 - old(ps[i].sol) else old(ps[i].sol),
                           val := if i == k then 1 else old(ps[i].val), cl := ps[i].cl)
    ensures Tally(Vals(ps[..]), 1) == Tally(Vals(old(ps[..])), 1) - (if old(ps[k].val) == 1 then 1 else 0) + 1
  {
    ghost var orig := ps[..];
    TallyUpdate(Vals(orig), k, 1, 1);
    var g;
    clSize', g := FlipMove(ps, w, k, clSize);
    ghost var moved := ps[..];
    Mark(ps, k, -1);
    MarkedVals(orig, moved, ps[..], k, -1);
    GainsKept(w, ps[..], moved);
  }

  /** MarkMove for the exchange of member k for non-member m. */
  method MarkSwap(ps: array<Solution>, w: Matrix, k: int, m: int, clSize: int)
    requires Tracked(w, ps[..], clSize) && 0 <= k < ps.Length && 0 <= m < ps.Length
    requires ps[k].sol == 1 && ps[m].sol == 0
    modifies ps
    ensures Tracked(w, ps[..], clSize)
    ensures PairSum(w, Sols(ps[..])) == PairSum(w, Sols(old(ps[..]))) + SwapGainOf(w, old(ps[..]), k, m)
    ensures forall i :: 0 <= i < ps.Length ==>
      ps[i] == old(ps[i]).(sol := if i == k || i == m then 1 - old(ps[i].sol) else old(ps[i].sol),
                           val := if i == k || i == m then 1 else old(ps[i].val), cl := ps[i].cl)
    ensures Tally(Vals(ps[..]), 1) ==
      Tally(Vals(old(ps[..])), 1) - (if old(ps[k].val) == 1 then 1 else 0) + 1 - (if old(ps[m].val) == 1 then 1 else 0) + 1
  {
    ghost var orig := ps[..];
    TallyUpdate(Vals(orig), k, 1, 1);
    var g := SwapMove(ps, w, k, m, clSize);
    ghost var moved := ps[..];
    Mark(ps, k, m);
    MarkedVals(orig, moved, ps[..], k, m);
    GainsKept(w, ps[..], moved);
    TallyUpdate(Vals(orig)[k := 1], m, 1, 1);
  }

  /** Mark vertex k, and vertex m unless it is -1, as moved. */
  method Mark(ps: array<Solution>, k: int, m: int)
    requires 0 <= k < ps.Length && -1 <= m < ps.Length
    modifies ps
    ensures forall i :: 0 <= i < ps.Length ==> ps[i] == old(ps[i]).(val := if i == k || i == m then 1 else old(ps[i].val))
  {
    ps[k] := ps[k].(val := 1);
    if m != -1 {
      ps[m] := ps[m].(val := 1);
    }
  }

  /** Marking the moved vertices k and m (m == -1 for none) after a move
      from orig to moved changes the marks alone. */
  lemma MarkedVals(orig: seq<Solution>, moved: seq<Solution>, after: seq<Solution>, k: int, m: int)
    requires |orig| == |moved| == |after| && 0 <= k < |orig| && -1 <= m < |orig|
    requires Others(moved) == Others(orig)
    requires forall i :: 0 <= i < |after| ==> after[i] == moved[i].(val := if i == k || i == m then 1 else moved[i].val)
    ensures Sols(after) == Sols(moved)
    ensures forall i :: 0 <= i < |after| ==> after[i].cl == moved[i].cl
    ensures Vals(after) == if m == -1 then Vals(orig)[k := 1] else Vals(orig)[k := 1][m := 1]
    ensures forall i :: 0 <= i < |after| ==>
      after[i] == orig[i].(sol := moved[i].sol, val := if i == k || i == m then 1 else orig[i].val, cl := moved[i].cl)
  {
    SolsOf(after, Sols(moved));
    var v := if m == -1 then Vals(orig)[k := 1] else Vals(orig)[k := 1][m := 1];
    forall i | 0 <= i < |after|
      ensures after[i].val == v[i]
      ensures after[i] == orig[i].(sol := moved[i].sol, val := if i == k || i == m then 1 else orig[i].val, cl := moved[i].cl)
    {
      assert Others(moved)[i] == Others(orig)[i];
    }
    ValsOf(after, v);
  }

  /** Vals(ps) is the vector of the records' marks. */
  lemma ValsOf(ps: seq<Solution>, x: seq<int>)
    requires |ps| == |x| && forall i :: 0 <= i < |x| ==> ps[i].val == x[i]
    ensures Vals(ps) == x
  {
  }

  /** The program's move code of a perturbation step (ITS.cpp:376-406)
      applied to a list record c as it stands, without checking that c is
      still a perturbation move: a flip of c.v1, or c.v1 leaving and c.v2
      joining, with every gain shifted as for that move and the moved
      vertices marked.  With an empty list the program applies it to the
      first list record, which still holds the last move listed. */
  function ReplayAsWritten(w: Matrix, ps: seq<Solution>, c: Cand): (r: seq<Solution>)
    requires Square(w) && |ps| == |w| && 0 <= c.v1 < |w| && -1 <= c.v2 < |w|
    ensures |r| == |ps|
    ensures c.v2 == -1 ==> Sols(r) == Sols(ps)[c.v1 := 1 - ps[c.v1].sol]
    ensures c.v2 != -1 ==> Sols(r) == Sols(ps)[c.v1 := 0][c.v2 := 1]
    ensures forall j :: 0 <= j < |r| ==>
      r[j].cl == ps[j].cl + (if c.v2 == -1 then FlipDelta(w, c.v1, ps[c.v1].sol, j) else SwapDelta(w, c.v1, c.v2, j))
  {
    seq(|ps|, j requires 0 <= j < |ps| =>
      if c.v2 == -1 then
        ps[j].(sol := if j == c.v1 then 1 - ps[j].sol else ps[j].sol,
               val := if j == c.v1 then 1 else ps[j].val,
               cl := ps[j].cl + FlipDelta(w, c.v1, ps[c.v1].sol, j))
      else
        ps[j].(sol := if j == c.v2 then 1 else if j == c.v1 then 0 else ps[j].sol,
               val := if j == c.v1 || j == c.v2 then 1 else ps[j].val,
               cl := ps[j].cl + SwapDelta(w, c.v1, c.v2, j)))
  }

  /** A record with membership s, gain cl and no mark. */
  function Rec(s: int, cl: real): Solution
  {
    Solution(s, 0, 0, 0, 0, 0, cl, 0.0, 0.0, 0.0)
  }

  /** The gains and the objective of three vertices written out. */
  lemma Three(w: Matrix, a: seq<real>)
    requires Square(w) && |w| == 3 && |a| == 3
    ensures Lin(w, a, 0) == w[0][1] * a[1] + w[0][2] * a[2]
    ensures Lin(w, a, 1) == w[0][1] * a[0] + w[1][2] * a[2]
    ensures Lin(w, a, 2) == w[0][2] * a[0] + w[1][2] * a[1]
    ensures Quad(w, a) == a[0] * (w[0][1] * a[1] + w[0][2] * a[2]) + a[1] * (w[1][2] * a[2])
  {
    assert TailTo(w, a, 0, 3) == w[0][1] * a[1] + w[0][2] * a[2] by {
      assert TailTo(w, a, 0, 1) == 0.0;
    }
    assert TailTo(w, a, 1, 3) == w[1][2] * a[2] by {
      assert TailTo(w, a, 1, 2) == 0.0;
    }
    assert TailTo(w, a, 2, 3) == 0.0;
    assert HeadTo(w, a, 1, 1) == w[0][1] * a[0] by {
      assert HeadTo(w, a, 1, 0) == 0.0;
    }
    assert HeadTo(w, a, 2, 2) == w[0][2] * a[0] + w[1][2] * a[1] by {
      assert HeadTo(w, a, 2, 1) == w[0][2] * a[0] by {
        assert HeadTo(w, a, 2, 0) == 0.0;
      }
    }
    assert QPre(w, a, 3) == RowTerm(w, a, 0) + RowTerm(w, a, 1) + RowTerm(w, a, 2) by {
      assert QPre(w, a, 0) == 0.0;
    }
  }

  /** The stale replay on three vertices with b1 = b2 = 2: the weights,
      the set {0, 1} with exact gains, and list entry 0 of its first step. */
  const StaleW: Matrix := [[0.0, 1.0, 2.0], [1.0, 0.0, 3.0], [2.0, 3.0, 0.0]]
  const StaleBefore: seq<Solution> := [Rec(1, 1.0), Rec(1, 1.0), Rec(0, 5.0)]
  const StaleCand: Cand := Cand(0, 2, 2.0)

  /** The first step: entry 0 of the list is the exchange (0, 2) with its
      true change 2; making it keeps the state tracked. */
  lemma StaleFirst()
    ensures Symmetric(StaleW) && Tracked(StaleW, StaleBefore, 2)
    ensures StaleCand == CandOf(StaleW, StaleBefore, 0, 2) && PertAllowed(StaleBefore, 2, 2, 2, 0, 2)
    ensures var mid := ReplayAsWritten(StaleW, StaleBefore, StaleCand);
      Tracked(StaleW, mid, 2) && PairSum(StaleW, Sols(mid)) == PairSum(StaleW, Sols(StaleBefore)) + StaleCand.d
  {
    var w, before, c := StaleW, StaleBefore, StaleCand;
    var mid := ReplayAsWritten(w, before, c);
    var x0, x1 := [1, 1, 0], [0, 1, 1];
    assert Sols(before) == x0 && Sols(mid) == x1;
    assert Ind(x0) == [1.0, 1.0, 0.0] && Ind(x1) == [0.0, 1.0, 1.0];
    Three(w, Ind(x0));
    Three(w, Ind(x1));
    assert x0[..2][..1][..0] == [] && x1[..2][..1][..0] == [];
    assert Tally(x0[..2][..1], 1) == 1 && Tally(x1[..2][..1], 1) == 0;
  }

  /** The second step: nothing can be listed, yet replaying entry 0 leaves
      the set as it is while the gains stop being exact and the value
      grows by the stale change. */
  lemma StaleSecond()
    ensures var mid := ReplayAsWritten(StaleW, StaleBefore, StaleCand);
      var after := ReplayAsWritten(StaleW, mid, StaleCand);
      (forall k, m :: !PertAllowed(mid, 2, 2, 2, k, m)) &&
      Sols(after) == Sols(mid) && !GainsExact(StaleW, after) &&
      PairSum(StaleW, Sols(after)) != PairSum(StaleW, Sols(mid)) + StaleCand.d
  {
    var w, c := StaleW, StaleCand;
    var mid := ReplayAsWritten(w, StaleBefore, c);
    var after := ReplayAsWritten(w, mid, c);
    var x1 := [0, 1, 1];
    assert Sols(mid) == x1 && Sols(after) == x1;
    assert Ind(x1) == [0.0, 1.0, 1.0];
    Three(w, Ind(x1));
    assert after[0].cl == 5.0 != Gain(w, x1, 0);
  }

  /** The program's stale replay, both steps together. */
  lemma StaleReplay()
    ensures var mid := ReplayAsWritten(StaleW, StaleBefore, StaleCand);
      var after := ReplayAsWritten(StaleW, mid, StaleCand);
      Tracked(StaleW, StaleBefore, 2) && StaleCand == CandOf(StaleW, StaleBefore, 0, 2) &&
      Tracked(StaleW, mid, 2) && (forall k, m :: !PertAllowed(mid, 2, 2, 2, k, m)) &&
      Sols(after) == Sols(mid) && !GainsExact(StaleW, after) &&
      PairSum(StaleW, Sols(after)) != PairSum(StaleW, Sols(mid)) + StaleCand.d
  {
    StaleFirst();
    StaleSecond();
  }

  /** One perturbation step: entry `pick` of the list, drawn once, is made
      and the vertices it moves are marked.  With an empty list nothing moves and
      the step reports it (`empty`); the program would instead replay the
      stale move left in the first list record (see ReplayAsWritten). */
  method PerturbStep(ps: array<Solution>, w: Matrix, b1: int, b2: int, size: int,
                     solValue: real, clSize: int, rng: Generator)
    returns (solValue': real, clSize': int, ind1: int, ind2: int, cands: seq<Cand>, pick: int, empty: bool)
    requires Tracked(w, ps[..], clSize) && b1 <= clSize <= b2 && solValue == PairSum(w, Sols(ps[..])) && 1 <= size
    modifies ps, rng
    ensures Genuine(w, old(ps[..]), clSize, b1, b2, cands) && |cands| <= size
    ensures forall k, m :: PertAllowed(old(ps[..]), clSize, b1, b2, k, m) ==> Covered(cands, size, CandOf(w, old(ps[..]), k, m))
    ensures rng.seed == Next(old(rng.seed)) && 0 <= rng.seed < Coef
    ensures empty <==> cands == []
    ensures pick == (rng.seed * |cands|) / (Coef + 1)
    ensures !empty ==> 0 <= pick < |cands| && cands[pick] == Cand(ind1, ind2, solValue' - solValue)
    ensures empty ==> ps[..] == old(ps[..]) && solValue' == solValue && clSize' == clSize
    ensures !empty ==> Cand(ind1, ind2, solValue' - solValue) in cands && PertAllowed(old(ps[..]), clSize, b1, b2, ind1, ind2)
    ensures !empty ==> Tracked(w, ps[..], clSize') && b1 <= clSize' <= b2 && solValue' == PairSum(w, Sols(ps[..]))
    ensures !empty ==> forall i :: 0 <= i < ps.Length ==>
      ps[i] == old(ps[i]).(sol := if i == ind1 || i == ind2 then 1 - old(ps[i].sol) else old(ps[i].sol),
                           val := if i == ind1 || i == ind2 then 1 else old(ps[i].val), cl := ps[i].cl)
    ensures !empty ==> Tally(Vals(ps[..]), 1) == Tally(Vals(old(ps[..])), 1) + (if ind2 == -1 then 1 else 2)
  {
    cands := Collect(w, ps[..], clSize, b1, b2, size);
    pick := rng.Pick(|cands|);
    solValue', clSize', ind1, ind2, empty := solValue, clSize, -1, -1, false;
    if |cands| == 0 {
      empty := true;
      return;
    }
    var c := cands[pick];
    assert c in cands;
    ind1, ind2 := c.v1, c.v2;
    solValue', clSize' := MakeCand(ps, w, c, b1, b2, solValue, clSize);
  }

  /** Make the listed perturbation move c and mark the vertices it moves. */
  method MakeCand(ps: array<Solution>, w: Matrix, c: Cand, b1: int, b2: int, solValue: real, clSize: int)
    returns (solValue': real, clSize': int)
    requires Tracked(w, ps[..], clSize) && b1 <= clSize <= b2 && solValue == PairSum(w, Sols(ps[..]))
    requires PertAllowed(ps[..], clSize, b1, b2, c.v1, c.v2) && c == CandOf(w, ps[..], c.v1, c.v2)
    modifies ps
    ensures solValue' == solValue + c.d
    ensures Tracked(w, ps[..], clSize') && b1 <= clSize' <= b2 && solValue' == PairSum(w, Sols(ps[..]))
    ensures forall i :: 0 <= i < ps.Length ==>
      ps[i] == old(ps[i]).(sol := if i == c.v1 || i == c.v2 then 1 - old(ps[i].sol) else old(ps[i].sol),
                           val := if i == c.v1 || i == c.v2 then 1 else old(ps[i].val), cl := ps[i].cl)
    ensures Tally(Vals(ps[..]), 1) == Tally(Vals(old(ps[..])), 1) + (if c.v2 == -1 then 1 else 2)
  {
    clSize' := MarkMove(ps, w, c.v1, c.v2, clSize);
    solValue' := solValue + c.d;
  }

  /** Clears every mark. */
  method ClearMarks(ps: array<Solution>)
    modifies ps
    ensures forall i :: 0 <= i < ps.Length ==> ps[i] == old(ps[i]).(val := 0)
  {
    var i := 0;
    while i < ps.Length
      invariant 0 <= i <= ps.Length
      invariant forall v :: 0 <= v < i ==> ps[v] == old(ps[v]).(val := 0)
      invariant forall v :: i <= v < ps.Length ==> ps[v] == old(ps[v])
    {
      ps[i] := ps[i].(val := 0);
      i := i + 1;
    }
  }

  /** The perturbation: steps run until count vertices have moved, each
      vertex at most once; the marks end up telling exactly which vertices
      changed side.  The state stays tracked within the bounds, solValue
      stays the objective, and the best set and the tabu times are left
      alone.  When no perturbation move is left the perturbation ends early
      (`early`), the corrected form of the program's stale replay. */
  method GetSolution(ps: array<Solution>, w: Matrix, b1: int, b2: int, count: int, size: int,
                     solValue: real, clSize: int, rng: Generator)
    returns (solValue': real, clSize': int, early: bool)
    requires Tracked(w, ps[..], clSize) && b1 <= clSize <= b2 && solValue == PairSum(w, Sols(ps[..])) && 1 <= size
    modifies ps, rng
    ensures Tracked(w, ps[..], clSize') && b1 <= clSize' <= b2 && solValue' == PairSum(w, Sols(ps[..]))
    ensures forall i :: 0 <= i < ps.Length ==>
      ps[i].bestSol == old(ps[i].bestSol) && ps[i].t == old(ps[i].t) &&
      0 <= ps[i].val <= 1 && (ps[i].val == 1 <==> ps[i].sol != old(ps[i].sol))
    ensures !early ==> Tally(Vals(ps[..]), 1) >= count
    ensures count >= 0 ==> Tally(Vals(ps[..]), 1) <= count + 1
    ensures early ==> Tally(Vals(ps[..]), 1) < count && forall k, m :: !PertAllowed(ps[..], clSize', b1, b2, k, m)
  {
    ghost var orig := ps[..];
    ClearMarks(ps);
    GainsKept(w, ps[..], orig);
    TallyZero(Vals(ps[..]), 1);
    solValue', clSize', early := solValue, clSize, false;
    var it := 0;
    while it < count
      invariant Tracked(w, ps[..], clSize') && b1 <= clSize' <= b2 && solValue' == PairSum(w, Sols(ps[..]))
      invariant forall i :: 0 <= i < ps.Length ==>
        ps[i].bestSol == orig[i].bestSol && ps[i].t == orig[i].t &&
        0 <= ps[i].val <= 1 && (ps[i].val == 1 <==> ps[i].sol != orig[i].sol)
      invariant it == Tally(Vals(ps[..]), 1)
      invariant count >= 0 ==> it <= count + 1
      decreases count - it
    {
      var ind1, ind2, cands, pick;
      solValue', clSize', ind1, ind2, cands, pick, early := PerturbStep(ps, w, b1, b2, size, solValue', clSize', rng);
      if early {
        return;
      }
      it := it + (if ind2 == -1 then 1 else 2);
    }
  }
}
