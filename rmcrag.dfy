/** The greedy selection of k clusterings: a set of clustering labels is
    scored by the mean of the pairwise weights between its members, plus
    their spread around that mean, plus the number of members still
    missing (k - |S|).  Sets are grown one best member at a time, best
    first.  A set of labels (a `std::set<int>`) is a strictly increasing
    sequence; weights are exact reals, and the square of the program's
    `pow(x, 2)` is x * x. */
module Rmcrag {
  import opened Weights
  import opened Binomial

  // ---------------------------------------------------------------------
  // Label sets

  /** Strictly increasing: the ordered contents of a set. */
  predicate Sorted(s: seq<int>)
  {
    forall i, j :: 0 <= i < j < |s| ==> s[i] < s[j]
  }

  /** Every label indexes the weight matrix. */
  predicate InRange(w: Matrix, s: seq<int>)
  {
    forall i :: 0 <= i < |s| ==> 0 <= s[i] < |w|
  }

  /** The set s with c added. */
  function Insert(s: seq<int>, c: int): (r: seq<int>)
    decreases |s|
  {
    if |s| == 0 then [c]
    else if c < s[0] then [c] + s
    else if c == s[0] then s
    else [s[0]] + Insert(s[1..], c)
  }

  /** Inserting c into an ordered set gives an ordered set holding exactly
      the old members and c, one longer when c was not a member. */
  lemma {:induction false} InsertProps(s: seq<int>, c: int)
    requires Sorted(s)
    ensures Sorted(Insert(s, c))
    ensures forall x :: x in Insert(s, c) <==> x in s || x == c
    ensures |Insert(s, c)| == if c in s then |s| else |s| + 1
    decreases |s|
  {
    if |s| > 0 && c > s[0] {
      InsertProps(s[1..], c);
      assert forall x :: x in s <==> x == s[0] || x in s[1..];
      var r := Insert(s, c);
      assert r == [s[0]] + Insert(s[1..], c);
      forall i, j | 0 <= i < j < |r|
        ensures r[i] < r[j]
      {
        if i == 0 {
          assert r[j] in Insert(s[1..], c);
        }
      }
    }
  }

  // ---------------------------------------------------------------------
  // Pair sums

  /** The sum of w[x][y] over the labels y of t. */
  function Row(w: Matrix, x: int, t: seq<int>): real
    requires Square(w) && 0 <= x < |w| && InRange(w, t)
    decreases |t|
  {
    if |t| == 0 then 0.0 else Row(w, x, t[..|t| - 1]) + w[x][t[|t| - 1]]
  }

  /** The sum of the weights of all pairs of members of s. */
  function PairTotal(w: Matrix, s: seq<int>): real
    requires Square(w) && InRange(w, s)
    decreases |s|
  {
    if |s| == 0 then 0.0 else Row(w, s[0], s[1..]) + PairTotal(w, s[1..])
  }

  /** The sum of (m - w[x][y])^2 over the labels y of t. */
  function RowDev(w: Matrix, m: real, x: int, t: seq<int>): real
    requires Square(w) && 0 <= x < |w| && InRange(w, t)
    decreases |t|
  {
    if |t| == 0 then 0.0
    else RowDev(w, m, x, t[..|t| - 1]) + (m - w[x][t[|t| - 1]]) * (m - w[x][t[|t| - 1]])
  }

  /** The sum of (m - weight)^2 over all pairs of members of s. */
  function PairDev(w: Matrix, m: real, s: seq<int>): real
    requires Square(w) && InRange(w, s)
    decreases |s|
  {
    if |s| == 0 then 0.0 else RowDev(w, m, s[0], s[1..]) + PairDev(w, m, s[1..])
  }

  /** The number of pairs of a p-set, C(p, 2), as a real. */
  function Pairs(p: nat): real
  {
    Binom(p, 2) as real
  }

  lemma PairsPositive(p: nat)
    requires p >= 2
    ensures Pairs(p) > 0.0 && 2 * Binom(p, 2) == p * (p - 1)
  {
    BinomTwo(p);
  }

  /** The mean weight of the pairs of s. */
  function MeanWeight(w: Matrix, s: seq<int>): real
    requires Square(w) && InRange(w, s) && |s| >= 2
  {
    PairsPositive(|s|);
    PairTotal(w, s) / Pairs(|s|)
  }

  /** The mean square deviation of the pair weights of s from their mean. */
  function Spread(w: Matrix, s: seq<int>): real
    requires Square(w) && InRange(w, s) && |s| >= 2
  {
    PairsPositive(|s|);
    PairDev(w, MeanWeight(w, s), s) / Pairs(|s|)
  }

  /** The cost of s for target size k. */
  function Cost(w: Matrix, s: seq<int>, k: int): real
    requires Square(w) && InRange(w, s) && |s| >= 2
  {
    MeanWeight(w, s) + Spread(w, s) + (k - |s|) as real
  }

  /** The cost as the program computes it: k - |s| is taken as an
      unsigned 64-bit difference, so it wraps around when |s| > k. */
  function CostAsWritten(w: Matrix, s: seq<int>, k: int): real
    requires Square(w) && InRange(w, s) && |s| >= 2
  {
    MeanWeight(w, s) + Spread(w, s) + ((k - |s|) % 0x1_0000_0000_0000_0000) as real
  }

  // ---------------------------------------------------------------------
  // Facts about the scores

  /** Row sums of a constant weight count the labels. */
  lemma {:induction false} RowConst(w: Matrix, x: int, t: seq<int>, c: real)
    requires Square(w) && 0 <= x < |w| && InRange(w, t)
    requires forall j :: 0 <= j < |t| ==> w[x][t[j]] == c
    ensures Row(w, x, t) == c * |t| as real
    ensures RowDev(w, c, x, t) == 0.0
    decreases |t|
  {
    if |t| > 0 {
      RowConst(w, x, t[..|t| - 1], c);
    }
  }

  /** With one weight c between all members, the pairs add up to c C(p, 2)
      and deviate from c by nothing. */
  lemma {:induction false} PairConst(w: Matrix, s: seq<int>, c: real)
    requires Square(w) && InRange(w, s)
    requires forall i, j :: 0 <= i < j < |s| ==> w[s[i]][s[j]] == c
    ensures PairTotal(w, s) == c * Pairs(|s|)
    ensures PairDev(w, c, s) == 0.0
    decreases |s|
  {
    if |s| > 0 {
      var t := s[1..];
      RowConst(w, s[0], t, c);
      PairConst(w, t, c);
      var p := |s|;
      BinomOne(p - 1);
      assert Pairs(p) == (p - 1) as real + Pairs(p - 1);
      Scale(c, (p - 1) as real, Pairs(p - 1));
    }
  }

  lemma Scale(c: real, a: real, b: real)
    ensures c * a + c * b == c * (a + b)
  {
  }

  /** The mean of equal weights is that weight, and their spread is 0. */
  lemma ConstantScores(w: Matrix, s: seq<int>, c: real)
    requires Square(w) && InRange(w, s) && |s| >= 2
    requires forall i, j :: 0 <= i < j < |s| ==> w[s[i]][s[j]] == c
    ensures MeanWeight(w, s) == c && Spread(w, s) == 0.0
  {
    PairConst(w, s, c);
    PairsPositive(|s|);
    CancelDiv(c, Pairs(|s|));
  }

  lemma CancelDiv(c: real, d: real)
    requires d > 0.0
    ensures (c * d) / d == c && (1.0 / d) * (c * d) == c
  {
  }

  /** Squares add up to no less than 0. */
  lemma {:induction false} DevNonneg(w: Matrix, m: real, s: seq<int>)
    requires Square(w) && InRange(w, s)
    ensures PairDev(w, m, s) >= 0.0
    decreases |s|
  {
    if |s| > 0 {
      RowDevNonneg(w, m, s[0], s[1..]);
      DevNonneg(w, m, s[1..]);
    }
  }

  lemma {:induction false} RowDevNonneg(w: Matrix, m: real, x: int, t: seq<int>)
    requires Square(w) && 0 <= x < |w| && InRange(w, t)
    ensures RowDev(w, m, x, t) >= 0.0
    decreases |t|
  {
    if |t| > 0 {
      RowDevNonneg(w, m, x, t[..|t| - 1]);
      var d := m - w[x][t[|t| - 1]];
      assert d * d >= 0.0;
    }
  }

  /** The spread is never negative. */
  lemma SpreadNonneg(w: Matrix, s: seq<int>)
    requires Square(w) && InRange(w, s) && |s| >= 2
    ensures Spread(w, s) >= 0.0
  {
    DevNonneg(w, MeanWeight(w, s), s);
    PairsPositive(|s|);
  }

  /** The wrap-around is invisible while |s| <= k, and adds 2^64 once
      |s| > k >= 0. */
  lemma CostWrap(w: Matrix, s: seq<int>, k: int)
    requires Square(w) && InRange(w, s) && |s| >= 2 && |s| <= k + 0x1_0000_0000_0000_0000
    ensures |s| <= k ==> k - |s| < 0x1_0000_0000_0000_0000 ==> CostAsWritten(w, s, k) == Cost(w, s, k)
    ensures |s| > k ==> CostAsWritten(w, s, k) == Cost(w, s, k) + 0x1_0000_0000_0000_0000 as real
  {
  }

  /** The smallest case the program accepts, k = 1 with two clusterings of
      weight 1: the seed {0, 1} costs 1 + 0 + (1 - 2) = 0, and as written
      2^64. */
  lemma CostWrapExample()
    ensures var w := [[0.0, 1.0], [1.0, 0.0]];
      Square(w) && InRange(w, [0, 1])
      && Cost(w, [0, 1], 1) == 0.0
      && CostAsWritten(w, [0, 1], 1) == 0x1_0000_0000_0000_0000 as real
  {
    var w := [[0.0, 1.0], [1.0, 0.0]];
    assert Square(w);
    ConstantScores(w, [0, 1], 1.0);
  }

  // ---------------------------------------------------------------------
  // The score loops

  /** One pass of the inner loop of the mean: adds w[s[i]][y] for the
      members y of s above s[i]. */
  method MeanRow(w: Matrix, s: seq<int>, i: nat, sum: real) returns (sum': real)
    requires Square(w) && InRange(w, s) && Sorted(s) && i < |s|
    ensures sum' == sum + Row(w, s[i], s[i + 1..])
  {
    sum' := sum;
    var j := 0;
    while j < |s|
      invariant 0 <= j <= |s|
      invariant sum' == sum + (if j <= i + 1 then 0.0 else Row(w, s[i], s[i + 1..j]))
    {
      if s[i] < s[j] {
        assert s[i + 1..j + 1][..j - i - 1] == s[i + 1..j];
        sum' := sum' + w[s[i]][s[j]];
      } else {
        assert j <= i;
      }
      j := j + 1;
    }
    assert s[i + 1..|s|] == s[i + 1..];
  }

  /** The mean pair weight: the sum over the pairs a < b of members, times
      1 / C(p, 2).  A set of at most one member stops the program (halt). */
  method Ganmi(w: Matrix, s: seq<int>) returns (r: real, halt: bool)
    requires Square(w) && InRange(w, s) && Sorted(s)
    ensures halt <==> |s| <= 1
    ensures !halt ==> r == MeanWeight(w, s)
  {
    var p := |s|;
    if p <= 1 {
      return 0.0, true;
    }
    halt := false;
    var c := BinomialCoefficient(p, 2);
    PairsPositive(p);
    var factor := 1.0 / c as real;
    var sum := PairLoop(w, s);
    r := factor * sum;
    DivAsProduct(sum, c as real);
  }

  /** The double loop of the mean: the sum over the pairs a < b of members. */
  method PairLoop(w: Matrix, s: seq<int>) returns (sum: real)
    requires Square(w) && InRange(w, s) && Sorted(s)
    ensures sum == PairTotal(w, s)
  {
    sum := 0.0;
    var i := 0;
    while i < |s|
      invariant 0 <= i <= |s|
      invariant sum + PairTotal(w, s[i..]) == PairTotal(w, s)
    {
      sum := MeanRow(w, s, i, sum);
      assert s[i..][1..] == s[i + 1..];
      i := i + 1;
    }
  }

  lemma DivAsProduct(x: real, d: real)
    requires d > 0.0
    ensures (1.0 / d) * x == x / d
  {
  }

  /** One pass of the inner loop of the spread: adds (mean - w[s[i]][y])^2
      for the members y of s above s[i], the mean being recomputed for each. */
  method SpreadRow(w: Matrix, s: seq<int>, i: nat, sum: real) returns (sum': real)
    requires Square(w) && InRange(w, s) && Sorted(s) && 1 < |s| && i < |s|
    ensures sum' == sum + RowDev(w, MeanWeight(w, s), s[i], s[i + 1..])
  {
    sum' := sum;
    var j := 0;
    while j < |s|
      invariant 0 <= j <= |s|
      invariant sum' == sum + (if j <= i + 1 then 0.0 else RowDev(w, MeanWeight(w, s), s[i], s[i + 1..j]))
    {
      if s[i] < s[j] {
        var g, h := Ganmi(w, s);
        assert s[i + 1..j + 1][..j - i - 1] == s[i + 1..j];
        sum' := sum' + (g - w[s[i]][s[j]]) * (g - w[s[i]][s[j]]);
      } else {
        assert j <= i;
      }
      j := j + 1;
    }
    assert s[i + 1..|s|] == s[i + 1..];
  }

  /** The spread: the sum over the pairs of (mean - weight)^2, times
      1 / C(p, 2). */
  method Gvnmi(w: Matrix, s: seq<int>) returns (r: real, halt: bool)
    requires Square(w) && InRange(w, s) && Sorted(s)
    ensures halt <==> |s| <= 1
    ensures !halt ==> r == Spread(w, s) && r >= 0.0
  {
    var p := |s|;
    if p <= 1 {
      return 0.0, true;
    }
    halt := false;
    var c := BinomialCoefficient(p, 2);
    PairsPositive(p);
    var factor := 1.0 / c as real;
    var sum := DevLoop(w, s);
    r := factor * sum;
    DivAsProduct(sum, c as real);
    SpreadNonneg(w, s);
  }

  /** The double loop of the spread: the sum over the pairs a < b of
      members of (mean - weight)^2. */
  method DevLoop(w: Matrix, s: seq<int>) returns (sum: real)
    requires Square(w) && InRange(w, s) && Sorted(s) && |s| > 1
    ensures sum == PairDev(w, MeanWeight(w, s), s)
  {
    ghost var m := MeanWeight(w, s);
    sum := 0.0;
    var i := 0;
    while i < |s|
      invariant 0 <= i <= |s|
      invariant sum + PairDev(w, m, s[i..]) == PairDev(w, m, s)
    {
      sum := SpreadRow(w, s, i, sum);
      assert s[i..][1..] == s[i + 1..];
      i := i + 1;
    }
  }

  /** Mean plus spread. */
  method Mvnmi(w: Matrix, s: seq<int>) returns (r: real, halt: bool)
    requires Square(w) && InRange(w, s) && Sorted(s)
    ensures halt <==> |s| <= 1
    ensures !halt ==> r == MeanWeight(w, s) + Spread(w, s) && r >= MeanWeight(w, s)
  {
    var a, h1 := Ganmi(w, s);
    if h1 {
      return 0.0, true;
    }
    var b, h2 := Gvnmi(w, s);
    r, halt := a + b, false;
  }

  /** The cost of s for target size k, the size term taken as a signed
      difference. */
  method GetCost(w: Matrix, s: seq<int>, k: int) returns (r: real, halt: bool)
    requires Square(w) && InRange(w, s) && Sorted(s)
    ensures halt <==> |s| <= 1
    ensures !halt ==> r == Cost(w, s, k)
    ensures !halt && |s| > k ==> r < MeanWeight(w, s) + Spread(w, s)
  {
    var m;
    m, halt := Mvnmi(w, s);
    r := m + (k - |s|) as real;
  }

  // ---------------------------------------------------------------------
  // Growing label sets

  /** Inserting a label that indexes the matrix keeps a set in range. */
  lemma InsertInRange(w: Matrix, s: seq<int>, c: int)
    requires Sorted(s) && InRange(w, s) && 0 <= c < |w|
    ensures Sorted(Insert(s, c)) && InRange(w, Insert(s, c))
    ensures |Insert(s, c)| == if c in s then |s| else |s| + 1
    ensures forall x :: x in Insert(s, c) <==> x in s || x == c
  {
    InsertProps(s, c);
    var r := Insert(s, c);
    forall i | 0 <= i < |r|
      ensures 0 <= r[i] < |w|
    {
      assert r[i] in r;
      if r[i] != c {
        var j :| 0 <= j < |s| && s[j] == r[i];
      }
    }
  }

  /** The cost of initial + {c}. */
  function ExtensionCost(w: Matrix, initial: seq<int>, c: int, k: int): real
    requires Square(w) && Sorted(initial) && InRange(w, initial) && |initial| >= 1
    requires 0 <= c < |w| && c !in initial
  {
    InsertInRange(w, initial, c);
    Cost(w, Insert(initial, c), k)
  }

  /** A candidate extension: the extended set and its cost. */
  datatype Ext = Ext(members: seq<int>, cost: real)

  /** An index of a largest entry: the top of a priority queue ordered by
      cost, ties broken in an unspecified way. */
  method MaxIndex(costs: seq<real>) returns (m: nat)
    requires |costs| > 0
    ensures m < |costs| && forall t :: 0 <= t < |costs| ==> costs[t] <= costs[m]
  {
    m := 0;
    var t := 1;
    while t < |costs|
      invariant 1 <= t <= |costs| && m < t
      invariant forall u :: 0 <= u < t ==> costs[u] <= costs[m]
    {
      if costs[t] > costs[m] {
        m := t;
      }
      t := t + 1;
    }
  }

  function ExtCosts(q: seq<Ext>): (r: seq<real>)
    ensures |r| == |q| && forall t :: 0 <= t < |q| ==> r[t] == q[t].cost
  {
    seq(|q|, t requires 0 <= t < |q| => q[t].cost)
  }

  /** What the candidates gathered from all[..i] satisfy: one per label
      outside initial, q[t] coming from position from[t] of all, and the
      label at position j < i being the one of candidate pos[j]. */
  predicate CandInv(initial: seq<int>, all: seq<int>, w: Matrix, k: int, i: int,
                    q: seq<Ext>, from: seq<int>, pos: seq<int>)
    requires Square(w) && Sorted(initial) && InRange(w, initial) && InRange(w, all)
  {
    0 <= i <= |all| && |from| == |q| && |pos| == i
    && (|initial| == 0 ==> forall j :: 0 <= j < i ==> all[j] in initial)
    && (forall t :: 0 <= t < |q| ==> 0 <= from[t] < i && all[from[t]] !in initial && |initial| >= 1)
    && (forall t :: 0 <= t < |q| ==> q[t].members == Insert(initial, all[from[t]]))
    && (forall t :: 0 <= t < |q| ==> q[t].cost == ExtensionCost(w, initial, all[from[t]], k))
    && (forall j :: 0 <= j < i && all[j] !in initial ==> 0 <= pos[j] < |q| && from[pos[j]] == j)
  }

  /** The candidate of largest cost costs at least as much as the
      extension by any label outside initial. */
  lemma BestCandidate(initial: seq<int>, all: seq<int>, w: Matrix, k: int,
                      q: seq<Ext>, from: seq<int>, pos: seq<int>, m: nat)
    requires Square(w) && Sorted(initial) && InRange(w, initial) && InRange(w, all)
    requires CandInv(initial, all, w, k, |all|, q, from, pos) && m < |q|
    requires forall t :: 0 <= t < |q| ==> ExtCosts(q)[t] <= ExtCosts(q)[m]
    ensures forall j :: 0 <= j < |all| && all[j] !in initial ==> ExtensionCost(w, initial, all[j], k) <= q[m].cost
  {
    forall j | 0 <= j < |all| && all[j] !in initial
      ensures ExtensionCost(w, initial, all[j], k) <= q[m].cost
    {
      var t := pos[j];
      assert ExtCosts(q)[t] <= ExtCosts(q)[m];
    }
  }

  /** A label of initial gives no candidate. */
  lemma CandInvSkip(initial: seq<int>, all: seq<int>, w: Matrix, k: int, i: int,
                    q: seq<Ext>, from: seq<int>, pos: seq<int>)
    requires Square(w) && Sorted(initial) && InRange(w, initial) && InRange(w, all)
    requires 0 <= i < |all| && all[i] in initial && CandInv(initial, all, w, k, i, q, from, pos)
    ensures CandInv(initial, all, w, k, i + 1, q, from, pos + [-1])
  {
    var pos' := pos + [-1];
    forall j | 0 <= j < i + 1 && all[j] !in initial
      ensures 0 <= pos'[j] < |q| && from[pos'[j]] == j
    {
      assert j < i && pos'[j] == pos[j];
    }
  }

  /** A label outside initial gives the candidate initial + {all[i]}. */
  lemma CandInvAdd(initial: seq<int>, all: seq<int>, w: Matrix, k: int, i: int,
                   q: seq<Ext>, from: seq<int>, pos: seq<int>, c: real)
    requires Square(w) && Sorted(initial) && InRange(w, initial) && InRange(w, all)
    requires 0 <= i < |all| && all[i] !in initial && |initial| >= 1
    requires CandInv(initial, all, w, k, i, q, from, pos)
    requires c == ExtensionCost(w, initial, all[i], k)
    ensures CandInv(initial, all, w, k, i + 1, q + [Ext(Insert(initial, all[i]), c)], from + [i], pos + [|q|])
  {
    var q', from', pos' := q + [Ext(Insert(initial, all[i]), c)], from + [i], pos + [|q|];
    forall t | 0 <= t < |q'|
      ensures 0 <= from'[t] < i + 1 && all[from'[t]] !in initial
      ensures q'[t].members == Insert(initial, all[from'[t]])
      ensures q'[t].cost == ExtensionCost(w, initial, all[from'[t]], k)
    {
      if t < |q| {
        assert q'[t] == q[t] && from'[t] == from[t];
      }
    }
    forall j | 0 <= j < i + 1 && all[j] !in initial
      ensures 0 <= pos'[j] < |q'| && from'[pos'[j]] == j
    {
      if j < i {
        assert pos'[j] == pos[j];
      }
    }
  }

  /** One turn of the loop of the best extension: the label all[i] gives a
      candidate when it is not in initial. */
  method Consider(initial: seq<int>, all: seq<int>, w: Matrix, k: int, i: int,
                  q: seq<Ext>, ghost from: seq<int>, ghost pos: seq<int>)
    returns (q': seq<Ext>, ghost from': seq<int>, ghost pos': seq<int>, halt: bool)
    requires Square(w) && Sorted(initial) && InRange(w, initial) && InRange(w, all)
    requires i < |all| && CandInv(initial, all, w, k, i, q, from, pos)
    ensures halt <==> |initial| == 0 && all[i] !in initial
    ensures !halt ==> CandInv(initial, all, w, k, i + 1, q', from', pos')
  {
    q', from', pos', halt := q, from, pos, false;
    if all[i] !in initial {
      InsertInRange(w, initial, all[i]);
      var e := Insert(initial, all[i]);
      var c, h := GetCost(w, e, k);
      if h {
        return q, from, pos, true;
      }
      CandInvAdd(initial, all, w, k, i, q, from, pos, c);
      pos' := pos + [|q|];
      q' := q + [Ext(e, c)];
      from' := from + [i];
    } else {
      CandInvSkip(initial, all, w, k, i, q, from, pos);
      pos' := pos + [-1];
    }
  }

  /** The loop of the best extension: one candidate per label of all
      outside initial, in the order of all.  A candidate of one member stops
      the program (halt). */
  method Candidates(initial: seq<int>, all: seq<int>, w: Matrix, k: int)
    returns (q: seq<Ext>, ghost from: seq<int>, ghost pos: seq<int>, halt: bool)
    requires Square(w) && Sorted(initial) && InRange(w, initial) && InRange(w, all)
    ensures halt <==> |initial| == 0 && exists j :: 0 <= j < |all| && all[j] !in initial
    ensures !halt ==> CandInv(initial, all, w, k, |all|, q, from, pos)
  {
    q, from, pos, halt := [], [], [], false;
    var i := 0;
    while i < |all|
      invariant CandInv(initial, all, w, k, i, q, from, pos)
    {
      q, from, pos, halt := Consider(initial, all, w, k, i, q, from, pos);
      if halt {
        return;
      }
      i := i + 1;
    }
  }

  /** The largest size a grown set reaches: k, and never less than the 2
      members of a seed set grown once. */
  function Cap(k: nat): nat
  {
    if k < 2 then 2 else k
  }

  /** A set of clusterings with its cost. */
  class Element {
    var clusterings: seq<int>
    var cost: real

    constructor()
      ensures clusterings == [] && cost == 0.0
    {
      clusterings := [];
      cost := 0.0;
    }

    /** Replaces this element by the best one-label extension of initial:
        every label c of all outside initial gives the candidate
        initial + {c} with its cost, and the candidate of largest cost is
        kept, its cost computed again.  Without any candidate the program
        reads the top of an empty queue (stuck); a candidate of one member
        stops the program inside the cost (halt). */
    method AppendTop(initial: seq<int>, all: seq<int>, w: Matrix, k: int) returns (stuck: bool, halt: bool)
      requires Square(w) && Sorted(initial) && InRange(w, initial) && InRange(w, all)
      modifies this
      ensures stuck <==> forall j :: 0 <= j < |all| ==> all[j] in initial
      ensures halt <==> !stuck && |initial| == 0
      ensures stuck || halt ==> clusterings == old(clusterings) && cost == old(cost)
      ensures !stuck && !halt ==>
        Sorted(clusterings) && InRange(w, clusterings) && |clusterings| == |initial| + 1
        && cost == Cost(w, clusterings, k)
        && (exists j :: 0 <= j < |all| && all[j] !in initial && clusterings == Insert(initial, all[j]))
        && (forall x :: x in clusterings ==> x in initial || x in all)
        && (forall x :: x in initial ==> x in clusterings)
        && (forall j :: 0 <= j < |all| && all[j] !in initial ==> ExtensionCost(w, initial, all[j], k) <= cost)
    {
      var q, h0;
      ghost var from, pos;
      q, from, pos, h0 := Candidates(initial, all, w, k);
      if h0 {
        return false, true;
      }
      if |q| == 0 {
        return true, false;
      }
      stuck, halt := false, false;
      assert all[from[0]] !in initial;
      var m := MaxIndex(ExtCosts(q));
      InsertInRange(w, initial, all[from[m]]);
      assert all[from[m]] in all;
      clusterings := q[m].members;
      var h;
      cost, h := GetCost(w, clusterings, k);
      BestCandidate(initial, all, w, k, q, from, pos, m);
    }
  }

  // ---------------------------------------------------------------------
  // The selection

  /** How many members a set of the given size still lacks. */
  function Lack(size: int, k: nat): nat
  {
    if size < k then k - size else 0
  }

  /** The members still lacking over a queue of sets of the given sizes. */
  function TotalLack(sizes: seq<int>, k: nat): nat
    decreases |sizes|
  {
    if |sizes| == 0 then 0 else Lack(sizes[0], k) + TotalLack(sizes[1..], k)
  }

  lemma {:induction false} TotalLackAppend(a: seq<int>, x: int, k: nat)
    ensures TotalLack(a + [x], k) == TotalLack(a, k) + Lack(x, k)
    decreases |a|
  {
    if |a| > 0 {
      assert (a + [x])[1..] == a[1..] + [x];
      TotalLackAppend(a[1..], x, k);
    }
  }

  lemma {:induction false} TotalLackRemove(a: seq<int>, t: nat, k: nat)
    requires t < |a|
    ensures TotalLack(a[..t] + a[t + 1..], k) + Lack(a[t], k) == TotalLack(a, k)
    decreases t
  {
    if t > 0 {
      assert (a[..t] + a[t + 1..])[1..] == a[1..][..t - 1] + a[1..][t..];
      TotalLackRemove(a[1..], t - 1, k);
    } else {
      assert a[..t] + a[t + 1..] == a[1..];
    }
  }

  /** An increasing sequence of labels never runs below its positions. */
  lemma {:induction false} SortedAbove(s: seq<int>, i: nat)
    requires Sorted(s) && i < |s| && forall j :: 0 <= j < |s| ==> 0 <= s[j]
    ensures s[i] >= i
    decreases i
  {
    if i > 0 {
      SortedAbove(s, i - 1);
    }
  }

  /** A set of fewer than p labels from 0..p-1 misses one of them. */
  lemma Missing(s: seq<int>, p: int) returns (c: int)
    requires Sorted(s) && |s| < p && forall j :: 0 <= j < |s| ==> 0 <= s[j] < p
    ensures 0 <= c < p && c !in s
  {
    c := 0;
    while c < |s| && s[c] == c
      invariant 0 <= c <= |s| && forall j :: 0 <= j < c ==> s[j] == j
    {
      c := c + 1;
    }
    if c < |s| {
      SortedAbove(s, c);
      forall j | 0 <= j < |s|
        ensures s[j] != c
      {
        if j > c {
          assert s[j] > s[c];
        }
      }
    }
  }

  /** The arguments the program passes: the labels 0..p-1, and k < p. */
  predicate ProgramCall(all: seq<int>, p: int, k: nat)
  {
    |all| == p && (forall j :: 0 <= j < p ==> all[j] == j) && k < p
  }

  /** A queue entry: a set of at least two labels, each from all or below
      p, of at most Cap(k) members, its cost up to date. */
  predicate Good(e: Element, all: seq<int>, w: Matrix, p: int, k: nat)
    reads e
    requires Square(w)
  {
    Sorted(e.clusterings) && InRange(w, e.clusterings)
    && 2 <= |e.clusterings| <= Cap(k)
    && (forall x :: x in e.clusterings ==> x in all || 0 <= x < p)
    && e.cost == Cost(w, e.clusterings, k)
  }

  function Costs(q: seq<Element>): (r: seq<real>)
    reads q
    ensures |r| == |q| && forall t :: 0 <= t < |q| ==> r[t] == q[t].cost
  {
    seq(|q|, t reads q requires 0 <= t < |q| => q[t].cost)
  }

  /** Under the program's arguments a set of fewer than p members can
      still be extended. */
  lemma Extensible(s: seq<int>, all: seq<int>, p: int, k: nat)
    requires ProgramCall(all, p, k) && Sorted(s) && |s| < p
    requires forall x :: x in s ==> x in all || 0 <= x < p
    ensures exists j :: 0 <= j < |all| && all[j] !in s
  {
    forall j | 0 <= j < |s|
      ensures 0 <= s[j] < p
    {
      assert s[j] in s;
    }
    var c := Missing(s, p);
    assert all[c] == c;
  }

  /** The best extension of the single label i, as a new element. */
  method Seed(all: seq<int>, w: Matrix, p: int, k: nat, i: int) returns (e: Element, stuck: bool)
    requires Square(w) && InRange(w, all) && 0 <= i < p <= |w|
    ensures fresh(e)
    ensures !stuck ==> Good(e, all, w, p, k) && |e.clusterings| == 2 && i in e.clusterings
    ensures stuck <==> forall j :: 0 <= j < |all| ==> all[j] in [i]
  {
    e := new Element();
    var h;
    stuck, h := e.AppendTop([i], all, w, k);
  }

  /** Under the program's arguments every label i has a partner. */
  lemma OtherLabel(all: seq<int>, p: int, k: nat, i: int)
    ensures ProgramCall(all, p, k) && p >= 2 && 0 <= i < p ==> !(forall j :: 0 <= j < |all| ==> all[j] in [i])
  {
    if ProgramCall(all, p, k) && p >= 2 && 0 <= i < p {
      assert all[if i == 0 then 1 else 0] !in [i];
    }
  }

  /** The first loop of the selection: the best extension of every single
      label i < p, each a new element. */
  method Seeds(all: seq<int>, w: Matrix, p: int, k: nat) returns (q: seq<Element>, stuck: bool)
    requires Square(w) && InRange(w, all) && p <= |w|
    ensures forall j :: 0 <= j < |q| ==> fresh(q[j]) && Good(q[j], all, w, p, k)
    ensures forall e :: e in q ==> fresh(e)
    ensures forall j :: 0 <= j < |q| ==> |q[j].clusterings| == 2 && j in q[j].clusterings
    ensures forall j, l :: 0 <= j < l < |q| ==> q[j] != q[l]
    ensures !stuck && p >= 0 ==> |q| == p
    ensures p <= 0 ==> |q| == 0
    ensures ProgramCall(all, p, k) && p >= 2 ==> !stuck
  {
    q, stuck := [], false;
    var i := 0;
    while i < p
      invariant 0 <= i && (i == 0 || i <= p) && |q| == i
      invariant forall j :: 0 <= j < |q| ==> fresh(q[j]) && Good(q[j], all, w, p, k)
      invariant forall j :: 0 <= j < |q| ==> |q[j].clusterings| == 2 && j in q[j].clusterings
      invariant forall j, l :: 0 <= j < l < |q| ==> q[j] != q[l]
    {
      OtherLabel(all, p, k, i);
      var e, st := Seed(all, w, p, k, i);
      if st {
        return q, true;
      }
      q := q + [e];
      i := i + 1;
    }
  }

  /** The structure the queue of the selection and the set taken from its
      top keep: the top is not in the queue, no element is queued twice, and
      sizes lists the queued sizes. */
  predicate Shape(top: Element, q: seq<Element>, sizes: seq<int>)
    reads top, q
  {
    top !in q
    && (forall j, l :: 0 <= j < l < |q| ==> q[j] != q[l])
    && |sizes| == |q| && (forall j :: 0 <= j < |q| ==> sizes[j] == |q[j].clusterings|)
  }

  /** Every set of the selection is a well-formed entry. */
  predicate Entries(top: Element, q: seq<Element>, all: seq<int>, w: Matrix, p: int, k: nat)
    reads top, q
    requires Square(w)
  {
    Good(top, all, w, p, k) && forall e :: e in q ==> Good(e, all, w, p, k)
  }

  /** Pushing top back on the queue and taking the set of largest cost
      from it again. */
  method Reselect(top: Element, q: seq<Element>, ghost sizes: seq<int>, k: nat)
    returns (top': Element, q': seq<Element>, ghost sizes': seq<int>)
    requires Shape(top, q, sizes)
    ensures Shape(top', q', sizes')
    ensures forall e :: e in q' ==> top'.cost >= e.cost
    ensures (top' in q || top' == top) && forall e :: e in q' ==> e in q || e == top
    ensures |q'| == |q|
    ensures TotalLack(sizes', k) + Lack(|top'.clusterings|, k) == TotalLack(sizes, k) + Lack(|top.clusterings|, k)
  {
    TotalLackAppend(sizes, |top.clusterings|, k);
    var q1 := q + [top];
    ghost var sizes1 := sizes + [|top.clusterings|];
    var t := MaxIndex(Costs(q1));
    TotalLackRemove(sizes1, t, k);
    top' := q1[t];
    q', sizes' := q1[..t] + q1[t + 1..], sizes1[..t] + sizes1[t + 1..];
    ShapeRemove(q1, sizes1, t);
  }

  /** Taking entry t out of a queue of distinct sets leaves the rest in
      order, with their sizes, and every one of them costs no more than
      entry t if none of the queue did. */
  lemma ShapeRemove(q1: seq<Element>, sizes1: seq<int>, t: nat)
    requires t < |q1| == |sizes1| && (forall j, l :: 0 <= j < l < |q1| ==> q1[j] != q1[l])
    requires forall j :: 0 <= j < |q1| ==> sizes1[j] == |q1[j].clusterings|
    requires forall j :: 0 <= j < |q1| ==> q1[j].cost <= q1[t].cost
    ensures Shape(q1[t], q1[..t] + q1[t + 1..], sizes1[..t] + sizes1[t + 1..])
    ensures forall e :: e in q1[..t] + q1[t + 1..] ==> e in q1 && e.cost <= q1[t].cost
  {
    var q' := q1[..t] + q1[t + 1..];
    assert forall j :: 0 <= j < |q'| ==> q'[j] == if j < t then q1[j] else q1[j + 1];
  }

  /** One turn of the second loop of the selection: the top set is grown by
      its best label, pushed back, and the set of largest cost is taken from
      the queue; the members lacking over all sets fall by one. */
  method Grow(top: Element, q: seq<Element>, ghost sizes: seq<int>, all: seq<int>, w: Matrix, p: int, k: nat)
    returns (top': Element, q': seq<Element>, ghost sizes': seq<int>, stuck: bool)
    requires Square(w) && InRange(w, all)
    requires Shape(top, q, sizes) && Entries(top, q, all, w, p, k) && |top.clusterings| < k
    modifies top
    ensures stuck ==> forall j :: 0 <= j < |all| ==> all[j] in old(top.clusterings)
    ensures !stuck ==> Shape(top', q', sizes') && Entries(top', q', all, w, p, k)
    ensures !stuck ==> (top' in q || top' == top) && forall e :: e in q' ==> e in q || e == top
    ensures !stuck ==> |q'| == |q| && forall e :: e in q' ==> top'.cost >= e.cost
    ensures !stuck ==> TotalLack(sizes', k) + Lack(|top'.clusterings|, k)
                       < TotalLack(sizes, k) + Lack(old(|top.clusterings|), k)
  {
    var cur := top.clusterings;
    var h;
    stuck, h := top.AppendTop(cur, all, w, k);
    if stuck {
      return top, q, sizes, true;
    }
    assert Shape(top, q, sizes) && Entries(top, q, all, w, p, k);
    top', q', sizes' := Reselect(top, q, sizes, k);
  }

  /** The second loop of the selection: the set on top is grown and the
      queue reselected until the top has k members. */
  method GrowUntil(top: Element, q: seq<Element>, ghost sizes: seq<int>, all: seq<int>, w: Matrix, p: int, k: nat)
    returns (result: Element, rest: seq<Element>, stuck: bool)
    requires Square(w) && InRange(w, all)
    requires Shape(top, q, sizes) && Entries(top, q, all, w, p, k)
    requires forall e :: e in q ==> top.cost >= e.cost
    modifies top, q
    ensures !stuck ==> Good(result, all, w, p, k) && k <= |result.clusterings|
    ensures !stuck ==> result !in rest && |rest| == |q| && forall j, l :: 0 <= j < l < |rest| ==> rest[j] != rest[l]
    ensures !stuck ==> forall e :: e in rest ==> Good(e, all, w, p, k) && result.cost >= e.cost
    ensures ProgramCall(all, p, k) && p >= 2 ==> !stuck
  {
    ghost var frame := multiset(q) + multiset{top};
    result, rest, stuck := top, q, false;
    ghost var sizes' := sizes;
    while |result.clusterings| < k
      invariant result in frame && forall e :: e in rest ==> e in frame
      invariant Shape(result, rest, sizes') && Entries(result, rest, all, w, p, k)
      invariant |rest| == |q| && forall e :: e in rest ==> result.cost >= e.cost
      decreases TotalLack(sizes', k) + Lack(|result.clusterings|, k)
    {
      if ProgramCall(all, p, k) && p >= 2 {
        Extensible(result.clusterings, all, p, k);
      }
      result, rest, sizes', stuck := Grow(result, rest, sizes', all, w, p, k);
      if stuck {
        return;
      }
    }
  }

  /** The first pop of the selection: the seed of largest cost leaves the
      queue.  It is taken by pushing the last seed once more on the others. */
  method FirstTop(q: seq<Element>, all: seq<int>, w: Matrix, p: int, k: nat)
    returns (top: Element, rest: seq<Element>, ghost sizes: seq<int>)
    requires Square(w) && |q| > 0
    requires forall j :: 0 <= j < |q| ==> Good(q[j], all, w, p, k)
    requires forall j, l :: 0 <= j < l < |q| ==> q[j] != q[l]
    ensures Shape(top, rest, sizes) && Entries(top, rest, all, w, p, k)
    ensures top in q && |rest| + 1 == |q| && forall e :: e in rest ==> e in q && top.cost >= e.cost
  {
    var last := q[|q| - 1];
    var others := q[..|q| - 1];
    ghost var sizes0 := seq(|others|, j reads others requires 0 <= j < |others| => |others[j].clusterings|);
    assert forall e :: e in others ==> e in q;
    top, rest, sizes := Reselect(last, others, sizes0, k);
  }

  /** The selection of k clusterings: every label is grown once, then the
      set of largest cost is taken from the queue, grown by its best label
      and put back until the one on top has k members.  The top of an empty
      queue, or a set that all of the labels already fill, leaves the
      program reading unspecified memory (stuck). */
  method Rmcrag(all: seq<int>, w: Matrix, p: int, k: nat) returns (result: Element?, left: seq<Element>, stuck: bool)
    requires Square(w) && InRange(w, all) && p <= |w|
    ensures !stuck ==> result != null && Good(result, all, w, p, k) && k <= |result.clusterings|
    ensures !stuck ==> result !in left && |left| + 1 == p
    ensures !stuck ==> forall e :: e in left ==> Good(e, all, w, p, k) && e.cost <= result.cost
    ensures p <= 0 ==> stuck
    ensures ProgramCall(all, p, k) && p >= 2 ==> !stuck
  {
    var q;
    q, stuck := Seeds(all, w, p, k);
    if stuck || |q| == 0 {
      return null, [], true;
    }
    var top, rest;
    ghost var sizes;
    top, rest, sizes := FirstTop(q, all, w, p, k);
    forall j | 0 <= j < |rest|
      ensures fresh(rest[j])
    {
      assert rest[j] in rest;
    }
    var r;
    r, left, stuck := GrowUntil(top, rest, sizes, all, w, p, k);
    result := r;
  }
}
