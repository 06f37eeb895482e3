/** The pair tabu list of the tabu search.  A swapped pair (k, m) stays tabu
    for T2 iterations: both cells tabu[k, m] and tabu[m, k] of the matrix
    hold its remaining time and entries 0 .. len - 1 of the two vertex
    arrays list the pairs in the order they were made tabu.  Every
    iteration counts every listed pair down by one and drops the pair whose
    time has run out before the new pair, if any, is appended. */
module TabuList {

  /** (p, q) is one of the first |a| listed pairs, in either orientation. */
  predicate InList(a: seq<int>, b: seq<int>, p: int, q: int)
    requires |a| == |b|
  {
    exists i :: 0 <= i < |a| && ((a[i] == p && b[i] == q) || (a[i] == q && b[i] == p))
  }

  /** The listed pairs a, b are well formed: each joins two distinct
      vertices, both cells of a listed pair hold the same time, between 1
      and T, and the times grow strictly along the list (pairs made tabu
      later expire later). */
  predicate Listed(tabu: array2<int>, a: seq<int>, b: seq<int>, T: int)
    reads tabu
  {
    |a| == |b| &&
    (forall i :: 0 <= i < |a| ==> 0 <= a[i] < tabu.Length0 && 0 <= b[i] < tabu.Length0 && a[i] != b[i]) &&
    tabu.Length0 == tabu.Length1 &&
    (forall i :: 0 <= i < |a| ==> tabu[a[i], b[i]] == tabu[b[i], a[i]] && 1 <= tabu[a[i], b[i]] <= T) &&
    (forall i, j :: 0 <= i < j < |a| ==> tabu[a[i], b[i]] < tabu[a[j], b[j]])
  }

  /** The list held in entries 0 .. len - 1 of v1 and v2, over n vertices,
      with room for T entries. */
  predicate ListValid(tabu: array2<int>, v1: array<int>, v2: array<int>, len: int, n: int, T: int)
    reads tabu, v1, v2
  {
    tabu.Length0 == n && tabu.Length1 == n &&
    0 <= len <= T && T <= v1.Length && T <= v2.Length &&
    Listed(tabu, v1[..len], v2[..len], T)
  }

  /** No two listed entries name the same pair. */
  predicate Disjoint(a: seq<int>, b: seq<int>)
    requires |a| == |b|
  {
    forall i, j :: 0 <= i < |a| && 0 <= j < |a| && i != j ==>
      (a[i] != a[j] || b[i] != b[j]) && (a[i] != b[j] || b[i] != a[j])
  }

  /** Strictly growing times make the listed pairs distinct. */
  lemma ListDisjoint(tabu: array2<int>, a: seq<int>, b: seq<int>, T: int)
    requires Listed(tabu, a, b, T)
    ensures Disjoint(a, b)
  {
    forall i, j | 0 <= i < |a| && 0 <= j < |a| && i != j
      ensures (a[i] != a[j] || b[i] != b[j]) && (a[i] != b[j] || b[i] != a[j])
    {
      if i < j {
        assert tabu[a[i], b[i]] < tabu[a[j], b[j]];
      } else {
        assert tabu[a[j], b[j]] < tabu[a[i], b[i]];
      }
    }
  }

  /** Strictly growing integers between lo and hi number at most
      hi - lo + 1. */
  lemma {:induction false} Span(s: seq<int>, lo: int, hi: int)
    requires lo <= hi + 1
    requires forall i :: 0 <= i < |s| ==> lo <= s[i] <= hi
    requires forall i, j :: 0 <= i < j < |s| ==> s[i] < s[j]
    ensures |s| <= hi - lo + 1
    decreases |s|
  {
    if |s| > 0 {
      var t := s[..|s| - 1];
      assert forall i :: 0 <= i < |t| ==> t[i] < s[|s| - 1];
      Span(t, lo, s[|s| - 1] - 1);
    }
  }

  /** At most T pairs can be listed with times between 1 and T. */
  lemma ListSpan(tabu: array2<int>, a: seq<int>, b: seq<int>, T: int)
    requires Listed(tabu, a, b, T) && 0 <= T
    ensures |a| <= T
  {
    var s := seq(|a|, i requires 0 <= i < |a| reads tabu => tabu[a[i], b[i]]);
    Span(s, 1, T);
  }

  /** A list valid for times up to T - 1 is valid for times up to T. */
  lemma ListWeaken(tabu: array2<int>, a: seq<int>, b: seq<int>, T: int)
    requires Listed(tabu, a, b, T - 1)
    ensures Listed(tabu, a, b, T)
  {
  }

  /** The count-down pass has handled entries 0 .. i - 1 of the list a, b:
      t0 holds the times before the pass, both cells of a handled pair are
      one lower, and every cell of no listed pair is untouched. */
  ghost predicate Counted(tabu: array2<int>, a: seq<int>, b: seq<int>, t0: seq<seq<int>>, i: int)
    reads tabu
  {
    |a| == |b| && 0 <= i <= |a| && tabu.Length0 == |t0| && tabu.Length1 == |t0|
    && (forall p :: 0 <= p < |t0| ==> |t0[p]| == |t0|)
    && (forall j :: 0 <= j < |a| ==> 0 <= a[j] < |t0| && 0 <= b[j] < |t0|)
    && (forall j :: 0 <= j < |a| ==>
          tabu[a[j], b[j]] == t0[a[j]][b[j]] - (if j < i then 1 else 0) && tabu[b[j], a[j]] == tabu[a[j], b[j]])
    && (forall p, q :: 0 <= p < |t0| && 0 <= q < |t0| && !InList(a, b, p, q) ==> tabu[p, q] == t0[p][q])
  }

  /** Entry i of the count-down pass: both cells of pair (k1, k2) drop by
      one. */
  method CountStep(tabu: array2<int>, k1: int, k2: int, ghost a: seq<int>, ghost b: seq<int>, ghost t0: seq<seq<int>>, ghost i: int)
    requires Counted(tabu, a, b, t0, i) && 0 <= i < |a| && a[i] == k1 && b[i] == k2 && k1 != k2 && Disjoint(a, b)
    modifies tabu
    ensures Counted(tabu, a, b, t0, i + 1)
  {
    tabu[k1, k2] := tabu[k1, k2] - 1;
    tabu[k2, k1] := tabu[k2, k1] - 1;
  }

  /** The count-down pass over the listed pairs a, b (the contents of v1,
      v2): both cells of every listed pair drop by one, and m is the last
      entry whose time reaches 0.  Since the times grow along the list, only
      the head can expire.  cd holds the times before the pass. */
  method CountDown(tabu: array2<int>, v1: array<int>, v2: array<int>, len: int, ghost T: int, ghost a: seq<int>, ghost b: seq<int>)
    returns (m: int, ghost cd: seq<int>)
    requires 0 <= len <= v1.Length && len <= v2.Length && a == v1[..len] && b == v2[..len]
    requires Listed(tabu, a, b, T)
    modifies tabu
    ensures |cd| == len
    ensures forall i :: 0 <= i < len ==> cd[i] == old(tabu[a[i], b[i]]) && 1 <= cd[i] <= T
    ensures forall i, j :: 0 <= i < j < len ==> cd[i] < cd[j]
    ensures m == if len > 0 && cd[0] == 1 then 0 else -1
    ensures forall i :: 0 <= i < len ==> tabu[a[i], b[i]] == cd[i] - 1 && tabu[b[i], a[i]] == cd[i] - 1
    ensures forall p, q :: 0 <= p < tabu.Length0 && 0 <= q < tabu.Length1 && !InList(a, b, p, q) ==> tabu[p, q] == old(tabu[p, q])
  {
    ghost var t0, c0 := Snapshot(tabu, a, b, T);
    cd := c0;
    m := CountPass(tabu, v1, v2, len, a, b, t0, c0);
    CountedEnd(tabu, a, b, t0, c0);
  }

  /** The times before the count-down pass: t0 for every cell, c0 for the
      listed pairs in order. */
  lemma Snapshot(tabu: array2<int>, a: seq<int>, b: seq<int>, T: int) returns (t0: seq<seq<int>>, c0: seq<int>)
    requires Listed(tabu, a, b, T)
    ensures Counted(tabu, a, b, t0, 0) && Disjoint(a, b) && (forall j :: 0 <= j < |a| ==> a[j] != b[j])
    ensures forall p, q :: 0 <= p < tabu.Length0 && 0 <= q < tabu.Length1 ==> t0[p][q] == tabu[p, q]
    ensures |c0| == |a| && forall j :: 0 <= j < |a| ==> c0[j] == t0[a[j]][b[j]] && c0[j] == tabu[a[j], b[j]] && 1 <= c0[j] <= T
    ensures forall i, j :: 0 <= i < j < |a| ==> c0[i] < c0[j]
  {
    ListDisjoint(tabu, a, b, T);
    var n := tabu.Length0;
    t0 := seq(n, p requires 0 <= p < n reads tabu => seq(n, q requires 0 <= q < n reads tabu => tabu[p, q]));
    assert forall p, q :: 0 <= p < n && 0 <= q < n ==> t0[p][q] == tabu[p, q];
    CountedStart(tabu, a, b, t0, T);
    c0 := seq(|a|, j requires 0 <= j < |a| => t0[a[j]][b[j]]);
    ListedTimes(tabu, a, b, T, c0);
  }

  /** Before the count-down pass nothing is counted yet. */
  lemma CountedStart(tabu: array2<int>, a: seq<int>, b: seq<int>, t0: seq<seq<int>>, T: int)
    requires Listed(tabu, a, b, T) && |t0| == tabu.Length0 && (forall p :: 0 <= p < |t0| ==> |t0[p]| == |t0|)
    requires forall p, q :: 0 <= p < |t0| && 0 <= q < |t0| ==> t0[p][q] == tabu[p, q]
    ensures Counted(tabu, a, b, t0, 0)
  {
  }

  /** The times of a valid list, read in order, lie in [1, T] and grow. */
  lemma ListedTimes(tabu: array2<int>, a: seq<int>, b: seq<int>, T: int, c: seq<int>)
    requires Listed(tabu, a, b, T) && |c| == |a|
    requires forall j :: 0 <= j < |a| ==> c[j] == tabu[a[j], b[j]]
    ensures forall j :: 0 <= j < |a| ==> 1 <= c[j] <= T
    ensures forall i, j :: 0 <= i < j < |a| ==> c[i] < c[j]
  {
  }

  /** After the count-down pass every listed pair's cells are one below
      their old time c0 and every other cell is untouched. */
  lemma CountedEnd(tabu: array2<int>, a: seq<int>, b: seq<int>, t0: seq<seq<int>>, c0: seq<int>)
    requires Counted(tabu, a, b, t0, |a|) && |c0| == |a|
    requires forall j :: 0 <= j < |a| ==> c0[j] == t0[a[j]][b[j]]
    ensures forall i :: 0 <= i < |a| ==> tabu[a[i], b[i]] == c0[i] - 1 && tabu[b[i], a[i]] == c0[i] - 1
    ensures forall p, q :: 0 <= p < tabu.Length0 && 0 <= q < tabu.Length1 && !InList(a, b, p, q) ==> tabu[p, q] == t0[p][q]
  {
  }

  /** The loop of the count-down pass, over times t0 before it that grow
      strictly along the list (c0). */
  method CountPass(tabu: array2<int>, v1: array<int>, v2: array<int>, len: int,
                   ghost a: seq<int>, ghost b: seq<int>, ghost t0: seq<seq<int>>, ghost c0: seq<int>)
    returns (m: int)
    requires 0 <= len <= v1.Length && len <= v2.Length && a == v1[..len] && b == v2[..len]
    requires Counted(tabu, a, b, t0, 0) && Disjoint(a, b) && (forall j :: 0 <= j < len ==> a[j] != b[j])
    requires |c0| == len && (forall j :: 0 <= j < len ==> c0[j] == t0[a[j]][b[j]] && 1 <= c0[j])
    requires forall i, j :: 0 <= i < j < len ==> c0[i] < c0[j]
    modifies tabu
    ensures Counted(tabu, a, b, t0, len)
    ensures m == if len > 0 && c0[0] == 1 then 0 else -1
  {
    m := -1;
    var i := 0;
    while i < len
      invariant 0 <= i <= len
      invariant Counted(tabu, a, b, t0, i)
      invariant m == if i > 0 && c0[0] == 1 then 0 else -1
    {
      var k1, k2 := v1[i], v2[i];
      assert a[i] == k1 && b[i] == k2;
      CountStep(tabu, k1, k2, a, b, t0, i);
      if tabu[k1, k2] == 0 {
        assert c0[i] == 1;
        m := i;
      }
      i := i + 1;
    }
  }

  /** Close the gap left by entry m: every later entry moves down by one;
      the slot at len - 1 keeps its old contents. */
  method Drop(v1: array<int>, v2: array<int>, len: int, m: int)
    requires 0 <= m < len <= v1.Length && len <= v2.Length && v1 != v2
    modifies v1, v2
    ensures v1[..] == old(v1[..m] + v1[m + 1..len] + v1[len - 1..])
    ensures v2[..] == old(v2[..m] + v2[m + 1..len] + v2[len - 1..])
  {
    var i := m;
    while i < len - 1
      invariant m <= i <= len - 1
      invariant forall j :: 0 <= j < v1.Length ==> v1[j] == if m <= j < i then old(v1[j + 1]) else old(v1[j])
      invariant forall j :: 0 <= j < v2.Length ==> v2[j] == if m <= j < i then old(v2[j + 1]) else old(v2[j])
    {
      v1[i] := v1[i + 1];
      v2[i] := v2[i + 1];
      i := i + 1;
    }
  }

  /** One iteration's count-down of the list (CountDown states what happens
      to the times): the pair that expired, always the head, leaves the
      list, and the list stays valid with times below T. */
  method Expire(tabu: array2<int>, v1: array<int>, v2: array<int>, len: int, ghost n: int, ghost T: int) returns (len': int)
    requires ListValid(tabu, v1, v2, len, n, T) && 1 <= T && v1 != v2
    modifies tabu, v1, v2
    ensures ListValid(tabu, v1, v2, len', n, T - 1)
    ensures var a, b := old(v1[..len]), old(v2[..len]);
      var gone := len > 0 && old(tabu[a[0], b[0]]) == 1;
      len' == (if gone then len - 1 else len) &&
      v1[..len'] == (if gone then a[1..] else a) && v2[..len'] == (if gone then b[1..] else b)
  {
    ghost var a, b := v1[..len], v2[..len];
    var m, cd := CountDown(tabu, v1, v2, len, T, a, b);
    if m >= 0 {
      Drop(v1, v2, len, m);
      len' := len - 1;
      assert v1[..len'] == a[1..] && v2[..len'] == b[1..];
    } else {
      len' := len;
    }
    ExpireValid(tabu, a, b, cd, T);
  }

  /** After the count-down pass the old list a, b with old times cd, every
      time one lower and the expired head removed, is valid with times
      below T. */
  lemma ExpireValid(tabu: array2<int>, a: seq<int>, b: seq<int>, cd: seq<int>, T: int)
    requires 1 <= T && |a| == |b| == |cd| && tabu.Length0 == tabu.Length1
    requires forall i :: 0 <= i < |a| ==> 0 <= a[i] < tabu.Length0 && 0 <= b[i] < tabu.Length0 && a[i] != b[i]
    requires forall i :: 0 <= i < |a| ==> 1 <= cd[i] <= T
    requires forall i, j :: 0 <= i < j < |a| ==> cd[i] < cd[j]
    requires forall i :: 0 <= i < |a| ==> tabu[a[i], b[i]] == cd[i] - 1 && tabu[b[i], a[i]] == cd[i] - 1
    ensures var d := if |a| > 0 && cd[0] == 1 then 1 else 0;
      Listed(tabu, a[d..], b[d..], T - 1) && |a| - d <= T - 1
  {
    var d := if |a| > 0 && cd[0] == 1 then 1 else 0;
    var a', b', c' := a[d..], b[d..], cd[d..];
    forall i | 0 <= i < |c'|
      ensures 2 <= c'[i]
    {
      if i + d > 0 {
        assert cd[0] < cd[i + d];
      }
    }
    ListedOf(tabu, a', b', c', T);
    ListSpan(tabu, a', b', T - 1);
  }

  /** Pairs whose two cells hold one less than growing times c in [2, T]
      form a list valid for times up to T - 1. */
  lemma ListedOf(tabu: array2<int>, a: seq<int>, b: seq<int>, c: seq<int>, T: int)
    requires |a| == |b| == |c| && tabu.Length0 == tabu.Length1
    requires forall i :: 0 <= i < |a| ==> 0 <= a[i] < tabu.Length0 && 0 <= b[i] < tabu.Length0 && a[i] != b[i]
    requires forall i :: 0 <= i < |a| ==> 2 <= c[i] <= T && tabu[a[i], b[i]] == c[i] - 1 && tabu[b[i], a[i]] == c[i] - 1
    requires forall i, j :: 0 <= i < j < |a| ==> c[i] < c[j]
    ensures Listed(tabu, a, b, T - 1)
  {
  }

  /** A pair whose cell is not tabu is not listed. */
  lemma NotListed(tabu: array2<int>, v1: array<int>, v2: array<int>, len: int, n: int, T: int, k: int, m: int)
    requires ListValid(tabu, v1, v2, len, n, T) && 0 <= k < n && 0 <= m < n && tabu[k, m] <= 0
    ensures !InList(v1[..len], v2[..len], k, m)
  {
    var a, b := v1[..len], v2[..len];
    forall i | 0 <= i < len
      ensures !((a[i] == k && b[i] == m) || (a[i] == m && b[i] == k))
    {
      assert tabu[a[i], b[i]] == tabu[b[i], a[i]] >= 1;
    }
  }

  /** A pair not in a list is not in any suffix of it. */
  lemma NotListedSuffix(a: seq<int>, b: seq<int>, d: int, k: int, m: int)
    requires |a| == |b| && 0 <= d <= |a| && !InList(a, b, k, m)
    ensures !InList(a[d..], b[d..], k, m)
  {
    forall i | 0 <= i < |a| - d
      ensures !((a[d..][i] == k && b[d..][i] == m) || (a[d..][i] == m && b[d..][i] == k))
    {
      assert a[d..][i] == a[i + d] && b[d..][i] == b[i + d];
    }
  }

  /** Make the swapped pair (k, m), which is not listed, tabu for T
      iterations and append it to the list. */
  method Push(tabu: array2<int>, v1: array<int>, v2: array<int>, len: int, k: int, m: int, ghost n: int, T: int)
    returns (len': int)
    requires ListValid(tabu, v1, v2, len, n, T - 1) && 1 <= T <= v1.Length && T <= v2.Length && v1 != v2
    requires 0 <= k < n && 0 <= m < n && k != m && !InList(v1[..len], v2[..len], k, m)
    modifies tabu, v1, v2
    ensures ListValid(tabu, v1, v2, len', n, T)
    ensures len' == len + 1 && v1[..len'] == old(v1[..len]) + [k] && v2[..len'] == old(v2[..len]) + [m]
    ensures tabu[k, m] == T && tabu[m, k] == T
  {
    ghost var a, b := v1[..len], v2[..len];
    MarkPair(tabu, k, m, T, a, b);
    Append(v1, v2, len, k, m);
    len' := len + 1;
    PushValid(tabu, a, b, k, m, T);
  }

  /** Give both cells of the unlisted pair (k, m) the time T; the listed
      pairs keep theirs. */
  method MarkPair(tabu: array2<int>, k: int, m: int, T: int, ghost a: seq<int>, ghost b: seq<int>)
    requires Listed(tabu, a, b, T - 1) && 0 <= k < tabu.Length0 && 0 <= m < tabu.Length0 && !InList(a, b, k, m)
    modifies tabu
    ensures Listed(tabu, a, b, T - 1) && tabu[k, m] == T && tabu[m, k] == T
  {
    assert forall i :: 0 <= i < |a| ==> !(a[i] == k && b[i] == m) && !(a[i] == m && b[i] == k);
    tabu[k, m] := T;
    tabu[m, k] := T;
  }

  /** Store the pair (k, m) in slot len of v1, v2. */
  method Append(v1: array<int>, v2: array<int>, len: int, k: int, m: int)
    requires 0 <= len < v1.Length && len < v2.Length && v1 != v2
    modifies v1, v2
    ensures v1[..len + 1] == old(v1[..len]) + [k] && v2[..len + 1] == old(v2[..len]) + [m]
  {
    v1[len] := k;
    v2[len] := m;
    assert v1[..len + 1] == old(v1[..len]) + [k];
  }

  /** Appending a pair whose cells hold T to a list with times below T
      keeps it valid. */
  lemma PushValid(tabu: array2<int>, a: seq<int>, b: seq<int>, k: int, m: int, T: int)
    requires 1 <= T && Listed(tabu, a, b, T - 1) && 0 <= k < tabu.Length0 && 0 <= m < tabu.Length0 && k != m
    requires tabu[k, m] == T && tabu[m, k] == T
    ensures Listed(tabu, a + [k], b + [m], T)
  {
    var a', b' := a + [k], b + [m];
    assert forall i :: 0 <= i < |a| ==> a'[i] == a[i] && b'[i] == b[i];
    assert a'[|a|] == k && b'[|a|] == m;
    forall i | 0 <= i < |a'|
      ensures tabu[a'[i], b'[i]] == tabu[b'[i], a'[i]] && 1 <= tabu[a'[i], b'[i]] <= T
    {
      if i < |a| {
        assert a'[i] == a[i] && b'[i] == b[i];
        assert tabu[a[i], b[i]] == tabu[b[i], a[i]] && 1 <= tabu[a[i], b[i]] <= T - 1;
      } else {
        assert a'[i] == k && b'[i] == m;
      }
    }
  }
}
