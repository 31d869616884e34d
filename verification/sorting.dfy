/** Ranking by sorting: sort the collection's positions by field value in
    the requested direction (ties kept in collection order, earlier first),
    then scan the sorted order for the target. The methods here are proved
    equal to the count-based definitions of module Ranking. */
module Sorting {
  import opened Order
  import opened Ranking

  /** What a counted position must satisfy. */
  datatype Criterion =
    | AheadOf(t: int)      // comes before record t in the ordinal order
    | BetterThan(x: int)   // holds a value strictly better than x

  predicate Holds(v: seq<int>, d: Direction, c: Criterion, i: int) {
    match c
    case AheadOf(t) => Ahead(v, d, i, t)
    case BetterThan(x) => 0 <= i < |v| && Better(d, v[i], x)
  }

  /** Number of positions in `xs` that satisfy `c`. */
  function CountIn(v: seq<int>, d: Direction, c: Criterion, xs: seq<int>): (n: nat)
    ensures n <= |xs|
  {
    if |xs| == 0 then 0
    else CountIn(v, d, c, xs[..|xs| - 1]) + (if Holds(v, d, c, xs[|xs| - 1]) then 1 else 0)
  }

  /** The positions 0 .. n-1 of a collection, in collection order. */
  function Range(n: nat): (r: seq<int>)
    ensures |r| == n
    ensures forall i :: 0 <= i < n ==> r[i] == i
  {
    seq(n, i => i)
  }

  /** `xs` lists positions of `v` from first to last in the ordinal order. */
  predicate Sorted(v: seq<int>, d: Direction, xs: seq<int>) {
    && (forall i :: 0 <= i < |xs| ==> 0 <= xs[i] < |v|)
    && (forall i, j :: 0 <= i < j < |xs| ==> Ahead(v, d, xs[i], xs[j]))
  }

  /** Inserts position `k` into a sorted list of other positions. */
  function Insert(v: seq<int>, d: Direction, xs: seq<int>, k: int): (r: seq<int>)
    requires Sorted(v, d, xs) && 0 <= k < |v| && k !in xs
    ensures multiset(r) == multiset(xs) + multiset{k}
    ensures |r| == |xs| + 1
    ensures Sorted(v, d, r)
  {
    if |xs| == 0 then [k]
    else if Ahead(v, d, k, xs[0]) then
      [k] + xs
    else
      var rest := Insert(v, d, xs[1..], k);
      HeadStaysFirst(v, d, xs, k, rest);
      assert xs == [xs[0]] + xs[1..];
      [xs[0]] + rest
  }

  /** The collection's positions in ordinal order (an insertion sort). */
  function Sort(v: seq<int>, d: Direction, n: nat): (r: seq<int>)
    requires n <= |v|
    ensures multiset(r) == multiset(Range(n))
    ensures |r| == n
    ensures Sorted(v, d, r)
  {
    if n == 0 then []
    else
      var prev := Sort(v, d, n - 1);
      RangeStep(n - 1);
      assert n - 1 !in multiset(prev);
      Insert(v, d, prev, n - 1)
  }

  lemma RangeStep(n: nat)
    ensures Range(n + 1) == Range(n) + [n]
    ensures n !in multiset(Range(n))
  {
  }

  /** The ordinal rank of a record, by sorting and scanning for it. */
  method OrdinalRankBySort(v: seq<int>, t: nat, d: Direction) returns (r: nat)
    requires t < |v|
    ensures r == OrdinalRank(v, t, d)
  {
    var order := Sort(v, d, |v|);
    assert Range(|v|)[t] == t;
    assert t in multiset(Range(|v|));
    var p := 0;
    while order[p] != t
      invariant 0 <= p < |order|
      invariant t in order[p..]
      decreases |order| - p
    {
      p := p + 1;
    }
    SortedPosition(v, d, order, p);
    r := p + 1;
  }

  /** The competition rank of a record, by sorting and scanning for the
      first record that holds the target's value. */
  method CompetitionRankBySort(v: seq<int>, t: nat, d: Direction) returns (r: nat)
    requires t < |v|
    ensures r == CompetitionRank(v, t, d)
  {
    var order := Sort(v, d, |v|);
    assert Range(|v|)[t] == t;
    assert t in multiset(Range(|v|));
    var p := 0;
    while v[order[p]] != v[t]
      invariant 0 <= p < |order|
      invariant t in order[p..]
      invariant forall q :: 0 <= q < p ==> v[order[q]] != v[t]
      decreases |order| - p
    {
      p := p + 1;
    }
    SortedFirstOfValue(v, d, order, p, v[t]);
    r := p + 1;
  }

  // ---------------------------------------------------------------------
  // Lemmas

  /** Every position of a sorted permutation of the collection holds the
      record whose ordinal rank is that position plus one. */
  lemma SortedPosition(v: seq<int>, d: Direction, order: seq<int>, p: nat)
    requires Sorted(v, d, order) && multiset(order) == multiset(Range(|v|))
    requires p < |order|
    ensures 0 <= order[p] < |v|
    ensures OrdinalRank(v, order[p], d) == p + 1
  {
    var t := order[p];
    var c := AheadOf(t);
    assert order == order[..p] + order[p..];
    CountInConcat(v, d, c, order[..p], order[p..]);
    CountInAll(v, d, c, order[..p]);
    CountInNone(v, d, c, order[p..]);
    CountInPermutation(v, d, c, order, Range(|v|));
    CountInRangeAhead(v, d, t, |v|);
  }

  /** In a sorted permutation, the first position holding value `x` is the
      number of records whose value is strictly better than `x`. */
  lemma SortedFirstOfValue(v: seq<int>, d: Direction, order: seq<int>, p: nat, x: int)
    requires Sorted(v, d, order) && multiset(order) == multiset(Range(|v|))
    requires p < |order| && 0 <= order[p] < |v| && v[order[p]] == x
    requires forall q :: 0 <= q < p ==> v[order[q]] != x
    ensures CountBetter(v, x, d) == p
  {
    var c := BetterThan(x);
    assert order == order[..p] + order[p..];
    CountInConcat(v, d, c, order[..p], order[p..]);
    CountInAll(v, d, c, order[..p]);
    CountInNone(v, d, c, order[p..]);
    CountInPermutation(v, d, c, order, Range(|v|));
    CountInRangeBetter(v, d, x, |v|);
    assert v[..|v|] == v;
  }

  /** The rank numbers 1 .. n. */
  function OneTo(n: nat): (s: set<int>)
    ensures forall r :: r in s <==> 1 <= r <= n
  {
    if n == 0 then {} else OneTo(n - 1) + {n}
  }

  /** Sorting gives every record a distinct ordinal rank: the ranks of the
      N records are exactly 1 .. N, each taken once. */
  lemma OrdinalRanksArePermutation(v: seq<int>, d: Direction)
    ensures (set t | 0 <= t < |v| :: OrdinalRank(v, t, d)) == OneTo(|v|)
    ensures forall t, u :: 0 <= t < u < |v| ==> OrdinalRank(v, t, d) != OrdinalRank(v, u, d)
  {
    var order := Sort(v, d, |v|);
    forall r | r in OneTo(|v|)
      ensures r in (set t | 0 <= t < |v| :: OrdinalRank(v, t, d))
    {
      SortedPosition(v, d, order, r - 1);
    }
    forall t, u | 0 <= t < u < |v|
      ensures OrdinalRank(v, t, d) != OrdinalRank(v, u, d)
    {
      OrdinalRankInjective(v, d, t, u);
    }
  }

  /** When the new position does not go first, the old head stays ahead of
      every position of the list the rest was inserted into. */
  lemma HeadStaysFirst(v: seq<int>, d: Direction, xs: seq<int>, k: int, rest: seq<int>)
    requires Sorted(v, d, xs) && |xs| > 0 && 0 <= k < |v| && k !in xs
    requires !Ahead(v, d, k, xs[0])
    requires Sorted(v, d, rest) && multiset(rest) == multiset(xs[1..]) + multiset{k}
    ensures Sorted(v, d, [xs[0]] + rest)
  {
    forall j | 0 <= j < |rest|
      ensures Ahead(v, d, xs[0], rest[j])
    {
      assert rest[j] in multiset(rest);
      if rest[j] != k {
        assert rest[j] in multiset(xs[1..]);
        var m :| 0 <= m < |xs[1..]| && xs[1..][m] == rest[j];
        assert xs[m + 1] == rest[j];
      }
    }
    var r := [xs[0]] + rest;
    forall i, j | 0 <= i < j < |r|
      ensures Ahead(v, d, r[i], r[j])
    {
      if i > 0 {
        assert r[i] == rest[i - 1] && r[j] == rest[j - 1];
      } else {
        assert r[j] == rest[j - 1];
      }
    }
  }

  lemma {:induction false} CountInConcat(v: seq<int>, d: Direction, c: Criterion, a: seq<int>, b: seq<int>)
    ensures CountIn(v, d, c, a + b) == CountIn(v, d, c, a) + CountIn(v, d, c, b)
    decreases |b|
  {
    if |b| > 0 {
      var b' := b[..|b| - 1];
      assert (a + b)[..|a + b| - 1] == a + b';
      CountInConcat(v, d, c, a, b');
    } else {
      assert a + b == a;
    }
  }

  lemma {:induction false} CountInAll(v: seq<int>, d: Direction, c: Criterion, xs: seq<int>)
    requires forall i :: 0 <= i < |xs| ==> Holds(v, d, c, xs[i])
    ensures CountIn(v, d, c, xs) == |xs|
  {
    if |xs| > 0 {
      CountInAll(v, d, c, xs[..|xs| - 1]);
    }
  }

  lemma {:induction false} CountInNone(v: seq<int>, d: Direction, c: Criterion, xs: seq<int>)
    requires forall i :: 0 <= i < |xs| ==> !Holds(v, d, c, xs[i])
    ensures CountIn(v, d, c, xs) == 0
  {
    if |xs| > 0 {
      CountInNone(v, d, c, xs[..|xs| - 1]);
    }
  }

  /** Counting does not depend on the order positions are listed in. */
  lemma {:induction false} CountInPermutation(v: seq<int>, d: Direction, c: Criterion, xs: seq<int>, ys: seq<int>)
    requires multiset(xs) == multiset(ys)
    ensures CountIn(v, d, c, xs) == CountIn(v, d, c, ys)
    decreases |xs|
  {
    if |xs| > 0 {
      var xs' := xs[..|xs| - 1];
      var k := IndexOfLast(xs, ys);
      var ys' := RemoveAt(v, d, c, ys, k);
      CountInPermutation(v, d, c, xs', ys');
    } else {
      assert |ys| == |multiset(ys)| == 0;
    }
  }

  /** Where the last position of `xs` sits in a permutation `ys` of it;
      the positions before it in `xs` are a permutation of the rest of `ys`. */
  lemma IndexOfLast(xs: seq<int>, ys: seq<int>) returns (k: nat)
    requires |xs| > 0 && multiset(xs) == multiset(ys)
    ensures k < |ys| && ys[k] == xs[|xs| - 1]
    ensures multiset(xs[..|xs| - 1]) == multiset(ys) - multiset{ys[k]}
  {
    var a := xs[|xs| - 1];
    assert xs == xs[..|xs| - 1] + [a];
    assert a in multiset(ys);
    k :| 0 <= k < |ys| && ys[k] == a;
  }

  /** Taking one position out of a list takes its contribution out of the
      count and one copy out of the multiset. */
  lemma RemoveAt(v: seq<int>, d: Direction, c: Criterion, ys: seq<int>, k: nat) returns (ys': seq<int>)
    requires k < |ys|
    ensures multiset(ys') == multiset(ys) - multiset{ys[k]}
    ensures CountIn(v, d, c, ys) == CountIn(v, d, c, ys') + (if Holds(v, d, c, ys[k]) then 1 else 0)
  {
    var a := ys[k];
    ys' := ys[..k] + ys[k + 1..];
    assert ys == ys[..k] + [a] + ys[k + 1..];
    assert multiset(ys) == multiset(ys[..k]) + multiset{a} + multiset(ys[k + 1..]);
    CountInConcat(v, d, c, ys[..k] + [a], ys[k + 1..]);
    CountInConcat(v, d, c, ys[..k], [a]);
    CountInConcat(v, d, c, ys[..k], ys[k + 1..]);
    assert [a][..0] == [];
  }

  /** Counting the positions ahead of `t` over the whole collection is the
      ordinal count. */
  lemma {:induction false} CountInRangeAhead(v: seq<int>, d: Direction, t: nat, n: nat)
    requires t < |v| && n <= |v|
    ensures CountIn(v, d, AheadOf(t), Range(n)) == CountAhead(v, d, t, n)
  {
    if n > 0 {
      assert Range(n)[..n - 1] == Range(n - 1);
      CountInRangeAhead(v, d, t, n - 1);
    }
  }

  /** Counting the positions holding a value better than `x` over the
      first `n` positions is the value count of the first `n` values. */
  lemma {:induction false} CountInRangeBetter(v: seq<int>, d: Direction, x: int, n: nat)
    requires n <= |v|
    ensures CountIn(v, d, BetterThan(x), Range(n)) == CountBetter(v[..n], x, d)
  {
    if n > 0 {
      assert Range(n)[..n - 1] == Range(n - 1);
      assert v[..n][..n - 1] == v[..n - 1];
      CountInRangeBetter(v, d, x, n - 1);
    }
  }
}
