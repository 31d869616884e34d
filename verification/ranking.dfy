/** Competition and ordinal rank over the field values of a collection.
    A collection is represented by the sequence `v` of its extracted field
    values, in collection order; the target record is identified by its
    position `t`, so two records holding equal values stay distinct. */
module Ranking {
  import opened Order

  /** Number of values in `v` ranked strictly ahead of `x`. */
  function CountBetter(v: seq<int>, x: int, d: Direction): (n: nat)
    ensures n <= |v|
  {
    if |v| == 0 then 0
    else CountBetter(v[..|v| - 1], x, d) + (if Better(d, v[|v| - 1], x) then 1 else 0)
  }

  /** Number of values in `v` equal to `x`. */
  function CountEqual(v: seq<int>, x: int): (n: nat)
    ensures n <= |v|
  {
    if |v| == 0 then 0
    else CountEqual(v[..|v| - 1], x) + (if v[|v| - 1] == x then 1 else 0)
  }

  /** Record `i` comes before record `t` in the ordinal order: by value in
      direction `d`, and among equal values by position in the collection. */
  predicate Ahead(v: seq<int>, d: Direction, i: int, t: int) {
    && 0 <= i < |v| && 0 <= t < |v|
    && (Better(d, v[i], v[t]) || (v[i] == v[t] && i < t))
  }

  /** Number of records among the first `n` that come before record `t`
      in the ordinal order. */
  function CountAhead(v: seq<int>, d: Direction, t: nat, n: nat): (c: nat)
    requires t < |v| && n <= |v|
    ensures c <= n
    ensures t < n ==> c < n
  {
    if n == 0 then 0
    else CountAhead(v, d, t, n - 1) + (if Ahead(v, d, n - 1, t) then 1 else 0)
  }

  /** Competition ("1224") rank: one more than the number of records whose
      value is strictly better than the target's. */
  function CompetitionRank(v: seq<int>, t: nat, d: Direction): (r: nat)
    requires t < |v|
    ensures 1 <= r <= |v| + 1 - CountEqual(v, v[t])
    ensures r <= |v|
  {
    CountPartition(v, v[t], d);
    CountEqualPrefix(v, v[t], t);
    1 + CountBetter(v, v[t], d)
  }

  /** Ordinal ("1234") rank: one more than the number of records that come
      before the target when sorted by value, ties kept in collection order. */
  function OrdinalRank(v: seq<int>, t: nat, d: Direction): (r: nat)
    requires t < |v|
    ensures 1 <= r <= |v|
  {
    1 + CountAhead(v, d, t, |v|)
  }

  /** All values of `v` are pairwise different. */
  predicate Distinct(v: seq<int>) {
    forall i, j :: 0 <= i < j < |v| ==> v[i] != v[j]
  }

  // ---------------------------------------------------------------------
  // Counting facts

  /** Every value is better than `x`, equal to it, or worse than it. */
  lemma {:induction false} CountPartition(v: seq<int>, x: int, d: Direction)
    ensures CountBetter(v, x, d) + CountEqual(v, x) + CountBetter(v, x, Reverse(d)) == |v|
  {
    if |v| > 0 {
      CountPartition(v[..|v| - 1], x, d);
    }
  }

  /** No value is better than `x` exactly when the count is zero. */
  lemma {:induction false} CountBetterZero(v: seq<int>, x: int, d: Direction)
    ensures CountBetter(v, x, d) == 0 <==> forall k :: 0 <= k < |v| ==> !Better(d, v[k], x)
  {
    if |v| > 0 {
      var p := v[..|v| - 1];
      CountBetterZero(p, x, d);
      assert forall k :: 0 <= k < |p| ==> p[k] == v[k];
    }
  }

  /** No value equals `x` exactly when the count is zero. */
  lemma {:induction false} CountEqualZero(v: seq<int>, x: int)
    ensures CountEqual(v, x) == 0 <==> forall k :: 0 <= k < |v| ==> v[k] != x
  {
    if |v| > 0 {
      var p := v[..|v| - 1];
      CountEqualZero(p, x);
      assert forall k :: 0 <= k < |p| ==> p[k] == v[k];
    }
  }

  /** A prefix holds no more copies of `x` than the whole, and the element
      right after the prefix adds one when it is `x`. */
  lemma {:induction false} CountEqualPrefix(v: seq<int>, x: int, n: nat)
    requires n < |v|
    ensures CountEqual(v[..n], x) + (if v[n] == x then 1 else 0) <= CountEqual(v, x)
    decreases |v|
  {
    var p := v[..|v| - 1];
    if n < |v| - 1 {
      CountEqualPrefix(p, x, n);
      assert p[..n] == v[..n];
    } else {
      assert p == v[..n];
    }
  }

  /** In a collection of distinct values each value occurs once. */
  lemma {:induction false} DistinctCountEqual(v: seq<int>, t: nat)
    requires Distinct(v) && t < |v|
    ensures CountEqual(v, v[t]) == 1
    ensures CountEqual(v[..t], v[t]) == 0
  {
    CountEqualZero(v[..t], v[t]);
    var s := v[t + 1..];
    CountEqualZero(s, v[t]);
    assert v == v[..t] + [v[t]] + s;
    CountEqualConcat(v[..t] + [v[t]], s, v[t]);
    CountEqualConcat(v[..t], [v[t]], v[t]);
    assert CountEqual([v[t]], v[t]) == 1 by {
      assert [v[t]][..0] == [];
    }
  }

  /** Counting equal values is additive over concatenation. */
  lemma {:induction false} CountEqualConcat(a: seq<int>, b: seq<int>, x: int)
    ensures CountEqual(a + b, x) == CountEqual(a, x) + CountEqual(b, x)
    decreases |b|
  {
    if |b| > 0 {
      var b' := b[..|b| - 1];
      assert (a + b)[..|a + b| - 1] == a + b';
      CountEqualConcat(a, b', x);
    } else {
      assert a + b == a;
    }
  }

  /** Values better than or equal to `x` are all better than a worse `y`;
      when no value lies strictly between `x` and `y` these are all of them. */
  lemma {:induction false} CountBetterStep(v: seq<int>, x: int, y: int, d: Direction)
    requires Better(d, x, y)
    ensures CountBetter(v, x, d) + CountEqual(v, x) <= CountBetter(v, y, d)
    ensures (forall k :: 0 <= k < |v| ==> !(Better(d, x, v[k]) && Better(d, v[k], y)))
            ==> CountBetter(v, y, d) == CountBetter(v, x, d) + CountEqual(v, x)
  {
    if |v| > 0 {
      var p := v[..|v| - 1];
      CountBetterStep(p, x, y, d);
      assert forall k :: 0 <= k < |p| ==> p[k] == v[k];
    }
  }

  /** The ordinal count splits into the strictly better records plus the
      equal records that sit earlier in the collection. */
  lemma {:induction false} CountAheadSplit(v: seq<int>, d: Direction, t: nat, n: nat)
    requires t < |v| && n <= |v|
    ensures CountAhead(v, d, t, n)
            == CountBetter(v[..n], v[t], d) + CountEqual(v[..if n < t then n else t], v[t])
  {
    if n > 0 {
      CountAheadSplit(v, d, t, n - 1);
      assert v[..n][..n - 1] == v[..n - 1];
    }
  }

  // ---------------------------------------------------------------------
  // Competition rank

  /** Two records share a competition rank exactly when their values are
      equal, and one ranks strictly ahead exactly when its value is
      strictly better. */
  lemma CompetitionRankOrder(v: seq<int>, i: nat, j: nat, d: Direction)
    requires i < |v| && j < |v|
    ensures CompetitionRank(v, i, d) == CompetitionRank(v, j, d) <==> v[i] == v[j]
    ensures CompetitionRank(v, i, d) < CompetitionRank(v, j, d) <==> Better(d, v[i], v[j])
  {
    CountEqualPrefix(v, v[i], i);
    CountEqualPrefix(v, v[j], j);
    if Better(d, v[i], v[j]) {
      CountBetterStep(v, v[i], v[j], d);
    } else if Better(d, v[j], v[i]) {
      CountBetterStep(v, v[j], v[i], d);
    }
  }

  /** Rank 1 goes exactly to the records no other record beats: the
      largest value under `Desc`, the smallest under `Asc`. */
  lemma CompetitionRankOne(v: seq<int>, t: nat, d: Direction)
    requires t < |v|
    ensures CompetitionRank(v, t, d) == 1 <==> forall k :: 0 <= k < |v| ==> !Better(d, v[k], v[t])
  {
    CountBetterZero(v, v[t], d);
  }

  /** When every record holds the same value, every record ranks first. */
  lemma CompetitionRankAllEqual(v: seq<int>, t: nat, d: Direction)
    requires t < |v|
    requires forall k :: 0 <= k < |v| ==> v[k] == v[0]
    ensures CompetitionRank(v, t, d) == 1
  {
    CompetitionRankOne(v, t, d);
  }

  /** Skip-ahead: the next distinct value after a tie group ranks exactly
      the size of the tie group below the group's shared rank. */
  lemma CompetitionRankSkip(v: seq<int>, i: nat, j: nat, d: Direction)
    requires i < |v| && j < |v|
    requires Better(d, v[i], v[j])
    requires forall k :: 0 <= k < |v| ==> !(Better(d, v[i], v[k]) && Better(d, v[k], v[j]))
    ensures CompetitionRank(v, j, d) == CompetitionRank(v, i, d) + CountEqual(v, v[i])
  {
    CountBetterStep(v, v[i], v[j], d);
  }

  /** Reversing the direction mirrors the competition rank: the two ranks
      add up to N + 2 minus the size of the target's tie group. */
  lemma CompetitionRankReverse(v: seq<int>, t: nat, d: Direction)
    requires t < |v|
    ensures CompetitionRank(v, t, d) + CompetitionRank(v, t, Reverse(d))
            == |v| + 2 - CountEqual(v, v[t])
  {
    CountPartition(v, v[t], d);
  }

  // ---------------------------------------------------------------------
  // Ordinal rank

  /** The ordinal rank is the competition rank plus the number of records
      tied with the target that come earlier in the collection; hence it
      lies within the target's tie group. */
  lemma OrdinalFromCompetition(v: seq<int>, t: nat, d: Direction)
    requires t < |v|
    ensures OrdinalRank(v, t, d) == CompetitionRank(v, t, d) + CountEqual(v[..t], v[t])
    ensures CompetitionRank(v, t, d) <= OrdinalRank(v, t, d)
            < CompetitionRank(v, t, d) + CountEqual(v, v[t])
  {
    CountAheadSplit(v, d, t, |v|);
    assert v[..|v|] == v;
    CountEqualPrefix(v, v[t], t);
  }

  /** Every record ahead of `t` is ahead of any record `t` is ahead of,
      and `t` itself is one more. */
  lemma {:induction false} CountAheadMonotone(v: seq<int>, d: Direction, t: nat, u: nat, n: nat)
    requires Ahead(v, d, t, u) && n <= |v|
    ensures CountAhead(v, d, t, n) + (if t < n then 1 else 0) <= CountAhead(v, d, u, n)
  {
    if n > 0 {
      CountAheadMonotone(v, d, t, u, n - 1);
    }
  }

  /** A record that comes earlier in the ordinal order (better value, or
      equal value and earlier position) has a strictly smaller ordinal rank. */
  lemma OrdinalRankMonotone(v: seq<int>, d: Direction, t: nat, u: nat)
    requires Ahead(v, d, t, u)
    ensures OrdinalRank(v, t, d) < OrdinalRank(v, u, d)
  {
    CountAheadMonotone(v, d, t, u, |v|);
  }

  /** Different records never share an ordinal rank. */
  lemma OrdinalRankInjective(v: seq<int>, d: Direction, t: nat, u: nat)
    requires t < |v| && u < |v| && t != u
    ensures OrdinalRank(v, t, d) != OrdinalRank(v, u, d)
  {
    if Ahead(v, d, t, u) {
      OrdinalRankMonotone(v, d, t, u);
    } else {
      OrdinalRankMonotone(v, d, u, t);
    }
  }

  /** In a strictly increasing collection only the earlier records come
      ahead under `Asc`. */
  lemma {:induction false} CountAheadIncreasing(v: seq<int>, t: nat, n: nat)
    requires t < |v| && n <= |v|
    requires forall i, j :: 0 <= i < j < |v| ==> v[i] < v[j]
    ensures CountAhead(v, Asc, t, n) == if n < t then n else t
  {
    if n > 0 {
      CountAheadIncreasing(v, t, n - 1);
    }
  }

  /** In a strictly increasing collection the ordinal rank is the
      collection position plus one ascending, counted from the end
      descending. */
  lemma OrdinalRankIncreasing(v: seq<int>, t: nat)
    requires t < |v|
    requires forall i, j :: 0 <= i < j < |v| ==> v[i] < v[j]
    ensures OrdinalRank(v, t, Asc) == t + 1
    ensures OrdinalRank(v, t, Desc) == |v| - t
  {
    CountAheadIncreasing(v, t, |v|);
    OrdinalRankReverseDistinct(v, t, Asc);
  }

  /** With distinct values there are no ties: ordinal and competition rank
      agree, and reversing the direction maps rank r to N + 1 - r. */
  lemma OrdinalRankReverseDistinct(v: seq<int>, t: nat, d: Direction)
    requires t < |v| && Distinct(v)
    ensures OrdinalRank(v, t, d) == CompetitionRank(v, t, d)
    ensures OrdinalRank(v, t, d) + OrdinalRank(v, t, Reverse(d)) == |v| + 1
  {
    OrdinalFromCompetition(v, t, d);
    OrdinalFromCompetition(v, t, Reverse(d));
    DistinctCountEqual(v, t);
    CompetitionRankReverse(v, t, d);
  }
}
