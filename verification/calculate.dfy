/** The public ranking calls: `competition_rank(collection, target, field,
    direction)` and `ordinal_rank(...)` over a collection of records. The
    field is read from every record first; the target record is then
    located by identity, modelled as its position in the collection. */
module Calculate {
  import opened Order
  import opened Fields
  import Ranking

  /** Why a ranking call fails. */
  datatype RankError =
    | MissingField(index: nat)   // record `index` has no such key or attribute
    | NotNumeric(index: nat)     // record `index` holds a non-numeric value there
    | TargetNotFound             // the target is not a member of the collection

  datatype Result<T> = Ok(value: T) | Err(error: RankError)

  /** Record `k` holds a number under `name`. */
  predicate NumericAt(rs: seq<Record>, name: string, k: int)
    requires 0 <= k < |rs|
  {
    GetField(rs[k], name).Some? && GetField(rs[k], name).value.Num?
  }

  /** Every record of the collection holds a number under `name`. */
  predicate AllNumeric(rs: seq<Record>, name: string) {
    forall k :: 0 <= k < |rs| ==> NumericAt(rs, name, k)
  }

  /** Reads field `name` from records `i` onwards, failing at the first
      record that lacks it or holds a non-number there. */
  function ExtractFrom(rs: seq<Record>, name: string, i: nat): (r: Result<seq<int>>)
    requires i <= |rs|
    ensures r.Ok? ==> |r.value| == |rs| - i
    ensures r.Ok? ==> forall k :: i <= k < |rs| ==> GetField(rs[k], name) == Some(Num(r.value[k - i]))
    ensures r.Err? ==> && r.error != TargetNotFound
                       && i <= r.error.index < |rs|
                       && (forall k :: i <= k < r.error.index ==> NumericAt(rs, name, k))
                       && (r.error.MissingField? <==> GetField(rs[r.error.index], name).None?)
                       && !NumericAt(rs, name, r.error.index)
    decreases |rs| - i
  {
    if i == |rs| then Ok([])
    else match GetField(rs[i], name)
      case None => Err(MissingField(i))
      case Some(Text(_)) => Err(NotNumeric(i))
      case Some(Num(n)) =>
        match ExtractFrom(rs, name, i + 1)
        case Err(e) => Err(e)
        case Ok(vs) => Ok([n] + vs)
  }

  /** The field values of the whole collection, in collection order. */
  function Extract(rs: seq<Record>, name: string): (r: Result<seq<int>>)
    ensures r.Ok? <==> AllNumeric(rs, name)
    ensures r.Ok? ==> |r.value| == |rs|
    ensures r.Ok? ==> forall k :: 0 <= k < |rs| ==> GetField(rs[k], name) == Some(Num(r.value[k]))
  {
    ExtractFrom(rs, name, 0)
  }

  /** `competition_rank`: 1 + the number of records whose field is strictly
      better than the target's. */
  function CompetitionRankOf(rs: seq<Record>, t: nat, name: string, d: Direction): (r: Result<nat>)
    ensures r.Ok? <==> AllNumeric(rs, name) && t < |rs|
    ensures r == Err(TargetNotFound) <==> AllNumeric(rs, name) && t >= |rs|
    ensures r.Ok? ==> 1 <= r.value <= |rs|
  {
    match Extract(rs, name)
    case Err(e) => Err(e)
    case Ok(vs) => if t < |vs| then Ok(Ranking.CompetitionRank(vs, t, d)) else Err(TargetNotFound)
  }

  /** `ordinal_rank`: the target's 1-based position once the collection is
      sorted by the field, equal values kept in collection order. */
  function OrdinalRankOf(rs: seq<Record>, t: nat, name: string, d: Direction): (r: Result<nat>)
    ensures r.Ok? <==> AllNumeric(rs, name) && t < |rs|
    ensures r == Err(TargetNotFound) <==> AllNumeric(rs, name) && t >= |rs|
    ensures r.Ok? ==> 1 <= r.value <= |rs|
  {
    match Extract(rs, name)
    case Err(e) => Err(e)
    case Ok(vs) => if t < |vs| then Ok(Ranking.OrdinalRank(vs, t, d)) else Err(TargetNotFound)
  }

  // ---------------------------------------------------------------------
  // Lemmas

  /** Extraction sees records only through their field values: collections
      that agree on every record's field read the same values, or fail at
      the same record. */
  lemma {:induction false} ExtractFromSameFields(a: seq<Record>, b: seq<Record>, name: string, i: nat)
    requires |a| == |b| && i <= |a|
    requires forall k :: 0 <= k < |a| ==> GetField(a[k], name) == GetField(b[k], name)
    ensures ExtractFrom(a, name, i) == ExtractFrom(b, name, i)
    decreases |a| - i
  {
    if i < |a| {
      ExtractFromSameFields(a, b, name, i + 1);
    }
  }

  /** Shape invariance: rebuilding a collection as key/value records,
      attribute objects or model instances leaves every rank, and every
      failure, unchanged, for any field other than the primary key the
      model instances gain. */
  lemma RanksIgnoreShape(rs: seq<Record>, s: Shape, t: nat, name: string, d: Direction)
    ensures !AddsField(s, name)
            ==> CompetitionRankOf(Reshape(rs, s), t, name, d) == CompetitionRankOf(rs, t, name, d)
    ensures !AddsField(s, name)
            ==> OrdinalRankOf(Reshape(rs, s), t, name, d) == OrdinalRankOf(rs, t, name, d)
  {
    if !AddsField(s, name) {
      ExtractFromSameFields(Reshape(rs, s), rs, name, 0);
    }
  }

  /** The primary key the model instances gain is itself a rankable field:
      keys 1 .. N rank the records in collection order ascending and in
      reverse order descending, whatever the other fields hold. */
  lemma RanksByModelKey(rs: seq<Record>, key: string, t: nat)
    requires t < |rs|
    ensures OrdinalRankOf(Reshape(rs, ModelShape(key)), t, key, Asc) == Ok(t + 1)
    ensures OrdinalRankOf(Reshape(rs, ModelShape(key)), t, key, Desc) == Ok(|rs| - t)
    ensures CompetitionRankOf(Reshape(rs, ModelShape(key)), t, key, Asc) == Ok(t + 1)
  {
    var ms := Reshape(rs, ModelShape(key));
    assert AllNumeric(ms, key) by {
      forall k | 0 <= k < |ms|
        ensures NumericAt(ms, key, k)
      {
        assert GetField(ms[k], key) == Some(Num(k + 1));
      }
    }
    var vs := Extract(ms, key).value;
    forall k | 0 <= k < |vs|
      ensures vs[k] == k + 1
    {
      assert GetField(ms[k], key) == Some(Num(k + 1));
    }
    Ranking.OrdinalRankIncreasing(vs, t);
    Ranking.OrdinalRankReverseDistinct(vs, t, Asc);
  }

  /** A successful competition rank counts the records whose field is
      strictly better; a rank of 1 means no record's field beats the
      target's, and equal fields share the rank. */
  lemma CompetitionRankOfMeaning(rs: seq<Record>, t: nat, u: nat, name: string, d: Direction, vs: seq<int>)
    requires Extract(rs, name) == Ok(vs) && t < |rs| && u < |rs|
    ensures CompetitionRankOf(rs, t, name, d) == Ok(1 + Ranking.CountBetter(vs, vs[t], d))
    ensures CompetitionRankOf(rs, t, name, d) == Ok(1)
            <==> forall k :: 0 <= k < |rs| ==> !Better(d, vs[k], vs[t])
    ensures CompetitionRankOf(rs, t, name, d) == CompetitionRankOf(rs, u, name, d)
            <==> GetField(rs[t], name) == GetField(rs[u], name)
  {
    Ranking.CompetitionRankOne(vs, t, d);
    Ranking.CompetitionRankOrder(vs, t, u, d);
  }

  /** Two different records of a numeric collection never share an
      ordinal rank. */
  lemma OrdinalRankOfInjective(rs: seq<Record>, t: nat, u: nat, name: string, d: Direction)
    requires AllNumeric(rs, name) && t < u < |rs|
    ensures OrdinalRankOf(rs, t, name, d).Ok? && OrdinalRankOf(rs, u, name, d).Ok?
    ensures OrdinalRankOf(rs, t, name, d) != OrdinalRankOf(rs, u, name, d)
  {
    var vs := Extract(rs, name).value;
    Ranking.OrdinalRankInjective(vs, d, t, u);
  }
}
