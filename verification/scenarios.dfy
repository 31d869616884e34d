/** The concrete collections of the package's ranking tests, checked
    against the model in every record shape they are built in. */
module Scenarios {
  import opened Order
  import opened Fields
  import opened Calculate

  /** The primary-key field of the test's model class. */
  const FakeId: string := "fake_id"

  function Person(name: string, value: int): map<string, Value> {
    map["name" := Text(name), "value" := Num(value)]
  }

  /** Joan 1, Jane 2, Mary 2, Josh 3: a two-way tie in the middle. */
  function TiedPeople(): seq<Record> {
    [ Mapping(Person("Joan", 1)), Mapping(Person("Jane", 2)),
      Mapping(Person("Mary", 2)), Mapping(Person("Josh", 3)) ]
  }

  /** Joan 1, Jane 2, Mary 3, Josh 4: all values distinct. */
  function DistinctPeople(): seq<Record> {
    [ Mapping(Person("Joan", 1)), Mapping(Person("Jane", 2)),
      Mapping(Person("Mary", 3)), Mapping(Person("Josh", 4)) ]
  }

  /** Reading "value" off four people in turn. */
  lemma ExtractFour(rs: seq<Record>, a: int, b: int, c: int, e: int)
    requires |rs| == 4
    requires GetField(rs[0], "value") == Some(Num(a)) && GetField(rs[1], "value") == Some(Num(b))
    requires GetField(rs[2], "value") == Some(Num(c)) && GetField(rs[3], "value") == Some(Num(e))
    ensures Extract(rs, "value") == Ok([a, b, c, e])
  {
    assert ExtractFrom(rs, "value", 4) == Ok([]);
    assert [e] + [] == [e];
    assert ExtractFrom(rs, "value", 3) == Ok([e]);
    assert [c] + [e] == [c, e];
    assert ExtractFrom(rs, "value", 2) == Ok([c, e]);
    assert [b] + [c, e] == [b, c, e];
    assert ExtractFrom(rs, "value", 1) == Ok([b, c, e]);
    assert [a] + [b, c, e] == [a, b, c, e];
  }

  function Indicator(b: bool): nat {
    if b then 1 else 0
  }

  /** The better-value count of a four-record collection, written out. */
  lemma CountBetterFour(v: seq<int>, x: int, d: Direction)
    requires |v| == 4
    ensures Ranking.CountBetter(v, x, d)
            == Indicator(Better(d, v[0], x)) + Indicator(Better(d, v[1], x))
               + Indicator(Better(d, v[2], x)) + Indicator(Better(d, v[3], x))
  {
    var p1, p2, p3 := v[..1], v[..2], v[..3];
    assert Ranking.CountBetter(p1, x, d) == Indicator(Better(d, v[0], x)) by {
      assert p1[..0] == [];
    }
    assert Ranking.CountBetter(p2, x, d)
           == Ranking.CountBetter(p1, x, d) + Indicator(Better(d, v[1], x)) by {
      assert p2[..1] == p1;
    }
    assert Ranking.CountBetter(p3, x, d)
           == Ranking.CountBetter(p2, x, d) + Indicator(Better(d, v[2], x)) by {
      assert p3[..2] == p2;
    }
  }

  /** The ordinal count of a four-record collection, written out. */
  lemma CountAheadFour(v: seq<int>, d: Direction, t: nat)
    requires |v| == 4 && t < 4
    ensures Ranking.CountAhead(v, d, t, 4)
            == Indicator(Ranking.Ahead(v, d, 0, t)) + Indicator(Ranking.Ahead(v, d, 1, t))
               + Indicator(Ranking.Ahead(v, d, 2, t)) + Indicator(Ranking.Ahead(v, d, 3, t))
  {
    assert Ranking.CountAhead(v, d, t, 1) == Indicator(Ranking.Ahead(v, d, 0, t));
    assert Ranking.CountAhead(v, d, t, 2)
           == Ranking.CountAhead(v, d, t, 1) + Indicator(Ranking.Ahead(v, d, 1, t));
    assert Ranking.CountAhead(v, d, t, 3)
           == Ranking.CountAhead(v, d, t, 2) + Indicator(Ranking.Ahead(v, d, 2, t));
    assert Ranking.CountAhead(v, d, t, 4)
           == Ranking.CountAhead(v, d, t, 3) + Indicator(Ranking.Ahead(v, d, 3, t));
  }

  lemma TiedValues()
    ensures Extract(TiedPeople(), "value") == Ok([1, 2, 2, 3])
  {
    var rs := TiedPeople();
    assert GetField(rs[0], "value") == Some(Num(1));
    assert GetField(rs[1], "value") == Some(Num(2));
    assert GetField(rs[2], "value") == Some(Num(2));
    assert GetField(rs[3], "value") == Some(Num(3));
    ExtractFour(rs, 1, 2, 2, 3);
  }

  lemma DistinctValues()
    ensures Extract(DistinctPeople(), "value") == Ok([1, 2, 3, 4])
  {
    var rs := DistinctPeople();
    assert GetField(rs[0], "value") == Some(Num(1));
    assert GetField(rs[1], "value") == Some(Num(2));
    assert GetField(rs[2], "value") == Some(Num(3));
    assert GetField(rs[3], "value") == Some(Num(4));
    ExtractFour(rs, 1, 2, 3, 4);
  }

  /** Descending on key/value records: Joan 4, Jane 2, Mary 2, Josh 1. */
  lemma CompetitionRankDescScenario()
    ensures CompetitionRankOf(TiedPeople(), 0, "value", Desc) == Ok(4)
    ensures CompetitionRankOf(TiedPeople(), 1, "value", Desc) == Ok(2)
    ensures CompetitionRankOf(TiedPeople(), 2, "value", Desc) == Ok(2)
    ensures CompetitionRankOf(TiedPeople(), 3, "value", Desc) == Ok(1)
  {
    TiedValues();
    var v := [1, 2, 2, 3];
    CountBetterFour(v, 1, Desc);
    CountBetterFour(v, 2, Desc);
    CountBetterFour(v, 3, Desc);
  }

  /** Ascending on attribute objects and on model instances: Joan 1,
      Jane 2, Mary 2, Josh 4. */
  lemma CompetitionRankAscScenario(s: Shape)
    requires s == ObjectShape || s == ModelShape(FakeId)
    ensures CompetitionRankOf(Reshape(TiedPeople(), s), 0, "value", Asc) == Ok(1)
    ensures CompetitionRankOf(Reshape(TiedPeople(), s), 1, "value", Asc) == Ok(2)
    ensures CompetitionRankOf(Reshape(TiedPeople(), s), 2, "value", Asc) == Ok(2)
    ensures CompetitionRankOf(Reshape(TiedPeople(), s), 3, "value", Asc) == Ok(4)
  {
    TiedValues();
    var v := [1, 2, 2, 3];
    CountBetterFour(v, 1, Asc);
    CountBetterFour(v, 2, Asc);
    CountBetterFour(v, 3, Asc);
    RanksIgnoreShape(TiedPeople(), s, 0, "value", Asc);
    RanksIgnoreShape(TiedPeople(), s, 1, "value", Asc);
    RanksIgnoreShape(TiedPeople(), s, 2, "value", Asc);
    RanksIgnoreShape(TiedPeople(), s, 3, "value", Asc);
  }

  /** Ordinal ranks of the values 1, 2, 3, 4, ascending. */
  lemma OrdinalAscOnValues(t: nat)
    requires t < 4
    ensures Ranking.OrdinalRank([1, 2, 3, 4], t, Asc) == t + 1
  {
    CountAheadFour([1, 2, 3, 4], Asc, t);
  }

  /** Descending ranks follow from the ascending ones by reversal. */
  lemma OrdinalDescOnValues(t: nat)
    requires t < 4
    ensures Ranking.OrdinalRank([1, 2, 3, 4], t, Desc) == 4 - t
  {
    OrdinalAscOnValues(t);
    Ranking.OrdinalRankReverseDistinct([1, 2, 3, 4], t, Asc);
  }

  /** Ascending on attribute objects: Joan 1, Jane 2, Mary 3, Josh 4. */
  lemma OrdinalRankAscScenario(t: nat)
    requires t < 4
    ensures OrdinalRankOf(Reshape(DistinctPeople(), ObjectShape), t, "value", Asc) == Ok(t + 1)
  {
    DistinctValues();
    OrdinalAscOnValues(t);
    RanksIgnoreShape(DistinctPeople(), ObjectShape, t, "value", Asc);
  }

  /** Descending on model instances: Joan 4, Jane 3, Mary 2, Josh 1. */
  lemma OrdinalRankDescScenario(t: nat)
    requires t < 4
    ensures OrdinalRankOf(Reshape(DistinctPeople(), ModelShape(FakeId)), t, "value", Desc) == Ok(4 - t)
  {
    DistinctValues();
    OrdinalDescOnValues(t);
    RanksIgnoreShape(DistinctPeople(), ModelShape(FakeId), t, "value", Desc);
  }
}
