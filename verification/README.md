# Ranking core of `calculate`, modelled in Dafny

The `calculate` package ranks a record within a collection of records by a
named field. It offers two disciplines:

- `competition_rank(collection, target, field, direction)`: records with
  equal values share a rank, and the next distinct value skips ahead by the
  size of the tie group ("1, 2, 2, 4").
- `ordinal_rank(collection, target, field, direction)`: every record gets a
  distinct 1-based position.

In both, `direction` is `'asc'` (smallest value first) or `'desc'` (largest
first). Records come in three shapes: key/value dicts, plain attribute
objects, and Django model instances. The ranking reads the field the same
way from all three.

The implementation module of the package is not part of this model. The
package's unit tests (`calculate/tests.py`) are the evidence for the two
functions. Where the tests are silent, the model makes its own choices,
each listed under "## Left out": it reads the field from every record
before it looks for the target, it reports the first record that fails,
and it breaks ordinal ties by collection position. A second definition of
both ranks, by sorting and then scanning, is proved to agree with the
counting definitions.

## Layout

- `order.dfy` (module `Order`): `Direction` (`Asc`/`Desc`) and the
  "strictly better" relation.
- `ranking.dfy` (module `Ranking`): both ranks as counts over the sequence of
  field values, with the target given by its position. It holds the
  properties: ties, skip-ahead, rank 1, direction reversal, injectivity.
- `sorting.dfy` (module `Sorting`): the sort-then-scan algorithm as an
  insertion sort of positions plus a linear scan. It is proved equal to the
  count definitions, and it proves that ordinal ranks are a permutation of
  1..N.
- `fields.dfy` (module `Fields`): the three record shapes, field lookup, and
  re-building a collection in another shape.
- `calculate.dfy` (module `Calculate`): the record-level calls with their
  error results, plus shape invariance.
- `scenarios.dfy` (module `Scenarios`): the test collections and their
  expected ranks.

A target is identified by its index in the collection. This gives identity,
not value equality, so Jane and Mary (both 2) stay distinct records. An index
outside the collection is the "target not found" error.

## Model

| member | source | states |
|---|---|---|
| Fields.GetField | calculate/tests.py:52-105 | a field read succeeds exactly when the record, whatever its shape (dict key, object attribute, model attribute), holds that name, and yields the value stored there; a model instance's primary key reads as a field under its own name and as `pk` |
| Fields.Reshape | calculate/tests.py:79-105 | rebuilding a dict collection as attribute objects or model instances keeps every record's fields readable with the same values; model instances gain their primary key (`fake_id`, `pk`) holding 1..N in collection order |
| Calculate.Extract | calculate/tests.py:52-57 | reading the field succeeds exactly when every record holds a number under it, and then yields one value per record in collection order |
| Calculate.ExtractFrom | calculate/tests.py:52-57 | a failed read names the first record that lacks the field or holds a non-number there; every earlier record was numeric |
| Calculate.CompetitionRankOf | calculate/tests.py:51-121 | competition_rank succeeds exactly when all records are numeric and the target is a member; the failure is "target not found" exactly when only membership fails; a rank lies in 1..N |
| Calculate.OrdinalRankOf | calculate/tests.py:211-269 | ordinal_rank has the same success and failure conditions, and a rank lies in 1..N |
| Calculate.RanksIgnoreShape | calculate/tests.py:79-121 | dict, attribute-object and model-instance collections give identical ranks and identical failures under both disciplines for every field except the primary key the model instances gain |
| Calculate.RanksByModelKey | calculate/tests.py:97-105 | the gained primary key is a rankable field: keys 1..N give ordinal rank t + 1 ascending, N - t descending, and competition rank t + 1 ascending |
| Calculate.CompetitionRankOfMeaning | calculate/tests.py:58-95 | a successful competition rank is 1 + the number of records with a strictly better field; it is 1 exactly when no record beats the target; two records share it exactly when their fields are equal |
| Calculate.OrdinalRankOfInjective | calculate/tests.py:227-243 | two different records of a numeric collection never share an ordinal rank |
| Ranking.CompetitionRank | calculate/tests.py:58-73 | a competition rank lies between 1 and N + 1 minus the size of the target's tie group |
| Ranking.OrdinalRank | calculate/tests.py:228-243 | an ordinal rank lies between 1 and N |
| Ranking.CompetitionRankOrder | calculate/tests.py:62-69 | equal ranks exactly for equal values; a strictly smaller rank exactly for a strictly better value, in either direction |
| Ranking.CompetitionRankOne | calculate/tests.py:70-83 | rank 1 exactly when no value is strictly better: the largest value under desc, the smallest under asc |
| Ranking.CompetitionRankAllEqual | calculate/tests.py:62-69 | when all records hold the same value, every record ranks 1 |
| Ranking.CompetitionRankSkip | calculate/tests.py:58-69 | the next distinct value after a tie group ranks exactly the group's rank plus the group's size (2 + 2 = 4) |
| Ranking.CompetitionRankReverse | calculate/tests.py:58-95 | the competition ranks under asc and desc add up to N + 2 minus the target's tie-group size |
| Ranking.OrdinalFromCompetition | calculate/tests.py:211-243 | ordinal rank = competition rank + the number of equal values earlier in the collection, so it lies inside the target's tie group |
| Ranking.OrdinalRankMonotone | calculate/tests.py:228-243 | a record with a better value, or an equal value and an earlier position, has a strictly smaller ordinal rank |
| Ranking.OrdinalRankInjective | calculate/tests.py:228-243 | different records never share an ordinal rank |
| Ranking.OrdinalRankIncreasing | calculate/tests.py:228-243 | in a strictly increasing collection the ordinal rank is position + 1 ascending and N - position descending |
| Ranking.OrdinalRankReverseDistinct | calculate/tests.py:228-269 | with distinct values, ordinal rank equals competition rank, and reversing the direction maps rank r to N + 1 - r |
| Sorting.Sort | calculate/tests.py:228-243 | sorting yields every position exactly once, ordered by value in the direction with ties in collection order |
| Sorting.SortedPosition | calculate/tests.py:228-243 | the record at position p of the sorted order has ordinal rank p + 1 |
| Sorting.OrdinalRankBySort | calculate/tests.py:211-269 | sorting the collection and scanning for the target gives exactly the count-defined ordinal rank |
| Sorting.CompetitionRankBySort | calculate/tests.py:51-121 | sorting and scanning for the first record holding the target's value gives exactly the count-defined competition rank |
| Sorting.OrdinalRanksArePermutation | calculate/tests.py:228-243 | the ordinal ranks of the N records are exactly {1..N}, each taken by one record |
| Scenarios.CompetitionRankDescScenario | calculate/tests.py:51-73 | dicts Joan 1, Jane 2, Mary 2, Josh 3, descending: ranks 4, 2, 2, 1 |
| Scenarios.CompetitionRankAscScenario | calculate/tests.py:79-121 | the same people as attribute objects or model instances, ascending: ranks 1, 2, 2, 4 |
| Scenarios.OrdinalRankAscScenario | calculate/tests.py:227-243 | attribute objects Joan 1, Jane 2, Mary 3, Josh 4, ascending: ranks 1, 2, 3, 4 |
| Scenarios.OrdinalRankDescScenario | calculate/tests.py:253-269 | the same people as model instances, descending: ranks 4, 3, 2, 1 |

## Left out

- Default arguments (`field='value'`, `direction`): the calls at
  calculate/tests.py:218-221 expect ascending order from the default
  direction. The calls at calculate/tests.py:254-269 expect descending order
  on the same values. No single default satisfies both, so the model always
  takes the direction explicitly.
- The spelling of directions (`'asc'`, `'desc'`): modelled as the `Direction`
  datatype. What the package does with any other string is unknown.
- Percentile and decile: `test_decile` is an empty stub and there is no
  percentile test, so there is no evidence for their boundary conventions.
  Their results are also floating point.
- The other statistics (mean, median, mode, elfi, pearson, benfords_law,
  adjusted_monthly_value, per_capita, per_sqmi): floating-point formulas
  with no part in ranking.
- `date_range`: calendar arithmetic from Python's `datetime` library.
- `mean_center` and `nudge_points`: they depend on GEOS points, a foreign
  library, and on floating coordinates.
- The Django model machinery: a model instance is reduced to its attribute
  map and its primary key. The key reads as a field under its declared name
  and as `pk`. Other model attributes (managers, methods) are not modelled.
- Ranking by a text field: Python compares strings lexicographically. The
  model ranks numeric fields only and reports `NotNumeric` for a text value.
- Field values are modelled as `int`, so floats and `Decimal`s are not
  modelled directly. Both ranks depend only on how values compare (`<`,
  `==`). So any finite collection of totally ordered values ranks the same
  as its image under an order-preserving map into `int`. NaN has no place
  in a total order and is not modelled.
- Ordinal tie-break: the tests never tie under `ordinal_rank`. The model
  orders tied records by collection position, earlier first, in both
  directions. Another implementation might put the later record first under
  `desc`. That would change which tied record gets which rank, but not the
  set of ranks.
- Error order and error kinds: no test exercises a missing field, a
  non-member target or mixed types. The model reads the field from every
  record first and reports the first failing record. Only then does it look
  for the target.
