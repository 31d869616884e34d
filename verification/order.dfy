/** Sort directions and the "strictly better" relation both ranking
    disciplines are built on. */
module Order {

  /** `'asc'` ranks the smallest value first, `'desc'` the largest. */
  datatype Direction = Asc | Desc

  /** True when value `a` is ranked strictly ahead of value `b`:
      greater under `Desc`, smaller under `Asc`. */
  predicate Better(d: Direction, a: int, b: int) {
    match d
    case Desc => a > b
    case Asc => a < b
  }

  /** The opposite direction; "better" under it is "worse" under `d`. */
  function Reverse(d: Direction): (r: Direction)
    ensures r != d
    ensures forall a, b :: Better(r, a, b) <==> Better(d, b, a)
  {
    match d
    case Asc => Desc
    case Desc => Asc
  }
}
