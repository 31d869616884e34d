/** Records of the three shapes the ranking functions accept, and reading a
    named field from any of them. */
module Fields {

  datatype Option<T> = None | Some(value: T)

  /** A field value: the collections ranked hold integers; other fields
      (a record's name, say) hold text. */
  datatype Value = Num(n: int) | Text(s: string)

  /** A record of one of the three supported shapes. */
  datatype Record =
    | Mapping(entries: map<string, Value>)          // key/value record (a dict)
    | Object(attrs: map<string, Value>)             // object with named attributes
    | ModelInstance(key: string, pk: int, attrs: map<string, Value>)
      // database model instance whose primary key `pk` is the field named `key`

  /** The shape of a record, without its contents; a model shape names its
      primary-key field. */
  datatype Shape = MappingShape | ObjectShape | ModelShape(key: string)

  /** The name under which every model instance also exposes its primary key. */
  const PkAlias: string := "pk"

  /** The fields a record exposes, whatever its shape. A model instance
      exposes its primary key as a field, under its own name and as `pk`. */
  function Contents(r: Record): map<string, Value> {
    match r
    case Mapping(m) => m
    case Object(a) => a
    case ModelInstance(k, pk, a) => a[k := Num(pk)][PkAlias := Num(pk)]
  }

  /** Reads field `name`: by key lookup for a mapping, by attribute lookup
      otherwise. A model instance is read like any attribute object, its
      primary key included. `None` is the lookup failure. */
  function GetField(r: Record, name: string): (f: Option<Value>)
    ensures f.Some? <==> name in Contents(r)
    ensures f.Some? ==> f.value == Contents(r)[name]
    ensures r.ModelInstance? && (name == r.key || name == PkAlias) ==> f == Some(Num(r.pk))
  {
    match r
    case Mapping(m) => if name in m then Some(m[name]) else None
    case Object(a) => if name in a then Some(a[name]) else None
    case ModelInstance(k, pk, a) =>
      if name == PkAlias || name == k then Some(Num(pk))
      else if name in a then Some(a[name])
      else None
  }

  /** Rebuilding a record in shape `s` adds the field `name`: the primary
      key of a model instance, under its own name or as `pk`. */
  predicate AddsField(s: Shape, name: string) {
    s.ModelShape? && (name == s.key || name == PkAlias)
  }

  /** The same fields, held in a record of shape `s`; `pk` is the primary
      key a model instance is given. */
  function AsShape(r: Record, s: Shape, pk: int): (r': Record)
    ensures forall name :: !AddsField(s, name) ==> GetField(r', name) == GetField(r, name)
    ensures forall name :: AddsField(s, name) ==> GetField(r', name) == Some(Num(pk))
  {
    match s
    case MappingShape => Mapping(Contents(r))
    case ObjectShape => Object(Contents(r))
    case ModelShape(k) => ModelInstance(k, pk, Contents(r))
  }

  /** A collection rebuilt in shape `s`, model instances numbered from 1
      as the collection's primary keys. */
  function Reshape(rs: seq<Record>, s: Shape): (rs': seq<Record>)
    ensures |rs'| == |rs|
    ensures forall i, name :: 0 <= i < |rs| && !AddsField(s, name)
              ==> GetField(rs'[i], name) == GetField(rs[i], name)
    ensures forall i, name :: 0 <= i < |rs| && AddsField(s, name)
              ==> GetField(rs'[i], name) == Some(Num(i + 1))
  {
    seq(|rs|, i requires 0 <= i < |rs| => AsShape(rs[i], s, i + 1))
  }
}
