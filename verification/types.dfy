/** The values the classifier inspects and the type annotations it builds. */
module Types {
  import opened StableSort
  import opened Deduplication

  /** Runtime type objects that `type(obj)` can return. The five primitives
      are listed at annotation-generator.py:36; any other class is named. */
  datatype PyType =
    | BoolType
    | FloatType
    | IntType
    | StrType
    | NoneType
    | ClassType(name: string)

  /** A runtime value, classified once by its shape. `Dict`, `List`, `Set` and
      `Tuple` stand for instances of `dict`, `list`, `set` and `tuple` or of
      their subclasses, entries in iteration order. `Object` is every other
      value: instances of subclasses of the primitives, frozensets and
      arbitrary objects, identified by their class. `cls` stands for the
      class object itself, not its printed name: two distinct classes never
      share a `cls`, even when they print alike. */
  datatype Value =
    | Bool(b: bool)
    | Float
    | Int(i: int)
    | Str(s: string)
    | NoneValue
    | Object(cls: string)
    | Dict(items: seq<(Value, Value)>)
    | List(elems: seq<Value>)
    | Set(elems: seq<Value>)
    | Tuple(elems: seq<Value>)

  /** A PEP 484 type annotation built from `typing`. */
  datatype Desc =
    | Leaf(t: PyType)                       // a runtime type object
    | DictOf(keyType: Desc, valueType: Desc) // Dict[K, V]
    | ListOf(elemType: Desc)                 // List[E]
    | SetOf(elemType: Desc)                  // Set[E]
    | TupleOf(entries: seq<Desc>)            // Tuple[[T1, ..., Tn]], positional
    | TupleOfMany(elemType: Desc)            // Tuple[T, ...]
    | Union(members: seq<Desc>)              // Union[T1, ..., Tn]

  /** The one failure: an `IndexError` from indexing an empty list of types. */
  datatype Error = EmptyContainer

  /** The types an annotation admits: a union's members, or the annotation itself. */
  function Members(d: Desc): (r: seq<Desc>)
    ensures d !in r ==> d.Union?
  {
    if d.Union? then d.members else [d]
  }

  /** No member of `ds` is a union. */
  predicate NoUnions(ds: seq<Desc>) {
    forall i :: 0 <= i < |ds| ==> !ds[i].Union?
  }


  /** What `typing.Union` guarantees of a union it does not collapse: at least
      two members, none repeated, none itself a union. */
  predicate ProperUnion(ms: seq<Desc>) {
    |ms| >= 2 && Distinct(ms) && NoUnions(ms)
  }

  /** Every union in `d` is proper, and only `Dict`, `List` and `Set`
      arguments may be unions. */
  predicate WellFormed(d: Desc) {
    match d
    case Leaf(_) => true
    case DictOf(k, v) => WellFormed(k) && WellFormed(v)
    case ListOf(e) => WellFormed(e)
    case SetOf(e) => WellFormed(e)
    case TupleOf(es) => forall i :: 0 <= i < |es| ==> !es[i].Union? && WellFormed(es[i])
    case TupleOfMany(e) => !e.Union? && WellFormed(e)
    case Union(ms) => ProperUnion(ms) && forall i :: 0 <= i < |ms| ==> WellFormed(ms[i])
  }

  /** Every union and every positional tuple in `d` lists its members in
      non-decreasing order of `key`. */
  predicate Canonical(key: Desc -> string, d: Desc) {
    match d
    case Leaf(_) => true
    case DictOf(k, v) => Canonical(key, k) && Canonical(key, v)
    case ListOf(e) => Canonical(key, e)
    case SetOf(e) => Canonical(key, e)
    case TupleOf(es) => SortedBy(key, es) && forall i :: 0 <= i < |es| ==> Canonical(key, es[i])
    case TupleOfMany(e) => Canonical(key, e)
    case Union(ms) => SortedBy(key, ms) && forall i :: 0 <= i < |ms| ==> Canonical(key, ms[i])
  }

  /** Every annotation in `ds` is canonical. */
  predicate AllCanonical(key: Desc -> string, ds: seq<Desc>) {
    forall i :: 0 <= i < |ds| ==> Canonical(key, ds[i])
  }

  /** The annotations of the elements directly inside `d` are canonical,
      whatever the order of `d`'s own members. */
  predicate InnerCanonical(key: Desc -> string, d: Desc) {
    match d
    case Leaf(_) => true
    case DictOf(k, v) => AllCanonical(key, Members(k)) && AllCanonical(key, Members(v))
    case ListOf(e) => AllCanonical(key, Members(e))
    case SetOf(e) => AllCanonical(key, Members(e))
    case TupleOf(es) => AllCanonical(key, es)
    case TupleOfMany(e) => Canonical(key, e)
    case Union(ms) => AllCanonical(key, ms)
  }

  /** What the classifier yields for an element: not a union, well formed,
      canonical. */
  predicate ElementType(key: Desc -> string, d: Desc) {
    !d.Union? && WellFormed(d) && Canonical(key, d)
  }

  predicate AllElementTypes(key: Desc -> string, ds: seq<Desc>) {
    forall i :: 0 <= i < |ds| ==> ElementType(key, ds[i])
  }

  /** `d` summarizes the element types `ds`: it is their one distinct type, or
      a proper union whose members are exactly the distinct types. */
  predicate Summarizes(d: Desc, ds: seq<Desc>) {
    && |ds| > 0
    && if d.Union? then
         && ProperUnion(d.members)
         && (forall i :: 0 <= i < |d.members| ==> d.members[i] in ds)
         && (forall i :: 0 <= i < |ds| ==> ds[i] in d.members)
       else
         forall i :: 0 <= i < |ds| ==> ds[i] == d
  }

  /** Among members with equal keys, `ms` keeps the order of first
      occurrence in `ds`. */
  predicate StableOrder(key: Desc -> string, ms: seq<Desc>, ds: seq<Desc>) {
    forall i, j :: 0 <= i < j < |ms| && key(ms[i]) == key(ms[j]) ==> OccursBefore(ms[i], ms[j], ds)
  }

  /** The order of a union's members: by key, ties in first-seen order, when
      alphabetizing; first-seen order otherwise. */
  predicate ArrangedMembers(key: Desc -> string, ms: seq<Desc>, ds: seq<Desc>, alphabetize: bool) {
    if alphabetize then SortedBy(key, ms) && StableOrder(key, ms, ds)
    else FirstSeenOrder(ms, ds)
  }

  /** `d` is the annotation `typing.Union` makes of the element types `ds`,
      its members arranged as `alphabetize` asks. */
  predicate SummaryOf(key: Desc -> string, d: Desc, ds: seq<Desc>, alphabetize: bool) {
    Summarizes(d, ds) && (d.Union? ==> ArrangedMembers(key, d.members, ds, alphabetize))
  }

  /** `v` holds, at any depth, an empty dict, list or set. */
  predicate HasEmptyContainer(v: Value) {
    match v
    case Dict(items) =>
      || |items| == 0
      || exists i :: 0 <= i < |items| && (HasEmptyContainer(items[i].0) || HasEmptyContainer(items[i].1))
    case List(elems) => |elems| == 0 || exists i :: 0 <= i < |elems| && HasEmptyContainer(elems[i])
    case Set(elems) => |elems| == 0 || exists i :: 0 <= i < |elems| && HasEmptyContainer(elems[i])
    case Tuple(elems) => exists i :: 0 <= i < |elems| && HasEmptyContainer(elems[i])
    case _ => false
  }
}
