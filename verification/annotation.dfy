/** `get_type_annotation` (annotation-generator.py:11-62): the PEP 484
    annotation of a runtime value, built from the types of its elements. */
module Annotation {
  import opened Wrappers
  import opened StableSort
  import opened Deduplication
  import opened Types

  /** `_sorted(types, key=str)` (lines 23-34): a stable sort by the canonical
      string `key` when alphabetizing, an unchanged copy otherwise. */
  function Arrange(key: Desc -> string, types: seq<Desc>, alphabetize: bool): (r: seq<Desc>)
    ensures multiset(r) == multiset(types)
    ensures alphabetize ==> SortedBy(key, r)
    ensures alphabetize ==> forall k :: KeyClass(key, r, k) == KeyClass(key, types, k)
    ensures !alphabetize ==> r == types
  {
    if alphabetize then
      SortStable(key, types);
      Sort(key, types)
    else
      types
  }

  /** `typing.Union[tuple(types)]`: repeated types are dropped, the first
      occurrence kept, and a sole remaining type is returned unwrapped. */
  function MakeUnion(types: seq<Desc>): (r: Desc)
    requires |types| > 0
    ensures NoUnions(types) ==> Summarizes(r, types)
    ensures NoUnions(types) && r.Union? ==> r.members == Dedup(types) && FirstSeenOrder(r.members, types)
  {
    DedupFirstSeen(types);
    DedupSingle(types);
    var ms := Dedup(types);
    if |ms| == 1 then ms[0] else Union(ms)
  }

  /** The annotation of a collection from the list of its element types
      (lines 44, 45 and 55): `Union[tuple(types)]` when there are several,
      `types[0]` when there is one, and an `IndexError` when there are none. */
  function Annotate(types: seq<Desc>): (r: Result<Desc, Error>)
    ensures r.Err? <==> |types| == 0
    ensures r.Ok? && NoUnions(types) ==> Summarizes(r.value, types)
    ensures r.Ok? && NoUnions(types) && r.value.Union? ==> r.value.members == Dedup(types)
  {
    if |types| > 1 then Ok(MakeUnion(types))
    else if |types| == 1 then Ok(types[0])
    else Err(EmptyContainer)
  }

  /** The annotation of a dict's keys or values, or of a list's or set's
      elements (lines 42-45, 51 and 55): the element types arranged by
      `_sorted`, then combined by `Annotate`. */
  function Summarize(key: Desc -> string, types: seq<Desc>, alphabetize: bool): (r: Result<Desc, Error>)
    ensures r.Err? <==> |types| == 0
    ensures r.Ok? && NoUnions(types) ==> Summarizes(r.value, types)
    ensures r.Ok? && NoUnions(types) && r.value.Union? ==> ArrangedMembers(key, r.value.members, types, alphabetize)
    ensures r.Ok? && AllElementTypes(key, types) ==>
              && WellFormed(r.value)
              && AllCanonical(key, Members(r.value))
              && (alphabetize ==> Canonical(key, r.value))
  {
    SummarizeArranged(key, types, alphabetize);
    Annotate(Arrange(key, types, alphabetize))
  }

  /** A reordering of a list has the same members. */
  lemma SameMembers(a: seq<Desc>, b: seq<Desc>)
    requires multiset(a) == multiset(b)
    ensures forall i :: 0 <= i < |a| ==> a[i] in b
    ensures forall i :: 0 <= i < |b| ==> b[i] in a
  {
    assert forall i :: 0 <= i < |a| ==> a[i] in multiset(b);
    assert forall i :: 0 <= i < |b| ==> b[i] in multiset(a);
  }

  lemma SummarizesReordered(d: Desc, a: seq<Desc>, b: seq<Desc>)
    requires multiset(a) == multiset(b)
    requires Summarizes(d, a)
    ensures Summarizes(d, b)
  {
    SameMembers(a, b);
    if !d.Union? {
      forall i | 0 <= i < |b|
        ensures b[i] == d
      {
        assert b[i] in a;
      }
    }
  }

  /** Members of a union built from `Sort(types)` are sorted, ties in
      first-seen order. */
  lemma SortedUnionOrder(key: Desc -> string, types: seq<Desc>)
    ensures var ms := Dedup(Sort(key, types));
            SortedBy(key, ms) && StableOrder(key, ms, types)
  {
    var arranged := Sort(key, types);
    var ms := Dedup(arranged);
    SortStable(key, types);
    DedupSorted(key, arranged);
    DedupFirstSeen(arranged);
    forall i, j | 0 <= i < j < |ms| && key(ms[i]) == key(ms[j])
      ensures OccursBefore(ms[i], ms[j], types)
    {
      var k := key(ms[i]);
      assert OccursBefore(ms[i], ms[j], arranged);
      KeyClassOccursBefore(key, ms[i], ms[j], arranged, k);
      KeyClassOccursBefore(key, ms[i], ms[j], types, k);
    }
  }

  /** A summary of element types is as well formed and canonical as they are. */
  lemma SummaryOfElements(key: Desc -> string, d: Desc, types: seq<Desc>, sorted: bool)
    requires AllElementTypes(key, types)
    requires Summarizes(d, types)
    requires d.Union? && sorted ==> SortedBy(key, d.members)
    ensures WellFormed(d) && AllCanonical(key, Members(d))
    ensures sorted ==> Canonical(key, d)
  {
    if d.Union? {
      assert forall i :: 0 <= i < |d.members| ==> d.members[i] in types;
      assert forall i :: 0 <= i < |d.members| ==> ElementType(key, d.members[i]);
    } else {
      assert d == types[0];
      assert ElementType(key, types[0]);
    }
  }

  lemma SummarizeArranged(key: Desc -> string, types: seq<Desc>, alphabetize: bool)
    ensures var r := Annotate(Arrange(key, types, alphabetize));
            && (r.Ok? && NoUnions(types) ==> Summarizes(r.value, types))
            && (r.Ok? && NoUnions(types) && r.value.Union? ==> ArrangedMembers(key, r.value.members, types, alphabetize))
            && (r.Ok? && AllElementTypes(key, types) ==>
                  && WellFormed(r.value)
                  && AllCanonical(key, Members(r.value))
                  && (alphabetize ==> Canonical(key, r.value)))
  {
    var arranged := Arrange(key, types, alphabetize);
    var r := Annotate(arranged);
    if r.Ok? && NoUnions(types) {
      SameMembers(arranged, types);
      assert NoUnions(arranged);
      SummarizesReordered(r.value, arranged, types);
      if r.value.Union? {
        if alphabetize {
          SortedUnionOrder(key, types);
        } else {
          DedupFirstSeen(types);
        }
      }
    }
    if r.Ok? && AllElementTypes(key, types) {
      assert NoUnions(types);
      SummaryOfElements(key, r.value, types, alphabetize);
    }
  }

  /** The annotation of a tuple from its element types (lines 51 and 58-62):
      `Tuple[T, ...]` when it has at least two elements, all of one type, and
      the positional `Tuple[types]` otherwise. */
  function TupleAnnotation(key: Desc -> string, types: seq<Desc>, alphabetize: bool): (r: Desc)
    ensures |types| >= 2 && AllSame(types) ==> r == TupleOfMany(types[0])
    ensures !(|types| >= 2 && AllSame(types)) ==>
              && r.TupleOf?
              && |r.entries| == |types|
              && multiset(r.entries) == multiset(types)
              && (alphabetize ==> SortedBy(key, r.entries))
              && (alphabetize ==> forall k :: KeyClass(key, r.entries, k) == KeyClass(key, types, k))
              && (!alphabetize ==> r.entries == types)
    ensures AllElementTypes(key, types) ==>
              && WellFormed(r)
              && InnerCanonical(key, r)
              && (alphabetize ==> Canonical(key, r))
  {
    var arranged := Arrange(key, types, alphabetize);
    TupleArranged(key, types, alphabetize);
    TupleElementTypes(key, types, arranged);
    // len(set(types)) is the number of distinct types; len(obj) is |types|.
    if |Dedup(arranged)| != 1 || |types| == 1 then TupleOf(arranged)
    else TupleOfMany(arranged[0])
  }

  /** Both tuple annotations built from arranged element types are well
      formed, and their entries are canonical. */
  lemma TupleElementTypes(key: Desc -> string, types: seq<Desc>, arranged: seq<Desc>)
    requires AllElementTypes(key, types) ==> AllElementTypes(key, arranged)
    ensures AllElementTypes(key, types) ==>
              && WellFormed(TupleOf(arranged))
              && InnerCanonical(key, TupleOf(arranged))
              && (|arranged| > 0 ==>
                    && WellFormed(TupleOfMany(arranged[0]))
                    && InnerCanonical(key, TupleOfMany(arranged[0])))
  {
  }

  lemma AllSameReordered(a: seq<Desc>, b: seq<Desc>)
    requires multiset(a) == multiset(b)
    requires |a| > 0 && AllSame(a)
    ensures |b| > 0 && AllSame(b) && b[0] == a[0]
  {
    assert |b| == |multiset(b)| == |multiset(a)| == |a|;
    SameMembers(a, b);
    forall i | 0 <= i < |b|
      ensures b[i] == a[0]
    {
      assert b[i] in a;
    }
  }

  lemma TupleArranged(key: Desc -> string, types: seq<Desc>, alphabetize: bool)
    ensures var arranged := Arrange(key, types, alphabetize);
            && |arranged| == |types|
            && (|Dedup(arranged)| == 1 <==> |types| > 0 && AllSame(types))
            && (|types| > 0 && AllSame(types) ==> arranged[0] == types[0])
            && (AllElementTypes(key, types) ==> AllElementTypes(key, arranged))
  {
    var arranged := Arrange(key, types, alphabetize);
    assert |arranged| == |multiset(arranged)| == |multiset(types)| == |types|;
    DedupSingle(arranged);
    if |types| > 0 && AllSame(types) {
      AllSameReordered(types, arranged);
    }
    if |arranged| > 0 && AllSame(arranged) {
      AllSameReordered(arranged, types);
    }
    SameMembers(arranged, types);
  }

  /** `obj.keys()` of a dict, in iteration order. */
  function Keys(items: seq<(Value, Value)>): (r: seq<Value>)
    ensures |r| == |items| && forall i :: 0 <= i < |items| ==> r[i] == items[i].0
  {
    if |items| == 0 then [] else [items[0].0] + Keys(items[1..])
  }

  /** `obj.values()` of a dict, in iteration order. */
  function Values(items: seq<(Value, Value)>): (r: seq<Value>)
    ensures |r| == |items| && forall i :: 0 <= i < |items| ==> r[i] == items[i].1
  {
    if |items| == 0 then [] else [items[0].1] + Values(items[1..])
  }

  /** `get_type_annotation(v, alphabetize)`, with `key` standing for `str` on
      annotations. The calls that classify elements do not pass
      `alphabetize`, so elements are always classified with its default,
      true. */
  function Infer(key: Desc -> string, v: Value, alphabetize: bool): (r: Result<Desc, Error>)
    decreases v, 1
    ensures r.Ok? ==> !r.value.Union?
  {
    match v
    case Bool(_) => Ok(Leaf(BoolType))
    case Float => Ok(Leaf(FloatType))
    case Int(_) => Ok(Leaf(IntType))
    case Str(_) => Ok(Leaf(StrType))
    case NoneValue => Ok(Leaf(NoneType))
    case Dict(items) =>
      var keyTypes :- InferEach(key, Keys(items), v);
      var valTypes :- InferEach(key, Values(items), v);
      var keyAnnotation :- Summarize(key, keyTypes, alphabetize);
      // A dict has as many values as keys, so once the keys' annotation
      // exists the values' annotation does too.
      var valAnnotation := Summarize(key, valTypes, alphabetize).value;
      Ok(DictOf(keyAnnotation, valAnnotation))
    case Object(cls) => Ok(Leaf(ClassType(cls)))
    case List(elems) =>
      var types :- InferEach(key, elems, v);
      var annotation :- Summarize(key, types, alphabetize);
      Ok(ListOf(annotation))
    case Set(elems) =>
      var types :- InferEach(key, elems, v);
      var annotation :- Summarize(key, types, alphabetize);
      Ok(SetOf(annotation))
    case Tuple(elems) =>
      var types :- InferEach(key, elems, v);
      Ok(TupleAnnotation(key, types, alphabetize))
  }

  /** `[get_type_annotation(e) for e in vs]`: the annotation of every element
      of `vs`, or the first failure. `within` is the container `vs` comes
      from. */
  function InferEach(key: Desc -> string, vs: seq<Value>, ghost within: Value): (r: Result<seq<Desc>, Error>)
    requires forall i :: 0 <= i < |vs| ==> vs[i] < within
    decreases within, 0, |vs|
    ensures r.Ok? ==> |r.value| == |vs| && forall i :: 0 <= i < |vs| ==> Infer(key, vs[i], true) == Ok(r.value[i])
    ensures r.Err? ==> exists i :: 0 <= i < |vs| && Infer(key, vs[i], true).Err?
  {
    if |vs| == 0 then Ok([])
    else
      var first :- Infer(key, vs[0], true);
      var rest :- InferEach(key, vs[1..], within);
      Ok([first] + rest)
  }
}
