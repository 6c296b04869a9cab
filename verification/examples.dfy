/** Worked examples of the classifier, with a key that imitates Python's
    `str` on annotations closely enough to order them. */
module Examples {
  import opened Wrappers
  import opened Lex
  import opened StableSort
  import opened Deduplication
  import opened Types
  import opened Annotation
  import opened AnnotationProperties

  /** The name `typing` prints for a class. */
  function ClassName(t: PyType): string {
    match t
    case BoolType => "bool"
    case FloatType => "float"
    case IntType => "int"
    case StrType => "str"
    case NoneType => "NoneType"
    case ClassType(name) => name
  }

  /** `str(d)`: `<class 'int'>` for a class, `typing.List[int]` and the like
      for a generic alias. */
  function PyStr(d: Desc): string
    decreases d, 2
  {
    match d
    case Leaf(t) => "<class '" + ClassName(t) + "'>"
    case DictOf(k, v) => "typing.Dict[" + Arg(k) + ", " + Arg(v) + "]"
    case ListOf(e) => "typing.List[" + Arg(e) + "]"
    case SetOf(e) => "typing.Set[" + Arg(e) + "]"
    case TupleOf(es) => "typing.Tuple[[" + Args(es, d) + "]]"
    case TupleOfMany(e) => "typing.Tuple[" + Arg(e) + ", ...]"
    case Union(ms) => "typing.Union[" + Args(ms, d) + "]"
  }

  /** An argument of a generic alias: a class by its name, anything else by `str`. */
  function Arg(d: Desc): string
    decreases d, 3
  {
    if d.Leaf? then ClassName(d.t) else PyStr(d)
  }

  function Args(ds: seq<Desc>, ghost within: Desc): string
    requires forall i :: 0 <= i < |ds| ==> ds[i] < within
    decreases within, 1, |ds|
  {
    if |ds| == 0 then ""
    else if |ds| == 1 then Arg(ds[0])
    else Arg(ds[0]) + ", " + Args(ds[1..], within)
  }

  const IntT := Leaf(IntType)
  const StrT := Leaf(StrType)
  const FloatT := Leaf(FloatType)

  /** Two members drawn from a list of copies of `t` are equal. */
  lemma FirstTwoEqual(ms: seq<Desc>, ds: seq<Desc>, t: Desc)
    requires |ms| >= 2
    requires forall i :: 0 <= i < |ms| ==> ms[i] in ds
    requires forall i :: 0 <= i < |ds| ==> ds[i] == t
    ensures ms[0] == ms[1]
  {
    assert ms[0] in ds && ms[1] in ds;
    var i :| 0 <= i < |ds| && ds[i] == ms[0];
    var j :| 0 <= j < |ds| && ds[j] == ms[1];
  }

  /** `Dedup` keeps two distinct types. */
  lemma DedupPair(x: Desc, y: Desc)
    requires x != y
    ensures Dedup([x, y]) == [x, y]
  {
    assert [x, y][..1] == [x];
    assert [x][..0] == [];
  }

  /** `Sort` swaps two types exactly when the first one's key is not at most
      the second one's. */
  lemma SortPair(key: Desc -> string, x: Desc, y: Desc)
    ensures Le(key(x), key(y)) ==> Sort(key, [x, y]) == [x, y]
    ensures !Le(key(x), key(y)) ==> Sort(key, [x, y]) == [y, x]
  {
    assert [x, y][1..] == [y];
    assert [y][1..] == [];
  }

  /** A summary of types that are all `t` is `t` itself. */
  lemma SummaryOfOne(d: Desc, ds: seq<Desc>, t: Desc)
    requires Summarizes(d, ds)
    requires forall i :: 0 <= i < |ds| ==> ds[i] == t
    ensures d == t
  {
    if d.Union? {
      FirstTwoEqual(d.members, ds, t);
      assert false;
    }
    assert ds[0] == d;
  }

  /** Summing up copies of one class-like type gives that type. */
  lemma SummarizeSame(key: Desc -> string, ds: seq<Desc>, alphabetize: bool, t: Desc)
    requires |ds| > 0 && !t.Union?
    requires forall i :: 0 <= i < |ds| ==> ds[i] == t
    ensures Summarize(key, ds, alphabetize) == Ok(t)
  {
    assert NoUnions(ds);
    SummaryOfOne(Summarize(key, ds, alphabetize).value, ds, t);
  }

  /** Summing up two copies of one class-like type gives that type. */
  lemma SummarizeTwice(key: Desc -> string, alphabetize: bool, t: Desc)
    requires !t.Union?
    ensures Summarize(key, [t, t], alphabetize) == Ok(t)
  {
    SummarizeSame(key, [t, t], alphabetize, t);
  }

  /** A non-empty list's annotation, given its elements' annotations. */
  lemma ListIs(key: Desc -> string, elems: seq<Value>, types: seq<Desc>, alphabetize: bool)
    requires |types| == |elems| > 0
    requires forall i :: 0 <= i < |elems| ==> Infer(key, elems[i], true) == Ok(types[i])
    ensures Summarize(key, types, alphabetize).Ok?
    ensures Infer(key, List(elems), alphabetize) == Ok(ListOf(Summarize(key, types, alphabetize).value))
  {
    var v := List(elems);
    InferList(key, elems, types, alphabetize);
    ElementTypesAre(key, elems, v, types);
    SequenceUnfold(key, v, alphabetize);
  }

  /** A non-empty dict's annotation, given its keys' and values' annotations. */
  lemma DictIs(key: Desc -> string, items: seq<(Value, Value)>, keyTypes: seq<Desc>, valTypes: seq<Desc>, alphabetize: bool)
    requires |keyTypes| == |items| > 0 && |valTypes| == |items|
    requires forall i :: 0 <= i < |items| ==> Infer(key, items[i].0, true) == Ok(keyTypes[i])
    requires forall i :: 0 <= i < |items| ==> Infer(key, items[i].1, true) == Ok(valTypes[i])
    ensures Summarize(key, keyTypes, alphabetize).Ok? && Summarize(key, valTypes, alphabetize).Ok?
    ensures Infer(key, Dict(items), alphabetize)
            == Ok(DictOf(Summarize(key, keyTypes, alphabetize).value, Summarize(key, valTypes, alphabetize).value))
  {
    var v := Dict(items);
    assert InferEach(key, Keys(items), v) == Ok(keyTypes) by {
      ElementTypesAre(key, Keys(items), v, keyTypes);
    }
    assert InferEach(key, Values(items), v) == Ok(valTypes) by {
      ElementTypesAre(key, Values(items), v, valTypes);
    }
    assert Infer(key, v, alphabetize).Ok? by {
      InferDict(key, items, keyTypes, valTypes, alphabetize);
    }
    DictUnfold(key, items, alphabetize);
  }

  /** A tuple's annotation, given its elements' annotations. */
  lemma TupleIs(key: Desc -> string, elems: seq<Value>, types: seq<Desc>, alphabetize: bool)
    requires |types| == |elems|
    requires forall i :: 0 <= i < |elems| ==> Infer(key, elems[i], true) == Ok(types[i])
    ensures Infer(key, Tuple(elems), alphabetize) == Ok(TupleAnnotation(key, types, alphabetize))
  {
    InferTuple(key, elems, types, alphabetize);
    ElementTypesAre(key, elems, Tuple(elems), types);
    SequenceUnfold(key, Tuple(elems), alphabetize);
  }

  /** `float` < `int` < `str` in the order of their `str`. */
  lemma ClassOrder()
    ensures Le(PyStr(FloatT), PyStr(IntT)) && !Le(PyStr(IntT), PyStr(FloatT))
    ensures Le(PyStr(IntT), PyStr(StrT)) && !Le(PyStr(StrT), PyStr(IntT))
  {
    LtAtFirstDifference(PyStr(FloatT), PyStr(IntT), 8);
    LtAtFirstDifference(PyStr(IntT), PyStr(StrT), 8);
  }

  /** Two distinct types, in either order, arranged by `_sorted`. */
  lemma ArrangePair(key: Desc -> string, x: Desc, y: Desc, alphabetize: bool)
    requires x != y
    requires !Le(key(y), key(x))
    ensures Arrange(key, [x, y], alphabetize) == [x, y]
    ensures Arrange(key, [y, x], alphabetize) == if alphabetize then [x, y] else [y, x]
  {
    LeTotal(key(x), key(y));
    SortPair(key, x, y);
    SortPair(key, y, x);
  }

  /** Two distinct types, summed up, form their union: in key order when
      alphabetizing, as seen otherwise. */
  lemma SummarizePair(key: Desc -> string, x: Desc, y: Desc, alphabetize: bool)
    requires x != y
    requires !Le(key(y), key(x))
    ensures Summarize(key, [x, y], alphabetize) == Ok(Union([x, y]))
    ensures Summarize(key, [y, x], alphabetize) == Ok(Union(if alphabetize then [x, y] else [y, x]))
  {
    ArrangePair(key, x, y, alphabetize);
    AnnotatePair(x, y);
    AnnotatePair(y, x);
  }

  lemma AnnotatePair(x: Desc, y: Desc)
    requires x != y
    ensures Annotate([x, y]) == Ok(Union([x, y]))
  {
    DedupPair(x, y);
  }

  /** `[1, 2, 3]` gets `List[int]`, with or without alphabetizing. */
  lemma ListOfInts(key: Desc -> string, alphabetize: bool, i: int, j: int, k: int)
    ensures Infer(key, List([Int(i), Int(j), Int(k)]), alphabetize) == Ok(ListOf(IntT))
  {
    ListIs(key, [Int(i), Int(j), Int(k)], [IntT, IntT, IntT], alphabetize);
    SummarizeSame(key, [IntT, IntT, IntT], alphabetize, IntT);
  }

  /** `[1, "a"]` gets `List[Union[int, str]]` when alphabetizing:
      `<class 'int'>` sorts before `<class 'str'>`. */
  lemma MixedListSorted(i: int, s: string)
    ensures Infer(PyStr, List([Int(i), Str(s)]), true) == Ok(ListOf(Union([IntT, StrT])))
  {
    ListIs(PyStr, [Int(i), Str(s)], [IntT, StrT], true);
    ClassOrder();
    SummarizePair(PyStr, IntT, StrT, true);
  }

  /** So does `["a", 1]`: the union's members are sorted. */
  lemma MixedListResorted(i: int, s: string)
    ensures Infer(PyStr, List([Str(s), Int(i)]), true) == Ok(ListOf(Union([IntT, StrT])))
  {
    ListIs(PyStr, [Str(s), Int(i)], [StrT, IntT], true);
    ClassOrder();
    SummarizePair(PyStr, IntT, StrT, true);
  }

  /** Without alphabetizing, the union lists the types as first seen. */
  lemma MixedListUnsorted(i: int, s: string)
    ensures Infer(PyStr, List([Str(s), Int(i)]), false) == Ok(ListOf(Union([StrT, IntT])))
  {
    ListIs(PyStr, [Str(s), Int(i)], [StrT, IntT], false);
    ClassOrder();
    SummarizePair(PyStr, IntT, StrT, false);
  }

  /** `{"a": 1, "b": 2.0}` as a dict annotation built from its parts. */
  lemma MixedDictParts(alphabetize: bool, i: int, s: string, t: string)
    ensures Summarize(PyStr, [StrT, StrT], alphabetize).Ok? && Summarize(PyStr, [IntT, FloatT], alphabetize).Ok?
    ensures Infer(PyStr, Dict([(Str(s), Int(i)), (Str(t), Float)]), alphabetize)
            == Ok(DictOf(Summarize(PyStr, [StrT, StrT], alphabetize).value, Summarize(PyStr, [IntT, FloatT], alphabetize).value))
  {
    DictIs(PyStr, [(Str(s), Int(i)), (Str(t), Float)], [StrT, StrT], [IntT, FloatT], alphabetize);
  }

  /** Summing up the values `1` and `2.0`, and the keys `"a"` and `"b"`. */
  lemma MixedDictSummaries(alphabetize: bool)
    ensures Summarize(PyStr, [StrT, StrT], alphabetize) == Ok(StrT)
    ensures Summarize(PyStr, [IntT, FloatT], alphabetize)
            == Ok(Union(if alphabetize then [FloatT, IntT] else [IntT, FloatT]))
  {
    SummarizeSame(PyStr, [StrT, StrT], alphabetize, StrT);
    ClassOrder();
    SummarizePair(PyStr, FloatT, IntT, alphabetize);
  }

  /** `{"a": 1, "b": 2.0}` gets `Dict[str, Union[float, int]]` when
      alphabetizing and `Dict[str, Union[int, float]]` otherwise; the keys,
      all `str`, give `str`. */
  lemma MixedDict(alphabetize: bool, i: int, s: string, t: string)
    ensures Infer(PyStr, Dict([(Str(s), Int(i)), (Str(t), Float)]), alphabetize)
            == Ok(DictOf(StrT, Union(if alphabetize then [FloatT, IntT] else [IntT, FloatT])))
  {
    MixedDictParts(alphabetize, i, s, t);
    MixedDictSummaries(alphabetize);
  }

  /** `(1, 2)` gets `Tuple[int, ...]`. */
  lemma HomogeneousTuple(key: Desc -> string, alphabetize: bool, i: int, j: int)
    ensures Infer(key, Tuple([Int(i), Int(j)]), alphabetize) == Ok(TupleOfMany(IntT))
  {
    InferTuple(key, [Int(i), Int(j)], [IntT, IntT], alphabetize);
  }

  /** `(1,)` gets the positional `Tuple[[int]]`, not `Tuple[int, ...]`. */
  lemma SingletonTuple(key: Desc -> string, alphabetize: bool, i: int)
    ensures Infer(key, Tuple([Int(i)]), alphabetize) == Ok(TupleOf([IntT]))
  {
    TupleIs(key, [Int(i)], [IntT], alphabetize);
    assert Sort(key, [IntT]) == [IntT] by {
      assert [IntT][1..] == [];
    }
  }

  /** `()` gets `Tuple[[]]`: the empty tuple does not fail. */
  lemma EmptyTuple(key: Desc -> string, alphabetize: bool)
    ensures Infer(key, Tuple([]), alphabetize) == Ok(TupleOf([]))
  {
    TupleIs(key, [], [], alphabetize);
  }

  /** `(1, "a")` gets `Tuple[[int, str]]`, alphabetized or not. */
  lemma MixedTuple(alphabetize: bool, i: int, s: string)
    ensures Infer(PyStr, Tuple([Int(i), Str(s)]), alphabetize) == Ok(TupleOf([IntT, StrT]))
  {
    TupleIs(PyStr, [Int(i), Str(s)], [IntT, StrT], alphabetize);
    ClassOrder();
    ArrangePair(PyStr, IntT, StrT, alphabetize);
    DedupPair(IntT, StrT);
  }

  /** `("a", 1)` gets `Tuple[[int, str]]` when alphabetizing: the element
      types are sorted, not kept in position. Without alphabetizing it gets
      `Tuple[[str, int]]`. */
  lemma SwappedTuple(alphabetize: bool, i: int, s: string)
    ensures Infer(PyStr, Tuple([Str(s), Int(i)]), alphabetize)
            == Ok(TupleOf(if alphabetize then [IntT, StrT] else [StrT, IntT]))
  {
    TupleIs(PyStr, [Str(s), Int(i)], [StrT, IntT], alphabetize);
    ClassOrder();
    ArrangePair(PyStr, IntT, StrT, alphabetize);
    DedupPair(IntT, StrT);
    DedupPair(StrT, IntT);
  }

  /** Empty lists, sets and dicts fail. */
  lemma EmptyContainers(key: Desc -> string, alphabetize: bool)
    ensures Infer(key, List([]), alphabetize) == Err(EmptyContainer)
    ensures Infer(key, Set([]), alphabetize) == Err(EmptyContainer)
    ensures Infer(key, Dict([]), alphabetize) == Err(EmptyContainer)
  {
    InferList(key, [], [], alphabetize);
    InferSet(key, [], [], alphabetize);
    InferDict(key, [], [], [], alphabetize);
  }

  /** An empty set inside a tuple inside a list still fails. */
  lemma DeepEmptyContainer(key: Desc -> string, alphabetize: bool, i: int)
    ensures Infer(key, List([List([Int(i)]), Tuple([Set([])])]), alphabetize) == Err(EmptyContainer)
  {
    var deep := List([List([Int(i)]), Tuple([Set([])])]);
    assert HasEmptyContainer(Tuple([Set([])])) by {
      assert Tuple([Set([])]).elems[0] == Set([]);
    }
    assert HasEmptyContainer(deep) by {
      assert deep.elems[1] == Tuple([Set([])]);
    }
    InferFailsIffEmptyContainer(key, deep, alphabetize);
    var r := Infer(key, deep, alphabetize);
    assert r.Err?;
    assert r.error == EmptyContainer;
  }

  /** `{1: "x"}` gets `Dict[int, str]`. */
  lemma IntStrDict(key: Desc -> string, k: Value, v: Value)
    requires Infer(key, k, true) == Ok(IntT) && Infer(key, v, true) == Ok(StrT)
    ensures Infer(key, Dict([(k, v)]), true) == Ok(DictOf(IntT, StrT))
  {
    DictIs(key, [(k, v)], [IntT], [StrT], true);
    SummarizeSame(key, [IntT], true, IntT);
    SummarizeSame(key, [StrT], true, StrT);
  }

  /** `[{1: "x"}, {2: "y"}]` gets `List[Dict[int, str]]`. */
  lemma NestedDicts(key: Desc -> string, alphabetize: bool, i: int, j: int, s: string, t: string)
    ensures Infer(key, List([Dict([(Int(i), Str(s))]), Dict([(Int(j), Str(t))])]), alphabetize)
            == Ok(ListOf(DictOf(IntT, StrT)))
  {
    var inner := DictOf(IntT, StrT);
    NestedDictsParts(key, alphabetize, i, j, s, t);
    SummarizeTwice(key, alphabetize, inner);
  }

  lemma NestedDictsParts(key: Desc -> string, alphabetize: bool, i: int, j: int, s: string, t: string)
    ensures var inner := DictOf(IntT, StrT);
            && Summarize(key, [inner, inner], alphabetize).Ok?
            && Infer(key, List([Dict([(Int(i), Str(s))]), Dict([(Int(j), Str(t))])]), alphabetize)
               == Ok(ListOf(Summarize(key, [inner, inner], alphabetize).value))
  {
    var inner := DictOf(IntT, StrT);
    IntStrDict(key, Int(i), Str(s));
    IntStrDict(key, Int(j), Str(t));
    ListIs(key, [Dict([(Int(i), Str(s))]), Dict([(Int(j), Str(t))])], [inner, inner], alphabetize);
  }

  /** Elements are classified with `alphabetize` true whatever the caller
      asked: `[["a", 1]]` without alphabetizing still gets
      `List[List[Union[int, str]]]`. */
  lemma NestedListsAlwaysSorted(i: int, s: string)
    ensures Infer(PyStr, List([List([Str(s), Int(i)])]), false) == Ok(ListOf(ListOf(Union([IntT, StrT]))))
  {
    MixedListResorted(i, s);
    var inner := ListOf(Union([IntT, StrT]));
    ListIs(PyStr, [List([Str(s), Int(i)])], [inner], false);
    SummarizeSame(PyStr, [inner], false, inner);
  }
}
