/** What `get_type_annotation` promises, proved of `Annotation.Infer`. */
module AnnotationProperties {
  import opened Wrappers
  import opened StableSort
  import opened Deduplication
  import opened Types
  import opened Annotation

  /** Lines 36-39 and 48-49: a primitive gets its exact type, so `True` is a
      `bool` and not an `int`, and any other value that is not a container
      gets its own class. Otherwise the outermost annotation matches the
      kind of container. */
  lemma InferShape(key: Desc -> string, v: Value, alphabetize: bool)
    ensures var r := Infer(key, v, alphabetize);
            && (v.Bool? ==> r == Ok(Leaf(BoolType)))
            && (v.Float? ==> r == Ok(Leaf(FloatType)))
            && (v.Int? ==> r == Ok(Leaf(IntType)))
            && (v.Str? ==> r == Ok(Leaf(StrType)))
            && (v.NoneValue? ==> r == Ok(Leaf(NoneType)))
            && (v.Object? ==> r == Ok(Leaf(ClassType(v.cls))))
            && (r.Ok? && r.value.Leaf? <==> !(v.Dict? || v.List? || v.Set? || v.Tuple?))
            && (r.Ok? ==> (r.value.DictOf? <==> v.Dict?))
            && (r.Ok? ==> (r.value.ListOf? <==> v.List?))
            && (r.Ok? ==> (r.value.SetOf? <==> v.Set?))
            && (r.Ok? ==> (r.value.TupleOf? || r.value.TupleOfMany? <==> v.Tuple?))
  {
  }

  /** The classifier fails exactly on values holding an empty dict, list or
      set at some depth; an empty tuple does not fail. */
  lemma {:induction false} InferFailsIffEmptyContainer(key: Desc -> string, v: Value, alphabetize: bool)
    decreases v, 3
    ensures Infer(key, v, alphabetize).Err? <==> HasEmptyContainer(v)
  {
    match v
    case Dict(items) =>
      DictFailsIffEmptyContainer(key, items, alphabetize);
    case List(_) =>
      SequenceFailsIffEmptyContainer(key, v, alphabetize);
    case Set(_) =>
      SequenceFailsIffEmptyContainer(key, v, alphabetize);
    case Tuple(_) =>
      SequenceFailsIffEmptyContainer(key, v, alphabetize);
    case _ =>
  }

  lemma {:induction false} SequenceFailsIffEmptyContainer(key: Desc -> string, v: Value, alphabetize: bool)
    requires v.List? || v.Set? || v.Tuple?
    decreases v, 2
    ensures Infer(key, v, alphabetize).Err? <==> HasEmptyContainer(v)
  {
    SequenceFails(key, v, alphabetize);
    ElementsFail(key, v.elems, v);
  }

  lemma {:induction false} DictFailsIffEmptyContainer(key: Desc -> string, items: seq<(Value, Value)>, alphabetize: bool)
    decreases Dict(items), 2
    ensures Infer(key, Dict(items), alphabetize).Err? <==> HasEmptyContainer(Dict(items))
  {
    DictFails(key, items, alphabetize);
    DictEntriesFail(key, items);
  }

  lemma {:induction false} DictEntriesFail(key: Desc -> string, items: seq<(Value, Value)>)
    decreases Dict(items), 1
    ensures var v := Dict(items);
            (|items| == 0 || InferEach(key, Keys(items), v).Err? || InferEach(key, Values(items), v).Err?)
            <==> HasEmptyContainer(v)
  {
    var v := Dict(items);
    ElementsFail(key, Keys(items), v);
    ElementsFail(key, Values(items), v);
    EntryHasEmptyContainer(items);
  }

  /** A dict holds an empty container below it exactly when one of its keys
      or one of its values does. */
  lemma EntryHasEmptyContainer(items: seq<(Value, Value)>)
    ensures HasEmptyContainer(Dict(items))
            <==> || |items| == 0
                 || (exists i :: 0 <= i < |items| && HasEmptyContainer(Keys(items)[i]))
                 || (exists i :: 0 <= i < |items| && HasEmptyContainer(Values(items)[i]))
  {
    if HasEmptyContainer(Dict(items)) && |items| > 0 {
      var i :| 0 <= i < |items| && (HasEmptyContainer(items[i].0) || HasEmptyContainer(items[i].1));
      assert Keys(items)[i] == items[i].0;
      assert Values(items)[i] == items[i].1;
    }
  }

  lemma DictFails(key: Desc -> string, items: seq<(Value, Value)>, alphabetize: bool)
    ensures var v := Dict(items);
            Infer(key, v, alphabetize).Err?
            <==> |items| == 0 || InferEach(key, Keys(items), v).Err? || InferEach(key, Values(items), v).Err?
  {
  }

  lemma SequenceFails(key: Desc -> string, v: Value, alphabetize: bool)
    requires v.List? || v.Set? || v.Tuple?
    ensures Infer(key, v, alphabetize).Err?
            <==> (!v.Tuple? && |v.elems| == 0) || InferEach(key, v.elems, v).Err?
  {
    match v
    case List(elems) => ListFails(key, elems, alphabetize);
    case Set(elems) => SetFails(key, elems, alphabetize);
    case Tuple(elems) => TupleFails(key, elems, alphabetize);
  }

  lemma ListFails(key: Desc -> string, elems: seq<Value>, alphabetize: bool)
    ensures Infer(key, List(elems), alphabetize).Err?
            <==> |elems| == 0 || InferEach(key, elems, List(elems)).Err?
  {
    var v := List(elems);
    var types := InferEach(key, elems, v);
    if types.Err? {
      assert Infer(key, v, alphabetize).Err?;
    } else {
      var annotation := Summarize(key, types.value, alphabetize);
      assert annotation.Err? <==> |elems| == 0;
      assert Infer(key, v, alphabetize).Err? <==> annotation.Err?;
    }
  }

  lemma SetFails(key: Desc -> string, elems: seq<Value>, alphabetize: bool)
    ensures Infer(key, Set(elems), alphabetize).Err?
            <==> |elems| == 0 || InferEach(key, elems, Set(elems)).Err?
  {
    var v := Set(elems);
    var types := InferEach(key, elems, v);
    if types.Err? {
      assert Infer(key, v, alphabetize).Err?;
    } else {
      var annotation := Summarize(key, types.value, alphabetize);
      assert annotation.Err? <==> |elems| == 0;
      assert Infer(key, v, alphabetize).Err? <==> annotation.Err?;
    }
  }

  lemma TupleFails(key: Desc -> string, elems: seq<Value>, alphabetize: bool)
    ensures Infer(key, Tuple(elems), alphabetize).Err? <==> InferEach(key, elems, Tuple(elems)).Err?
  {
  }

  lemma {:induction false} ElementsFail(key: Desc -> string, elems: seq<Value>, within: Value)
    requires forall i :: 0 <= i < |elems| ==> elems[i] < within
    decreases within, 0
    ensures InferEach(key, elems, within).Err? <==> exists i :: 0 <= i < |elems| && HasEmptyContainer(elems[i])
  {
    forall i | 0 <= i < |elems|
      ensures Infer(key, elems[i], true).Err? <==> HasEmptyContainer(elems[i])
    {
      InferFailsIffEmptyContainer(key, elems[i], true);
    }
  }

  /** The shape of a successful dict annotation, unfolded from `Infer`. */
  lemma DictUnfold(key: Desc -> string, items: seq<(Value, Value)>, alphabetize: bool)
    ensures var v := Dict(items);
            var r := Infer(key, v, alphabetize);
            var keyTypes := InferEach(key, Keys(items), v);
            var valTypes := InferEach(key, Values(items), v);
            r.Ok? ==>
              && keyTypes.Ok? && valTypes.Ok?
              && Summarize(key, keyTypes.value, alphabetize).Ok?
              && Summarize(key, valTypes.value, alphabetize).Ok?
              && r.value == DictOf(Summarize(key, keyTypes.value, alphabetize).value,
                                   Summarize(key, valTypes.value, alphabetize).value)
  {
  }

  /** The shape of a successful list, set or tuple annotation, unfolded from `Infer`. */
  lemma SequenceUnfold(key: Desc -> string, v: Value, alphabetize: bool)
    requires v.List? || v.Set? || v.Tuple?
    ensures var r := Infer(key, v, alphabetize);
            var types := InferEach(key, v.elems, v);
            r.Ok? ==>
              && types.Ok?
              && (v.Tuple? ==> r.value == TupleAnnotation(key, types.value, alphabetize))
              && (!v.Tuple? ==> Summarize(key, types.value, alphabetize).Ok?)
              && (v.List? ==> r.value == ListOf(Summarize(key, types.value, alphabetize).value))
              && (v.Set? ==> r.value == SetOf(Summarize(key, types.value, alphabetize).value))
  {
  }

  /** Every annotation the classifier builds is well formed: each union in it
      has at least two members, none repeated and none a union. The
      annotations of elements are always in canonical order, and so is the
      whole annotation when `alphabetize` is true. */
  lemma {:induction false} InferWellFormed(key: Desc -> string, v: Value, alphabetize: bool)
    decreases v, 3
    ensures var r := Infer(key, v, alphabetize);
            r.Ok? ==> WellFormed(r.value) && InnerCanonical(key, r.value) && (alphabetize ==> Canonical(key, r.value))
  {
    match v
    case Dict(items) =>
      DictWellFormed(key, items, alphabetize);
    case List(_) =>
      SequenceWellFormed(key, v, alphabetize);
    case Set(_) =>
      SequenceWellFormed(key, v, alphabetize);
    case Tuple(_) =>
      SequenceWellFormed(key, v, alphabetize);
    case _ =>
  }

  lemma {:induction false} DictWellFormed(key: Desc -> string, items: seq<(Value, Value)>, alphabetize: bool)
    decreases Dict(items), 2
    ensures var r := Infer(key, Dict(items), alphabetize);
            r.Ok? ==> WellFormed(r.value) && InnerCanonical(key, r.value) && (alphabetize ==> Canonical(key, r.value))
  {
    var v := Dict(items);
    DictUnfold(key, items, alphabetize);
    ElementsWellFormed(key, Keys(items), v);
    ElementsWellFormed(key, Values(items), v);
  }

  lemma {:induction false} SequenceWellFormed(key: Desc -> string, v: Value, alphabetize: bool)
    requires v.List? || v.Set? || v.Tuple?
    decreases v, 2
    ensures var r := Infer(key, v, alphabetize);
            r.Ok? ==> WellFormed(r.value) && InnerCanonical(key, r.value) && (alphabetize ==> Canonical(key, r.value))
  {
    SequenceUnfold(key, v, alphabetize);
    ElementsWellFormed(key, v.elems, v);
  }

  lemma {:induction false} ElementsWellFormed(key: Desc -> string, elems: seq<Value>, within: Value)
    requires forall i :: 0 <= i < |elems| ==> elems[i] < within
    decreases within, 1
    ensures var r := InferEach(key, elems, within);
            r.Ok? ==> AllElementTypes(key, r.value)
  {
    var r := InferEach(key, elems, within);
    if r.Ok? {
      forall i | 0 <= i < |elems|
        ensures ElementType(key, r.value[i])
      {
        InferWellFormed(key, elems[i], true);
      }
    }
  }

  /** The element annotations the classifier computes, given each element's own. */
  lemma ElementTypesAre(key: Desc -> string, elems: seq<Value>, within: Value, types: seq<Desc>)
    requires forall i :: 0 <= i < |elems| ==> elems[i] < within
    requires |types| == |elems|
    requires forall i :: 0 <= i < |elems| ==> Infer(key, elems[i], true) == Ok(types[i])
    ensures InferEach(key, elems, within) == Ok(types)
    ensures NoUnions(types)
  {
    assert forall i :: 0 <= i < |elems| ==> !Infer(key, elems[i], true).value.Union?;
    var r := InferEach(key, elems, within);
    if r.Err? {
      assert false;
    }
    assert r.value == types;
  }

  /** Lines 41-46: a dict's annotation is `Dict[K, V]`, where `K` sums up the
      types of all keys and `V`, independently, those of all values; an empty
      dict fails. Keys and values are classified with `alphabetize` true. */
  lemma InferDict(key: Desc -> string, items: seq<(Value, Value)>, keyTypes: seq<Desc>, valTypes: seq<Desc>, alphabetize: bool)
    requires |keyTypes| == |items| && |valTypes| == |items|
    requires forall i :: 0 <= i < |items| ==> Infer(key, items[i].0, true) == Ok(keyTypes[i])
    requires forall i :: 0 <= i < |items| ==> Infer(key, items[i].1, true) == Ok(valTypes[i])
    ensures |items| == 0 ==> Infer(key, Dict(items), alphabetize) == Err(EmptyContainer)
    ensures |items| > 0 ==>
              var r := Infer(key, Dict(items), alphabetize);
              && r.Ok? && r.value.DictOf?
              && SummaryOf(key, r.value.keyType, keyTypes, alphabetize)
              && SummaryOf(key, r.value.valueType, valTypes, alphabetize)
  {
    var v := Dict(items);
    ElementTypesAre(key, Keys(items), v, keyTypes);
    ElementTypesAre(key, Values(items), v, valTypes);
  }

  lemma CollectionSummary(key: Desc -> string, v: Value, types: seq<Desc>, alphabetize: bool)
    requires v.List? || v.Set?
    requires |types| == |v.elems|
    requires forall i :: 0 <= i < |v.elems| ==> Infer(key, v.elems[i], true) == Ok(types[i])
    ensures |types| == 0 ==> Infer(key, v, alphabetize) == Err(EmptyContainer)
    ensures |types| > 0 ==>
              var r := Infer(key, v, alphabetize);
              && r.Ok?
              && (v.List? ==> r.value.ListOf?)
              && (v.Set? ==> r.value.SetOf?)
              && SummaryOf(key, r.value.elemType, types, alphabetize)
  {
    ElementTypesAre(key, v.elems, v, types);
  }

  /** Lines 51-56: a list's annotation is `List[E]`, where `E` is the one
      type of all elements or the union of their distinct types; an empty
      list fails. So `[1, 2, 3]` gets `List[int]`. */
  lemma InferList(key: Desc -> string, elems: seq<Value>, types: seq<Desc>, alphabetize: bool)
    requires |types| == |elems|
    requires forall i :: 0 <= i < |elems| ==> Infer(key, elems[i], true) == Ok(types[i])
    ensures |elems| == 0 ==> Infer(key, List(elems), alphabetize) == Err(EmptyContainer)
    ensures |elems| > 0 ==>
              var r := Infer(key, List(elems), alphabetize);
              r.Ok? && r.value.ListOf? && SummaryOf(key, r.value.elemType, types, alphabetize)
  {
    CollectionSummary(key, List(elems), types, alphabetize);
  }

  /** Lines 51-56: the same for a set, giving `Set[E]`. */
  lemma InferSet(key: Desc -> string, elems: seq<Value>, types: seq<Desc>, alphabetize: bool)
    requires |types| == |elems|
    requires forall i :: 0 <= i < |elems| ==> Infer(key, elems[i], true) == Ok(types[i])
    ensures |elems| == 0 ==> Infer(key, Set(elems), alphabetize) == Err(EmptyContainer)
    ensures |elems| > 0 ==>
              var r := Infer(key, Set(elems), alphabetize);
              r.Ok? && r.value.SetOf? && SummaryOf(key, r.value.elemType, types, alphabetize)
  {
    CollectionSummary(key, Set(elems), types, alphabetize);
  }

  /** Lines 51 and 58-62: a tuple of two or more elements all of one type
      gets `Tuple[T, ...]`; any other tuple, the empty one included, gets a
      positional annotation listing every element's type, sorted when
      `alphabetize` is true and in element order otherwise. */
  lemma InferTuple(key: Desc -> string, elems: seq<Value>, types: seq<Desc>, alphabetize: bool)
    requires |types| == |elems|
    requires forall i :: 0 <= i < |elems| ==> Infer(key, elems[i], true) == Ok(types[i])
    ensures |elems| >= 2 && AllSame(types) ==>
              Infer(key, Tuple(elems), alphabetize) == Ok(TupleOfMany(types[0]))
    ensures !(|elems| >= 2 && AllSame(types)) ==>
              var r := Infer(key, Tuple(elems), alphabetize);
              && r.Ok? && r.value.TupleOf?
              && |r.value.entries| == |elems|
              && multiset(r.value.entries) == multiset(types)
              && (alphabetize ==> SortedBy(key, r.value.entries))
              && (alphabetize ==> forall k :: KeyClass(key, r.value.entries, k) == KeyClass(key, types, k))
              && (!alphabetize ==> r.value.entries == types)
  {
    ElementTypesAre(key, elems, Tuple(elems), types);
  }

  /** `a` and `b` admit the same types. */
  predicate SameMemberTypes(a: Desc, b: Desc) {
    && (forall i :: 0 <= i < |Members(a)| ==> Members(a)[i] in Members(b))
    && (forall i :: 0 <= i < |Members(b)| ==> Members(b)[i] in Members(a))
  }

  /** `a` and `b` are one annotation, up to the order of its own members:
      of a union argument, or of a positional tuple. */
  predicate SameUpToOrder(a: Desc, b: Desc) {
    match a
    case DictOf(k, v) => b.DictOf? && SameMemberTypes(k, b.keyType) && SameMemberTypes(v, b.valueType)
    case ListOf(e) => b.ListOf? && SameMemberTypes(e, b.elemType)
    case SetOf(e) => b.SetOf? && SameMemberTypes(e, b.elemType)
    case TupleOf(es) => b.TupleOf? && multiset(es) == multiset(b.entries)
    case _ => a == b
  }

  lemma TwoMembersIn(ms: seq<Desc>, ds: seq<Desc>)
    requires |ms| >= 2 && forall i :: 0 <= i < |ms| ==> ms[i] in ds
    ensures ms[0] in ds && ms[1] in ds
  {
  }

  /** Two summaries of the same element types admit the same types. */
  lemma SummariesAgree(d1: Desc, d2: Desc, ds: seq<Desc>)
    requires Summarizes(d1, ds) && Summarizes(d2, ds)
    ensures SameMemberTypes(d1, d2)
  {
    if d1.Union? && d2.Union? {
      assert forall i :: 0 <= i < |d1.members| ==> d1.members[i] in ds;
      assert forall i :: 0 <= i < |d2.members| ==> d2.members[i] in ds;
    } else if !d1.Union? && !d2.Union? {
      assert d1 == ds[0] == d2;
    } else {
      var u := if d1.Union? then d1 else d2;
      TwoMembersIn(u.members, ds);
      assert false;
    }
  }

  /** `alphabetize` is not passed to the calls that classify elements (lines
      42, 43 and 51), so it decides only the order of the members of the
      outermost annotation: whether the call succeeds, and everything below
      that level, is the same either way. */
  lemma AlphabetizeOnlyReordersTop(key: Desc -> string, v: Value)
    ensures Infer(key, v, true).Ok? <==> Infer(key, v, false).Ok?
    ensures Infer(key, v, true).Ok? ==> SameUpToOrder(Infer(key, v, true).value, Infer(key, v, false).value)
  {
    InferFailsIffEmptyContainer(key, v, true);
    InferFailsIffEmptyContainer(key, v, false);
    if Infer(key, v, true).Ok? {
      match v
      case Dict(items) => DictReordered(key, items);
      case List(_) => CollectionReordered(key, v);
      case Set(_) => CollectionReordered(key, v);
      case Tuple(elems) => TupleReordered(key, elems);
      case _ =>
    }
  }

  lemma DictReordered(key: Desc -> string, items: seq<(Value, Value)>)
    requires Infer(key, Dict(items), true).Ok? && Infer(key, Dict(items), false).Ok?
    ensures SameUpToOrder(Infer(key, Dict(items), true).value, Infer(key, Dict(items), false).value)
  {
    var v := Dict(items);
    DictUnfold(key, items, true);
    var keyTypes := InferEach(key, Keys(items), v).value;
    var valTypes := InferEach(key, Values(items), v).value;
    InferDict(key, items, keyTypes, valTypes, true);
    InferDict(key, items, keyTypes, valTypes, false);
    var a, b := Infer(key, v, true).value, Infer(key, v, false).value;
    SummariesAgree(a.keyType, b.keyType, keyTypes);
    SummariesAgree(a.valueType, b.valueType, valTypes);
  }

  lemma CollectionReordered(key: Desc -> string, v: Value)
    requires v.List? || v.Set?
    requires Infer(key, v, true).Ok? && Infer(key, v, false).Ok?
    ensures SameUpToOrder(Infer(key, v, true).value, Infer(key, v, false).value)
  {
    SequenceUnfold(key, v, true);
    var types := InferEach(key, v.elems, v).value;
    CollectionSummary(key, v, types, true);
    CollectionSummary(key, v, types, false);
    SummariesAgree(Infer(key, v, true).value.elemType, Infer(key, v, false).value.elemType, types);
  }

  lemma TupleReordered(key: Desc -> string, elems: seq<Value>)
    requires Infer(key, Tuple(elems), true).Ok?
    ensures Infer(key, Tuple(elems), false).Ok?
    ensures SameUpToOrder(Infer(key, Tuple(elems), true).value, Infer(key, Tuple(elems), false).value)
  {
    var v := Tuple(elems);
    SequenceUnfold(key, v, true);
    var types := InferEach(key, elems, v).value;
    InferTuple(key, elems, types, true);
    InferTuple(key, elems, types, false);
  }
}
