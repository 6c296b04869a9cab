# annotation-generator in Dafny

A model of `get_type_annotation(obj, alphabetize=True)` from
`annotation-generator.py`. The function builds the PEP 484 annotation of a
runtime value:

- a primitive (`bool`, `float`, `int`, `str`, `None`) gets its exact type;
- any other value that is not a container gets its own class;
- a dict gets `Dict[K, V]`, a list gets `List[E]` and a set gets `Set[E]`,
  where each argument is the one type of the elements or the `Union` of their
  distinct types;
- a tuple gets `Tuple[T, ...]` when it has two or more elements of one type,
  and the positional `Tuple[types]` otherwise.

Element types are sorted by their `str` when `alphabetize` is true. An empty
dict, list or set anywhere in the value makes the call fail with an
`IndexError`.

Modules:

- `Wrappers`: the `Result` type. A call either returns or raises.
- `Lex`: Python's order on `str`, and the facts that make it a total order.
- `StableSort`: `sorted(..., key=...)` as a stable insertion sort. It is proved
  sorted, a permutation and stable. It is also proved to be the only stable
  sort, so it gives what Timsort gives.
- `Deduplication`: the dedup step of `typing.Union`, which keeps each first
  occurrence.
- `Types`: values, annotations, and the predicates the properties are stated
  in.
- `Annotation`: `_sorted`, the `Union[...] if len > 1 else types[0]` step,
  the tuple rule and the recursive classifier `Infer`.
- `AnnotationProperties`: the properties of `Infer`.
- `Examples`: worked cases. They use a key `PyStr` that imitates `str` on
  `typing` objects closely enough to order them.

`str` on an annotation is a parameter `key: Desc -> string`. Every property
holds for every choice of key. The model agrees with the program when
distinct annotations have distinct keys; see "## Left out" for what happens
when two distinct types print alike.

## Behaviour that is easy to get wrong

- The docstring at line 16 says `alphabetize` sorts the types in the
  annotation. It only reaches the outermost annotation: the recursive calls
  at lines 42, 43 and 51 do not pass it, so nested values are classified
  with the default, true, and their annotations are sorted even when the
  caller passes `alphabetize=False`. See
  `AnnotationProperties.AlphabetizeOnlyReordersTop` and
  `Examples.NestedListsAlwaysSorted`.
- Line 51 sorts a tuple's element types before the tuple branch, so when
  `alphabetize` is true the positional `Tuple[types]` lists them sorted, not
  by position. See `AnnotationProperties.InferTuple` and
  `Examples.SwappedTuple`.
- The TODO at line 53 leaves empty iterables unhandled. An empty list or set
  fails at `types[0]` (line 55), and an empty dict at `key_types[0]`
  (line 44). An empty tuple does not fail: `len(set([])) != 1` at line 59, so
  it gets `Tuple[[]]`. See `Examples.EmptyTuple` and
  `AnnotationProperties.InferFailsIffEmptyContainer`.

## Model

| member | source | states |
|---|---|---|
| Annotation.Arrange | annotation-generator.py:23-34 | `_sorted` returns a permutation of its input. With `alphabetize` it is sorted by key and keeps the relative order of equal keys; without it, it is the input unchanged. |
| Annotation.MakeUnion | annotation-generator.py:44-45 | `Union[tuple(types)]` over types that are not unions summarizes them. It is either their one distinct type, or a union of at least two members, none repeated, exactly the distinct types, in first-seen order. |
| Annotation.Annotate | annotation-generator.py:44-45 | `Union[...] if len > 1 else types[0]` fails exactly on an empty list of types. Otherwise, over types that are not unions (every `Infer` result is one), it summarizes the types and its union members are their distinct types. |
| Annotation.Summarize | annotation-generator.py:42-45 | The annotation of a dict's keys, a dict's values or a collection's elements fails exactly when there are none. Otherwise, over types that are not unions (every `Infer` result is one), it summarizes them, with union members sorted by key and stable when alphabetizing and in first-seen order otherwise. Built from well-formed canonical element types, it is well formed, its members are canonical, and it is canonical itself when alphabetizing. |
| Annotation.TupleAnnotation | annotation-generator.py:58-62 | Two or more element types, all equal, give `Tuple[T, ...]` with that type. Any other list gives a positional tuple: same length, same multiset of entries, sorted and stable when alphabetizing, in element order otherwise. |
| Annotation.Keys | annotation-generator.py:42 | `obj.keys()` has one entry per item, that item's key, in iteration order. |
| Annotation.Values | annotation-generator.py:43 | `obj.values()` has one entry per item, that item's value, in iteration order. |
| Annotation.Infer | annotation-generator.py:11-62 | A successful classification is never a bare union. |
| Annotation.InferEach | annotation-generator.py:51 | The comprehension either yields one annotation per element, each that element's own classification with `alphabetize` true, or fails because some element fails. |
| Annotation.SortedUnionOrder | annotation-generator.py:44-45 | The distinct types of a sorted list are sorted by key, and equal keys keep the order in which they were first seen in the unsorted list. |
| Annotation.TupleArranged | annotation-generator.py:59 | `len(set(types)) == 1` holds exactly when there is at least one type and all of them are equal, whether or not the types were sorted first. |
| AnnotationProperties.InferShape | annotation-generator.py:36-62 | A primitive gets its exact type, so `True` gets `bool` and not `int`. Any other value that is not a dict, list, set or tuple gets its own class. A container never gets a bare class: its annotation is a `Dict`, `List`, `Set` or `Tuple` exactly when the value is a dict, list, set or tuple. |
| AnnotationProperties.InferFailsIffEmptyContainer | annotation-generator.py:44-55 | Classification fails exactly when the value holds an empty dict, list or set at some depth. An empty tuple alone never fails. |
| AnnotationProperties.ElementsFail | annotation-generator.py:51 | Classifying a container's elements fails exactly when one of them holds an empty dict, list or set. |
| AnnotationProperties.InferWellFormed | annotation-generator.py:11-62 | Every annotation built is well formed: each union has at least two members, none repeated and none a union, and only `Dict`, `List` and `Set` arguments are unions. Element annotations are always in canonical order, and the whole annotation is too when alphabetizing. |
| AnnotationProperties.InferDict | annotation-generator.py:41-46 | An empty dict fails. Otherwise a dict gets `Dict[K, V]`, where `K` summarizes the key types and `V` the value types, each arranged as `alphabetize` asks. |
| AnnotationProperties.InferList | annotation-generator.py:51-56 | An empty list fails. Otherwise a list gets `List[E]`, where `E` summarizes the element types, arranged as `alphabetize` asks. |
| AnnotationProperties.InferSet | annotation-generator.py:51-56 | The same for a set, which gets `Set[E]`. |
| AnnotationProperties.InferTuple | annotation-generator.py:58-62 | A tuple of two or more elements of one type gets `Tuple[T, ...]`. Every other tuple, the empty one included, gets a positional annotation with one entry per element: the element types sorted and stable when alphabetizing, in element order otherwise. |
| AnnotationProperties.ElementTypesAre | annotation-generator.py:42-43 | Classifying elements yields exactly their own annotations, and none of these is a union. |
| AnnotationProperties.SummariesAgree | annotation-generator.py:44-45 | Two summaries of the same types admit the same types, whatever their order. |
| AnnotationProperties.AlphabetizeOnlyReordersTop | annotation-generator.py:42-51 | A value's classification succeeds with `alphabetize` true exactly when it succeeds with false. The two results differ only in the order of the outermost union's members or positional entries. |
| StableSort.Sort | annotation-generator.py:31 | `sorted` returns a permutation of its input, in non-decreasing key order. |
| StableSort.SortStable | annotation-generator.py:31 | `sorted` is stable: for every key, the elements with that key keep their relative order. |
| StableSort.SortCharacterized | annotation-generator.py:31 | Any sorted list with the same key-by-key order as the input equals `Sort`'s result, so the model agrees with every stable sort. |
| Deduplication.Dedup | annotation-generator.py:44 | `Union` drops repeats: the result has no repeated member, and it has exactly the members of the input. |
| Deduplication.DedupFirstSeen | annotation-generator.py:44 | The members `Union` keeps are in the order of their first occurrence. |
| Deduplication.DedupSingle | annotation-generator.py:44 | `Union` collapses to one type exactly when the input is non-empty and all its members are equal. |
| Lex.LeReflexive | annotation-generator.py:31 | `Le`, Python's `<=` on the `str` keys, holds of every string and itself. |
| Lex.LeTotal | annotation-generator.py:31 | Any two strings are comparable under `Le`, so `sorted(..., key=str)` can order any types. |
| Lex.LeTransitive | annotation-generator.py:31 | `Le` is transitive. |
| Lex.LeAntisymmetric | annotation-generator.py:31 | Strings each `Le` the other are equal, so equal keys are exactly equal strings. |
| Lex.LtAtFirstDifference | annotation-generator.py:31 | Strings that agree up to some position and differ there are ordered, strictly, by their characters at that position. |
| Examples.ListOfInts | annotation-generator.py:51-56 | `[1, 2, 3]` gets `List[int]`. |
| Examples.MixedListSorted | annotation-generator.py:51-56 | `[1, "a"]` gets `List[Union[int, str]]` when alphabetizing. |
| Examples.MixedListResorted | annotation-generator.py:51-56 | `["a", 1]` gets `List[Union[int, str]]` when alphabetizing. |
| Examples.MixedListUnsorted | annotation-generator.py:51-56 | Without alphabetizing, `["a", 1]` gets `List[Union[str, int]]`. |
| Examples.MixedDict | annotation-generator.py:41-46 | `{"a": 1, "b": 2.0}` gets `Dict[str, Union[float, int]]` when alphabetizing and `Dict[str, Union[int, float]]` otherwise. |
| Examples.HomogeneousTuple | annotation-generator.py:58-62 | `(1, 2)` gets `Tuple[int, ...]`. |
| Examples.SingletonTuple | annotation-generator.py:59-60 | `(1,)` gets the positional `Tuple[[int]]`. |
| Examples.EmptyTuple | annotation-generator.py:59-60 | `()` gets `Tuple[[]]` and does not fail. |
| Examples.MixedTuple | annotation-generator.py:51-60 | `(1, "a")` gets the positional `Tuple[[int, str]]` with either value of `alphabetize`. |
| Examples.SwappedTuple | annotation-generator.py:51 | `("a", 1)` gets `Tuple[[int, str]]` when alphabetizing and `Tuple[[str, int]]` otherwise. |
| Examples.EmptyContainers | annotation-generator.py:44-55 | `[]`, `set()` and `{}` fail. |
| Examples.DeepEmptyContainer | annotation-generator.py:51-55 | An empty set inside a tuple inside a list fails. |
| Examples.NestedDicts | annotation-generator.py:41-56 | `[{1: "x"}, {2: "y"}]` gets `List[Dict[int, str]]`. |
| Examples.NestedListsAlwaysSorted | annotation-generator.py:51 | Even without alphabetizing, `[["a", 1]]` gets `List[List[Union[int, str]]]`. |

## Left out

- Python's `str` on `typing` objects is a parameter `key`, and every
  property holds for any key. `Examples.PyStr` imitates it only for ordering
  the worked examples. Its text for a positional tuple is not what `typing`
  prints.
- `typing` internals are not modelled: caching, hashing and flattening of
  nested unions. `Union` is modelled by the dedup and collapse it documents.
  Flattening is never needed, because an element's annotation is never a
  union (`Annotation.Infer`'s contract).
- Python versions: the positional tuple results (`Tuple[[int]]`, `Tuple[[]]`
  and so on) are what Python 3.11 and later build from the list passed to
  `Tuple[types]` at line 60. On Python 3.10, the oldest version on which the
  `Callable | None` at line 27 runs, `typing` rejects a list argument to
  `Tuple` and line 60 raises `TypeError`. The model does not cover 3.10.
- Annotation.Annotate, Annotation.MakeUnion and Annotation.Summarize: the
  summary is promised only over types that are not unions. `typing.Union`
  flattens a union argument, and the model does not, but `Infer` never
  passes one (its contract).
- Union equality: Python compares a `Union`'s members as a set, so
  `Union[A, B] == Union[B, A]`, and the dedup in `Union[tuple(types)]`
  (lines 44, 45 and 55) and `len(set(types))` (line 59) use that equality.
  `Desc` compares union members in order. Nested unions are always sorted by
  key, because the flag is not forwarded, so the two equalities agree unless
  two distinct types share a `str`, such as two classes made by one factory
  function. For such types the model can keep `List[Union[A, B]]` and
  `List[Union[B, A]]` apart where Python merges them, and give a positional
  tuple where Python gives `Tuple[T, ...]`.
- Failures other than the empty container are not modelled. This covers
  unhashable arguments and other errors raised inside `typing`, and hitting
  the recursion limit on deep or self-referencing values. A value here is a
  finite tree.
- Runtime types come from one classification step. `Value` records only what
  lines 38, 41 and 48 inspect: exact primitive type, dict, list, set, tuple,
  or another class. `cls` stands for the class object itself, not its
  printed name. Subclasses of the containers are their
  containers; subclasses of the primitives, frozensets and all other objects
  are `Object`. Float values, and the payload of primitives, play no part.
- A set's elements are taken in iteration order, which Python does not fix.
  Every property holds for any order. Dict key uniqueness and hashability are
  not enforced.
- The module docstring, the imports and the `reverse` parameter of `_sorted`
  are left out. `reverse` is never passed, so it stays false.
