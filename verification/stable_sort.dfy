/** Python's `sorted(iterable, key=...)`: a stable sort by a string key. */
module StableSort {
  import opened Lex

  /** Every element's key is at most the key of every later element. */
  predicate SortedBy<T>(key: T -> string, s: seq<T>) {
    forall i, j :: 0 <= i < j < |s| ==> Le(key(s[i]), key(s[j]))
  }

  /** The elements of `s` whose key is `k`, in their order in `s`. */
  function KeyClass<T>(key: T -> string, s: seq<T>, k: string): (r: seq<T>)
    ensures |r| <= |s|
  {
    if |s| == 0 then []
    else if key(s[0]) == k then [s[0]] + KeyClass(key, s[1..], k)
    else KeyClass(key, s[1..], k)
  }

  /** Inserts `x` in front of the first element whose key is not smaller. */
  function Insert<T>(key: T -> string, x: T, s: seq<T>): (r: seq<T>)
    ensures multiset(r) == multiset(s) + multiset{x}
  {
    if |s| == 0 || Le(key(x), key(s[0])) then [x] + s
    else
      assert s == [s[0]] + s[1..];
      [s[0]] + Insert(key, x, s[1..])
  }

  lemma {:induction false} InsertSorted<T>(key: T -> string, x: T, s: seq<T>)
    requires SortedBy(key, s)
    ensures SortedBy(key, Insert(key, x, s))
  {
    var r := Insert(key, x, s);
    if |s| == 0 {
    } else if Le(key(x), key(s[0])) {
      forall j | 1 <= j < |r|
        ensures Le(key(r[0]), key(r[j]))
      {
        assert r[j] == s[j - 1];
        if j == 1 {
          LeReflexive(key(s[0]));
        }
        LeTransitive(key(x), key(s[0]), key(r[j]));
      }
    } else {
      LeTotal(key(x), key(s[0]));
      InsertSorted(key, x, s[1..]);
      var t := Insert(key, x, s[1..]);
      assert r == [s[0]] + t;
      forall j | 0 <= j < |t|
        ensures Le(key(s[0]), key(t[j]))
      {
        assert t[j] in multiset(t);
        assert t[j] in multiset(s[1..]) + multiset{x};
        if t[j] != x {
          assert t[j] in s[1..];
        }
      }
    }
  }

  lemma {:induction false} InsertKeyClass<T>(key: T -> string, x: T, s: seq<T>, k: string)
    ensures KeyClass(key, Insert(key, x, s), k)
         == (if key(x) == k then [x] else []) + KeyClass(key, s, k)
  {
    if |s| == 0 || Le(key(x), key(s[0])) {
      assert ([x] + s)[1..] == s;
    } else {
      LeReflexive(key(x));
      InsertKeyClass(key, x, s[1..], k);
      assert ([s[0]] + Insert(key, x, s[1..]))[1..] == Insert(key, x, s[1..]);
    }
  }

  /** `sorted(s, key=key)`: the elements of `s` in non-decreasing key order. */
  function Sort<T>(key: T -> string, s: seq<T>): (r: seq<T>)
    ensures multiset(r) == multiset(s)
    ensures SortedBy(key, r)
  {
    if |s| == 0 then []
    else
      assert s == [s[0]] + s[1..];
      var rest := Sort(key, s[1..]);
      InsertSorted(key, s[0], rest);
      Insert(key, s[0], rest)
  }

  /** The sort is stable: elements with equal keys keep their relative order. */
  lemma {:induction false} SortStable<T>(key: T -> string, s: seq<T>)
    ensures forall k :: KeyClass(key, Sort(key, s), k) == KeyClass(key, s, k)
  {
    if |s| > 0 {
      SortStable(key, s[1..]);
      forall k
        ensures KeyClass(key, Sort(key, s), k) == KeyClass(key, s, k)
      {
        InsertKeyClass(key, s[0], Sort(key, s[1..]), k);
      }
    }
  }

  lemma {:induction false} KeyClassContains<T>(key: T -> string, s: seq<T>, i: nat)
    requires i < |s|
    ensures s[i] in KeyClass(key, s, key(s[i]))
  {
    if i > 0 {
      KeyClassContains(key, s[1..], i - 1);
    }
  }

  lemma {:induction false} KeyClassMembers<T>(key: T -> string, s: seq<T>, k: string, x: T)
    requires x in KeyClass(key, s, k)
    ensures x in s && key(x) == k
  {
    if |s| > 0 && !(key(s[0]) == k && x == s[0]) {
      KeyClassMembers(key, s[1..], k, x);
    }
  }

  /** A sorted sequence is determined by its key classes: two stable sorts of
      the same input agree. */
  lemma {:induction false} SortedUnique<T>(key: T -> string, a: seq<T>, b: seq<T>)
    requires SortedBy(key, a) && SortedBy(key, b)
    requires forall k :: KeyClass(key, a, k) == KeyClass(key, b, k)
    ensures a == b
  {
    if |a| == 0 || |b| == 0 {
      if |a| > 0 {
        KeyClassContains(key, a, 0);
        assert false;
      } else if |b| > 0 {
        KeyClassContains(key, b, 0);
        assert false;
      }
    } else {
      var ka, kb := key(a[0]), key(b[0]);
      KeyClassContains(key, a, 0);
      KeyClassMembers(key, b, ka, a[0]);
      var j :| 0 <= j < |b| && b[j] == a[0];
      if j > 0 { assert Le(kb, key(b[j])); } else { LeReflexive(kb); }
      KeyClassContains(key, b, 0);
      KeyClassMembers(key, a, kb, b[0]);
      var i :| 0 <= i < |a| && a[i] == b[0];
      if i > 0 { assert Le(ka, key(a[i])); } else { LeReflexive(ka); }
      LeAntisymmetric(ka, kb);
      assert KeyClass(key, a, ka) == [a[0]] + KeyClass(key, a[1..], ka);
      assert KeyClass(key, b, ka) == [b[0]] + KeyClass(key, b[1..], ka);
      assert a[0] == KeyClass(key, a, ka)[0] == KeyClass(key, b, ka)[0] == b[0];
      forall k
        ensures KeyClass(key, a[1..], k) == KeyClass(key, b[1..], k)
      {
        if k == ka {
          assert KeyClass(key, a[1..], k) == KeyClass(key, a, k)[1..];
          assert KeyClass(key, b[1..], k) == KeyClass(key, b, k)[1..];
        } else {
          assert KeyClass(key, a[1..], k) == KeyClass(key, a, k);
          assert KeyClass(key, b[1..], k) == KeyClass(key, b, k);
        }
      }
      SortedUnique(key, a[1..], b[1..]);
      assert a == [a[0]] + a[1..];
      assert b == [b[0]] + b[1..];
    }
  }

  /** Any stable sort of `s` (sorted by key, each key class in input order)
      is `Sort(key, s)`. */
  lemma SortCharacterized<T>(key: T -> string, s: seq<T>, r: seq<T>)
    requires SortedBy(key, r)
    requires forall k :: KeyClass(key, r, k) == KeyClass(key, s, k)
    ensures r == Sort(key, s)
  {
    SortStable(key, s);
    SortedUnique(key, r, Sort(key, s));
  }
}
