/** Duplicate removal as `typing.Union` performs it on its arguments: the
    first occurrence of each member is kept, in order. */
module Deduplication {
  import opened Lex
  import opened StableSort

  /** No member occurs twice. */
  predicate Distinct<T(==)>(s: seq<T>) {
    forall i, j :: 0 <= i < j < |s| ==> s[i] != s[j]
  }

  /** All members of `s` are equal. */
  predicate AllSame<T(==)>(s: seq<T>) {
    forall i :: 0 <= i < |s| ==> s[i] == s[0]
  }

  /** Within `s`, `x` occurs before any occurrence of `y`. */
  predicate OccursBefore<T(==)>(x: T, y: T, s: seq<T>) {
    |s| > 0 && (s[0] == x || (s[0] != y && OccursBefore(x, y, s[1..])))
  }

  /** The members of `ms` are listed in the order of their first occurrence in `s`. */
  predicate FirstSeenOrder<T(==)>(ms: seq<T>, s: seq<T>) {
    forall i, j :: 0 <= i < j < |ms| ==> OccursBefore(ms[i], ms[j], s)
  }

  /** The distinct members of `s`, each where it first occurs. */
  function Dedup<T(==)>(s: seq<T>): (r: seq<T>)
    ensures Distinct(r)
    ensures forall i :: 0 <= i < |r| ==> r[i] in s
    ensures forall i :: 0 <= i < |s| ==> s[i] in r
    ensures |r| <= |s|
  {
    if |s| == 0 then []
    else
      var init, last := s[..|s| - 1], s[|s| - 1];
      assert s == init + [last];
      var d := Dedup(init);
      if last in d then d else d + [last]
  }

  lemma {:induction false} OccursBeforeExtend<T>(x: T, y: T, s: seq<T>, t: seq<T>)
    requires OccursBefore(x, y, s)
    ensures OccursBefore(x, y, s + t)
  {
    if s[0] != x {
      OccursBeforeExtend(x, y, s[1..], t);
      assert (s + t)[1..] == s[1..] + t;
    }
  }

  lemma {:induction false} OccursBeforeAbsent<T>(x: T, y: T, s: seq<T>, t: seq<T>)
    requires x in s && y !in s
    ensures OccursBefore(x, y, s + t)
  {
    if s[0] != x {
      OccursBeforeAbsent(x, y, s[1..], t);
      assert (s + t)[1..] == s[1..] + t;
    }
  }

  /** `Dedup` keeps the members in first-seen order. */
  lemma {:induction false} DedupFirstSeen<T>(s: seq<T>)
    ensures FirstSeenOrder(Dedup(s), s)
  {
    if |s| > 0 {
      var init, last := s[..|s| - 1], s[|s| - 1];
      assert s == init + [last];
      DedupFirstSeen(init);
      var d := Dedup(init);
      var r := Dedup(s);
      forall i, j | 0 <= i < j < |r|
        ensures OccursBefore(r[i], r[j], s)
      {
        if j < |d| {
          OccursBeforeExtend(r[i], r[j], init, [last]);
        } else {
          assert r[i] in init;
          OccursBeforeAbsent(r[i], r[j], init, [last]);
        }
      }
    }
  }

  /** `Dedup` of a sorted sequence is sorted. */
  lemma {:induction false} DedupSorted<T>(key: T -> string, s: seq<T>)
    requires SortedBy(key, s)
    ensures SortedBy(key, Dedup(s))
  {
    if |s| > 0 {
      var init, last := s[..|s| - 1], s[|s| - 1];
      assert s == init + [last];
      assert SortedBy(key, init) by {
        forall i, j | 0 <= i < j < |init|
          ensures Le(key(init[i]), key(init[j]))
        {
          assert init[i] == s[i] && init[j] == s[j];
        }
      }
      DedupSorted(key, init);
      var d := Dedup(init);
      forall i | 0 <= i < |d|
        ensures Le(key(d[i]), key(last))
      {
        assert d[i] in init;
        var p :| 0 <= p < |init| && init[p] == d[i];
        assert s[p] == d[i];
      }
      if last !in d {
        var r := d + [last];
        forall i, j | 0 <= i < j < |r|
          ensures Le(key(r[i]), key(r[j]))
        {
          assert r[i] == d[i];
          if j < |d| {
            assert r[j] == d[j];
          }
        }
      }
    }
  }

  /** There is exactly one distinct member exactly when `s` is non-empty and
      all its members are equal. */
  lemma DedupSingle<T>(s: seq<T>)
    ensures |Dedup(s)| == 1 <==> |s| > 0 && AllSame(s)
  {
    var r := Dedup(s);
    if |r| == 1 {
      forall i | 0 <= i < |s|
        ensures s[i] == s[0]
      {
        assert s[i] in r && s[0] in r;
      }
    }
    if |s| > 0 && AllSame(s) {
      assert s[0] in r;
      if |r| > 1 {
        assert false;
      }
    }
  }

  /** Among elements sharing a key, relative order is the same in `s` and in
      its key class. */
  lemma {:induction false} KeyClassOccursBefore<T>(key: T -> string, x: T, y: T, s: seq<T>, k: string)
    requires key(x) == k && key(y) == k
    ensures OccursBefore(x, y, s) <==> OccursBefore(x, y, KeyClass(key, s, k))
  {
    if |s| > 0 {
      KeyClassOccursBefore(key, x, y, s[1..], k);
      if key(s[0]) == k {
        assert (KeyClass(key, s, k))[1..] == KeyClass(key, s[1..], k);
      }
    }
  }
}
