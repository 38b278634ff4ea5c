/**
 * `Array.prototype.sort` with a two-level numeric comparator, as a stable
 * insertion sort. The comparator returns `a.primary - b.primary` when that is
 * non-zero and `a.secondary - b.secondary` otherwise; a `NaN` difference is a
 * tie, as in ECMAScript's SortCompare.
 */
module Sorting {
  import opened JsText
  import opened Seqs

  datatype SortKey = SortKey(primary: int, secondary: Num)

  /** The comparator returns a negative number: `a` must come before `b`. */
  predicate Precedes(a: SortKey, b: SortKey) {
    a.primary < b.primary || (a.primary == b.primary && Less(a.secondary, b.secondary))
  }

  /** Puts `x` in front of the first element that does not have to come before it. */
  function Insert<T>(x: T, s: seq<T>, key: T -> SortKey): (r: seq<T>)
    ensures |r| == |s| + 1
    ensures multiset(r) == multiset(s) + multiset{x}
  {
    if |s| == 0 then [x]
    else if Precedes(key(s[0]), key(x)) then
      assert s == [s[0]] + s[1..];
      [s[0]] + Insert(x, s[1..], key)
    else [x] + s
  }

  /** The sorted copy: a permutation of `xs`. */
  function SortBy<T>(xs: seq<T>, key: T -> SortKey): (r: seq<T>)
    ensures |r| == |xs|
    ensures multiset(r) == multiset(xs)
  {
    if |xs| == 0 then []
    else
      assert xs == [xs[0]] + xs[1..];
      Insert(xs[0], SortBy(xs[1..], key), key)
  }

  /** Every key has a number as its secondary part, so the comparator is a total preorder. */
  ghost predicate FiniteKeys<T>(s: seq<T>, key: T -> SortKey) {
    forall i :: 0 <= i < |s| ==> key(s[i]).secondary.Finite?
  }

  /** No element has to come before an earlier one. */
  ghost predicate Sorted<T>(s: seq<T>, key: T -> SortKey) {
    forall i, j :: 0 <= i < j < |s| ==> !Precedes(key(s[j]), key(s[i]))
  }

  /** Every element of the insertion result is `x` or an element of `s`. */
  lemma InsertMembers<T>(x: T, s: seq<T>, key: T -> SortKey, y: T)
    requires y in Insert(x, s, key)
    ensures y == x || y in s
  {
    assert y in multiset(Insert(x, s, key));
  }

  lemma {:induction false} InsertSorted<T>(x: T, s: seq<T>, key: T -> SortKey)
    requires Sorted(s, key) && FiniteKeys(s, key) && key(x).secondary.Finite?
    ensures Sorted(Insert(x, s, key), key)
    decreases |s|
  {
    if |s| > 0 {
      if Precedes(key(s[0]), key(x)) {
        var t := Insert(x, s[1..], key);
        InsertSorted(x, s[1..], key);
        var r := [s[0]] + t;
        assert Insert(x, s, key) == r;
        forall i, j | 0 <= i < j < |r| ensures !Precedes(key(r[j]), key(r[i])) {
          if i == 0 {
            InsertMembers(x, s[1..], key, r[j]);
            if r[j] != x {
              var m :| 0 <= m < |s[1..]| && s[1..][m] == r[j];
              assert s[m + 1] == r[j];
            }
          } else {
            assert r[i] == t[i - 1] && r[j] == t[j - 1];
          }
        }
      } else {
        var r := [x] + s;
        assert Insert(x, s, key) == r;
        forall i, j | 0 <= i < j < |r| ensures !Precedes(key(r[j]), key(r[i])) {
          if i == 0 {
            assert r[j] == s[j - 1];
            if j > 1 {
              assert !Precedes(key(s[j - 1]), key(s[0]));
            }
          } else {
            assert r[i] == s[i - 1] && r[j] == s[j - 1];
          }
        }
      }
    }
  }

  /** With numeric keys only, the result is in comparator order. */
  lemma {:induction false} SortBySorted<T>(xs: seq<T>, key: T -> SortKey)
    requires FiniteKeys(xs, key)
    ensures Sorted(SortBy(xs, key), key)
    decreases |xs|
  {
    if |xs| > 0 {
      var rest := SortBy(xs[1..], key);
      SortBySorted(xs[1..], key);
      forall i | 0 <= i < |rest| ensures key(rest[i]).secondary.Finite? {
        assert rest[i] in multiset(xs[1..]);
      }
      InsertSorted(xs[0], rest, key);
    }
  }

  function KeyIs<T>(key: T -> SortKey, k: SortKey): T -> bool {
    e => key(e) == k
  }

  /** An element that must come before another never shares its key. */
  lemma PrecedesIrreflexive(a: SortKey, b: SortKey)
    requires Precedes(a, b)
    ensures a != b
  {
  }

  lemma FilterSingleton<T>(a: T, p: T -> bool)
    ensures Filter([a], p) == if p(a) then [a] else []
  {
    assert [a][1..] == [];
  }

  lemma {:induction false} InsertStable<T>(x: T, s: seq<T>, key: T -> SortKey, k: SortKey)
    ensures Filter(Insert(x, s, key), KeyIs(key, k)) == Filter([x], KeyIs(key, k)) + Filter(s, KeyIs(key, k))
    decreases |s|
  {
    var p := KeyIs(key, k);
    if |s| == 0 {
      assert Insert(x, s, key) == [x];
    } else if Precedes(key(s[0]), key(x)) {
      var t := Insert(x, s[1..], key);
      var head, mid, rest := Filter([s[0]], p), Filter([x], p), Filter(s[1..], p);
      assert Filter(Insert(x, s, key), p) == head + (mid + rest) by {
        assert Insert(x, s, key) == [s[0]] + t;
        FilterAppend([s[0]], t, p);
        InsertStable(x, s[1..], key, k);
      }
      assert Filter(s, p) == head + rest by {
        FilterAppend([s[0]], s[1..], p);
        assert [s[0]] + s[1..] == s;
      }
      assert head == [] || mid == [] by {
        PrecedesIrreflexive(key(s[0]), key(x));
        FilterSingleton(s[0], p);
        FilterSingleton(x, p);
      }
      if head == [] {
        assert head + (mid + rest) == mid + rest && head + rest == rest;
      } else {
        assert mid + rest == rest && mid + (head + rest) == head + rest;
      }
    } else {
      assert Insert(x, s, key) == [x] + s;
      FilterAppend([x], s, p);
    }
  }

  /**
   * Stability: the elements sharing any one key keep their input order, so for
   * every key the filtered output equals the filtered input.
   */
  lemma {:induction false} SortByStable<T>(xs: seq<T>, key: T -> SortKey, k: SortKey)
    ensures Filter(SortBy(xs, key), KeyIs(key, k)) == Filter(xs, KeyIs(key, k))
    decreases |xs|
  {
    if |xs| > 0 {
      SortByStable(xs[1..], key, k);
      InsertStable(xs[0], SortBy(xs[1..], key), key, k);
      FilterAppend([xs[0]], xs[1..], KeyIs(key, k));
      assert [xs[0]] + xs[1..] == xs;
    }
  }
}
