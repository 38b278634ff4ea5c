/**
 * Sequence combinators behind the catalogue queries of the application:
 * `Array.prototype.filter`, `Array.prototype.find` and `includes`, plus the
 * pairwise predicates used to talk about every unordered pair of a list.
 */
module Seqs {
  import opened Wrappers

  /** `sub` is obtained from `s` by deleting elements, keeping the order of the rest. */
  predicate IsSubsequence<T(==)>(sub: seq<T>, s: seq<T>)
    decreases |s|
  {
    if |s| == 0 then |sub| == 0
    else (|sub| > 0 && sub[0] == s[0] && IsSubsequence(sub[1..], s[1..])) || IsSubsequence(sub, s[1..])
  }

  /**
   * `Array.prototype.filter`: the order-preserving subsequence of the elements
   * satisfying `p`, each kept as often as it occurs.
   */
  function Filter<T(==)>(s: seq<T>, p: T -> bool): (r: seq<T>)
    ensures IsSubsequence(r, s)
    ensures forall i :: 0 <= i < |r| ==> p(r[i])
    ensures |r| <= |s|
  {
    if |s| == 0 then []
    else
      var rest := Filter(s[1..], p);
      if p(s[0]) then [s[0]] + rest else rest
  }

  /**
   * What the filter keeps: every element satisfying `p`, as often as it occurs
   * in `s`, and nothing else.
   */
  lemma {:induction false} FilterContents<T(!new)>(s: seq<T>, p: T -> bool)
    ensures forall x :: multiset(Filter(s, p))[x] == if p(x) then multiset(s)[x] else 0
    ensures forall x :: x in Filter(s, p) <==> x in s && p(x)
    decreases |s|
  {
    if |s| > 0 {
      assert s == [s[0]] + s[1..];
      FilterContents(s[1..], p);
      var r := Filter(s, p);
      assert multiset(s) == multiset{s[0]} + multiset(s[1..]);
      assert r == if p(s[0]) then [s[0]] + Filter(s[1..], p) else Filter(s[1..], p);
      forall x ensures x in r <==> x in multiset(r) {
      }
      forall x ensures x in s <==> x in multiset(s) {
      }
    }
  }

  /** Two tests that agree on every element filter alike. */
  lemma {:induction false} FilterAgree<T>(s: seq<T>, p: T -> bool, q: T -> bool)
    requires forall i :: 0 <= i < |s| ==> p(s[i]) == q(s[i])
    ensures Filter(s, p) == Filter(s, q)
    decreases |s|
  {
    if |s| > 0 {
      assert forall i :: 0 <= i < |s[1..]| ==> s[1..][i] == s[i + 1];
      FilterAgree(s[1..], p, q);
    }
  }

  /** Filtering distributes over concatenation. */
  lemma {:induction false} FilterAppend<T>(a: seq<T>, b: seq<T>, p: T -> bool)
    ensures Filter(a + b, p) == Filter(a, p) + Filter(b, p)
    decreases |a|
  {
    if |a| == 0 {
      assert a + b == b;
    } else {
      assert (a + b)[0] == a[0];
      assert (a + b)[1..] == a[1..] + b;
      FilterAppend(a[1..], b, p);
    }
  }

  /** A filter that every element passes changes nothing. */
  lemma {:induction false} FilterAll<T>(s: seq<T>, p: T -> bool)
    requires forall i :: 0 <= i < |s| ==> p(s[i])
    ensures Filter(s, p) == s
    decreases |s|
  {
    if |s| > 0 {
      FilterAll(s[1..], p);
      assert [s[0]] + s[1..] == s;
    }
  }

  /** Filtering by a test that no element passes leaves nothing. */
  lemma {:induction false} FilterNone<T>(s: seq<T>, p: T -> bool)
    requires forall i :: 0 <= i < |s| ==> !p(s[i])
    ensures Filter(s, p) == []
    decreases |s|
  {
    if |s| > 0 {
      assert forall i :: 0 <= i < |s[1..]| ==> s[1..][i] == s[i + 1];
      FilterNone(s[1..], p);
    }
  }

  /** `Array.prototype.find`: the first element satisfying `p`, if any. */
  function Find<T(==)>(s: seq<T>, p: T -> bool): (r: Option<T>)
    ensures r.None? <==> forall i :: 0 <= i < |s| ==> !p(s[i])
    ensures r.Some? ==> r.value in s && p(r.value)
  {
    if |s| == 0 then None
    else if p(s[0]) then Some(s[0])
    else
      var r := Find(s[1..], p);
      assert forall i :: 1 <= i < |s| ==> s[i] == s[1..][i - 1];
      r
  }

  /** A found element sits at a position `i` before which nothing satisfies `p`. */
  lemma {:induction false} FindFirst<T>(s: seq<T>, p: T -> bool) returns (i: nat)
    requires Find(s, p).Some?
    ensures i < |s| && s[i] == Find(s, p).value
    ensures forall j :: 0 <= j < i ==> !p(s[j])
    decreases |s|
  {
    if p(s[0]) {
      i := 0;
    } else {
      var k := FindFirst(s[1..], p);
      i := k + 1;
      assert forall j :: 1 <= j < i ==> s[j] == s[1..][j - 1];
    }
  }

  /** No element occurs twice. */
  predicate NoDuplicates<T(==)>(s: seq<T>) {
    forall i, j :: 0 <= i < j < |s| ==> s[i] != s[j]
  }

  /** `ok` holds of every pair of positions `i < j`. */
  ghost predicate Pairwise<T>(s: seq<T>, ok: (T, T) -> bool) {
    forall i, j :: 0 <= i < j < |s| ==> ok(s[i], s[j])
  }

  ghost predicate Symmetric<T(!new)>(ok: (T, T) -> bool) {
    forall a, b :: ok(a, b) == ok(b, a)
  }

  /**
   * The order-free reading of `Pairwise`: `ok` holds of any two elements drawn
   * from different positions of the multiset.
   */
  ghost predicate PairwiseIn<T>(m: multiset<T>, ok: (T, T) -> bool) {
    forall a, b :: a in m && b in m && (a != b || m[a] >= 2) ==> ok(a, b)
  }

  /** Two equal elements at different positions make the element occur at least twice. */
  lemma {:induction false} RepeatedElement<T>(s: seq<T>, i: nat, j: nat)
    requires i < j < |s| && s[i] == s[j]
    ensures multiset(s)[s[i]] >= 2
  {
    assert s == s[..j] + s[j..];
    assert s[i] == s[..j][i];
    assert s[j] == s[j..][0];
    assert multiset(s) == multiset(s[..j]) + multiset(s[j..]);
  }

  /** An element occurring at least twice sits at two different positions. */
  lemma {:induction false} TwoPositions<T>(s: seq<T>, x: T) returns (i: nat, j: nat)
    requires multiset(s)[x] >= 2
    ensures i < j < |s| && s[i] == x && s[j] == x
    decreases |s|
  {
    assert s == [s[0]] + s[1..];
    assert multiset(s) == multiset{s[0]} + multiset(s[1..]);
    if s[0] == x {
      assert x in multiset(s[1..]);
      var k :| 0 <= k < |s[1..]| && s[1..][k] == x;
      i, j := 0, k + 1;
    } else {
      var i', j' := TwoPositions(s[1..], x);
      i, j := i' + 1, j' + 1;
    }
  }

  /** For a symmetric relation, holding pairwise depends only on the multiset of elements. */
  lemma PairwiseIffMultiset<T(!new)>(s: seq<T>, ok: (T, T) -> bool)
    requires Symmetric(ok)
    ensures Pairwise(s, ok) <==> PairwiseIn(multiset(s), ok)
  {
    var m := multiset(s);
    if Pairwise(s, ok) {
      forall a, b | a in m && b in m && (a != b || m[a] >= 2)
        ensures ok(a, b)
      {
        if a == b {
          var i, j := TwoPositions(s, a);
          assert ok(s[i], s[j]);
        } else {
          var i :| 0 <= i < |s| && s[i] == a;
          var j :| 0 <= j < |s| && s[j] == b;
          if i < j {
            assert ok(s[i], s[j]);
          } else {
            assert ok(s[j], s[i]);
          }
        }
      }
    }
    if PairwiseIn(m, ok) {
      forall i, j | 0 <= i < j < |s|
        ensures ok(s[i], s[j])
      {
        assert s[i] in m && s[j] in m;
        if s[i] == s[j] {
          RepeatedElement(s, i, j);
        }
      }
    }
  }

  /** Reordering a list does not change whether a symmetric relation holds pairwise. */
  lemma PairwisePermutation<T(!new)>(s: seq<T>, t: seq<T>, ok: (T, T) -> bool)
    requires Symmetric(ok)
    requires multiset(s) == multiset(t)
    ensures Pairwise(s, ok) <==> Pairwise(t, ok)
  {
    PairwiseIffMultiset(s, ok);
    PairwiseIffMultiset(t, ok);
  }
}
