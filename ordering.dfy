/** Orders and the sorted, duplicate-free sequences the analysis walks in:
    the group keys (`groupby` sorts them) and each group's dates
    (`sorted(unique())`). */
module Ordering {

  /** `lt` is a strict total order. */
  ghost predicate StrictOrder<T(!new)>(lt: (T, T) -> bool)
  {
    (forall a, b :: lt(a, b) ==> !lt(b, a))
    && (forall a, b, c :: lt(a, b) && lt(b, c) ==> lt(a, c))
    && (forall a, b :: a != b ==> lt(a, b) || lt(b, a))
  }

  predicate StrictlySorted<T>(xs: seq<T>, lt: (T, T) -> bool)
  {
    forall i, j :: 0 <= i < j < |xs| ==> lt(xs[i], xs[j])
  }

  /** `x` placed into the sorted `xs` unless it is already there. */
  function Insert<T(==)>(xs: seq<T>, x: T, lt: (T, T) -> bool): (r: seq<T>)
    ensures |r| <= |xs| + 1
    decreases |xs|
  {
    if |xs| == 0 then [x]
    else if x == xs[0] then xs
    else if lt(x, xs[0]) then [x] + xs
    else [xs[0]] + Insert(xs[1..], x, lt)
  }

  /** The distinct elements of `xs` in ascending order. */
  function SortedDistinct<T(==)>(xs: seq<T>, lt: (T, T) -> bool): (r: seq<T>)
    ensures |r| <= |xs|
  {
    if |xs| == 0 then []
    else Insert(SortedDistinct(xs[..|xs| - 1], lt), xs[|xs| - 1], lt)
  }

  /** Inserting keeps the sequence sorted and adds exactly `x`. */
  lemma {:induction false} InsertSpec<T(!new)>(xs: seq<T>, x: T, lt: (T, T) -> bool)
    requires StrictOrder(lt) && StrictlySorted(xs, lt)
    ensures StrictlySorted(Insert(xs, x, lt), lt)
    ensures forall y :: y in Insert(xs, x, lt) <==> y in xs || y == x
    decreases |xs|
  {
    if |xs| > 0 && x != xs[0] {
      if lt(x, xs[0]) {
        var r := [x] + xs;
        forall i, j | 0 <= i < j < |r| ensures lt(r[i], r[j]) {
          if i == 0 && j > 1 {
            assert lt(xs[0], xs[j - 1]);
          }
        }
      } else {
        assert StrictlySorted(xs[1..], lt);
        InsertSpec(xs[1..], x, lt);
        var t := Insert(xs[1..], x, lt);
        var r := [xs[0]] + t;
        assert lt(xs[0], x);
        forall k | 0 <= k < |t| ensures lt(xs[0], t[k]) {
          assert t[k] in t;
          if t[k] != x {
            var m :| 0 <= m < |xs[1..]| && xs[1..][m] == t[k];
            assert xs[m + 1] == t[k];
          }
        }
        forall i, j | 0 <= i < j < |r| ensures lt(r[i], r[j]) {
          if i > 0 {
            assert r[i] == t[i - 1] && r[j] == t[j - 1];
          }
        }
        assert forall y :: y in xs <==> y == xs[0] || y in xs[1..];
      }
    }
  }

  /** `SortedDistinct` is sorted and holds exactly the elements of `xs`. */
  lemma {:induction false} SortedDistinctSpec<T(!new)>(xs: seq<T>, lt: (T, T) -> bool)
    requires StrictOrder(lt)
    ensures StrictlySorted(SortedDistinct(xs, lt), lt)
    ensures forall y :: y in SortedDistinct(xs, lt) <==> y in xs
    decreases |xs|
  {
    if |xs| > 0 {
      var init := xs[..|xs| - 1];
      SortedDistinctSpec(init, lt);
      InsertSpec(SortedDistinct(init, lt), xs[|xs| - 1], lt);
      assert xs == init + [xs[|xs| - 1]];
      assert forall y :: y in xs <==> y in init || y == xs[|xs| - 1];
    }
  }

  /** A strictly sorted sequence has no repeated element. */
  lemma SortedDistinctElements<T(!new)>(xs: seq<T>, lt: (T, T) -> bool, i: nat, j: nat)
    requires StrictOrder(lt) && StrictlySorted(xs, lt)
    requires i < |xs| && j < |xs| && i != j
    ensures xs[i] != xs[j]
  {
    if i < j {
      assert lt(xs[i], xs[j]);
    } else {
      assert lt(xs[j], xs[i]);
    }
  }

  /** Two sorted sequences with the same elements start with the same
      (least) element. */
  lemma SortedHeads<T(!new)>(a: seq<T>, b: seq<T>, lt: (T, T) -> bool)
    requires StrictOrder(lt) && StrictlySorted(a, lt) && StrictlySorted(b, lt)
    requires forall y :: y in a <==> y in b
    requires |a| > 0 && |b| > 0
    ensures a[0] == b[0]
  {
    assert a[0] in b && b[0] in a;
    var j :| 0 <= j < |b| && b[j] == a[0];
    var i :| 0 <= i < |a| && a[i] == b[0];
  }

  /** Two sorted sequences with the same elements are the same sequence:
      the sorted order of a set is unique. */
  lemma {:induction false} SortedUnique<T(!new)>(a: seq<T>, b: seq<T>, lt: (T, T) -> bool)
    requires StrictOrder(lt) && StrictlySorted(a, lt) && StrictlySorted(b, lt)
    requires forall y :: y in a <==> y in b
    ensures a == b
    decreases |a|
  {
    assert |a| > 0 ==> a[0] in b;
    assert |b| > 0 ==> b[0] in a;
    if |a| > 0 && |b| > 0 {
      SortedHeads(a, b, lt);
      assert StrictlySorted(a[1..], lt) && StrictlySorted(b[1..], lt);
      forall y ensures y in a[1..] <==> y in b[1..] {
        if y in a[1..] {
          var i :| 0 <= i < |a[1..]| && a[1..][i] == y;
          SortedDistinctElements(a, lt, 0, i + 1);
          assert y in b;
          var j :| 0 <= j < |b| && b[j] == y;
          assert j != 0;
          assert b[1..][j - 1] == y;
        }
        if y in b[1..] {
          var j :| 0 <= j < |b[1..]| && b[1..][j] == y;
          SortedDistinctElements(b, lt, 0, j + 1);
          assert y in a;
          var i :| 0 <= i < |a| && a[i] == y;
          assert i != 0;
          assert a[1..][i - 1] == y;
        }
      }
      SortedUnique(a[1..], b[1..], lt);
      assert a == [a[0]] + a[1..] && b == [b[0]] + b[1..];
    }
  }

  /** Lexicographic order of strings by code point, as Python compares
      `str` values. */
  predicate StrLess(a: string, b: string)
    decreases |a|
  {
    |b| > 0 && (|a| == 0 || a[0] < b[0] || (a[0] == b[0] && StrLess(a[1..], b[1..])))
  }

  lemma {:induction false} StrLessAsymmetric(a: string, b: string)
    ensures StrLess(a, b) ==> !StrLess(b, a)
    decreases |a|
  {
    if |a| > 0 && |b| > 0 && a[0] == b[0] {
      StrLessAsymmetric(a[1..], b[1..]);
    }
  }

  lemma {:induction false} StrLessTransitive(a: string, b: string, c: string)
    requires StrLess(a, b) && StrLess(b, c)
    ensures StrLess(a, c)
    decreases |a|
  {
    if |a| > 0 && a[0] == b[0] && b[0] == c[0] {
      StrLessTransitive(a[1..], b[1..], c[1..]);
    }
  }

  lemma {:induction false} StrLessTotal(a: string, b: string)
    requires a != b
    ensures StrLess(a, b) || StrLess(b, a)
    decreases |a|
  {
    if |a| > 0 && |b| > 0 && a[0] == b[0] {
      assert a == [a[0]] + a[1..] && b == [b[0]] + b[1..];
      StrLessTotal(a[1..], b[1..]);
    }
  }

  /** The order of `(customer, product)` tuples. */
  predicate KeyLess(x: (string, string), y: (string, string))
  {
    StrLess(x.0, y.0) || (x.0 == y.0 && StrLess(x.1, y.1))
  }

  lemma KeyLessOrder()
    ensures StrictOrder(KeyLess)
  {
    forall a: (string, string), b: (string, string) | KeyLess(a, b) ensures !KeyLess(b, a) {
      StrLessAsymmetric(a.0, b.0);
      StrLessAsymmetric(a.1, b.1);
    }
    forall a: (string, string), b: (string, string), c: (string, string) | KeyLess(a, b) && KeyLess(b, c)
      ensures KeyLess(a, c)
    {
      if StrLess(a.0, b.0) && StrLess(b.0, c.0) {
        StrLessTransitive(a.0, b.0, c.0);
      } else if a.0 == b.0 && b.0 == c.0 {
        StrLessTransitive(a.1, b.1, c.1);
      }
    }
    forall a: (string, string), b: (string, string) | a != b ensures KeyLess(a, b) || KeyLess(b, a) {
      if a.0 != b.0 {
        StrLessTotal(a.0, b.0);
      } else {
        StrLessTotal(a.1, b.1);
      }
    }
  }

  predicate IntLess(a: int, b: int)
  {
    a < b
  }

  lemma IntLessOrder()
    ensures StrictOrder(IntLess)
  {
  }
}
