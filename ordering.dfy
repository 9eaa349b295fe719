/** Ordered iteration over finite sets, as `BTreeSet` and `BTreeMap` iterate: in ascending
  * order of a strict total order. Strings compare lexicographically by character, which is
  * the order of Rust's `String`. */
module Ordering {

  /** `less` is a strict total order on `T`. */
  ghost predicate StrictTotal<T(!new)>(less: (T, T) -> bool)
  {
    (forall a :: !less(a, a))
    && (forall a, b, c :: less(a, b) && less(b, c) ==> less(a, c))
    && (forall a, b :: a != b ==> less(a, b) || less(b, a))
  }

  predicate IsLeast<T(!new)>(m: T, s: set<T>, less: (T, T) -> bool)
  {
    m in s && forall y :: y in s && y != m ==> less(m, y)
  }

  /** The least of `s` and `x` given the least `m` of `s`. */
  lemma LeastAdd<T(!new)>(s: set<T>, x: T, m: T, less: (T, T) -> bool)
    requires StrictTotal(less) && IsLeast(m, s, less) && x !in s
    ensures IsLeast(if less(x, m) then x else m, s + {x}, less)
  {
    if less(x, m) {
      forall y | y in s + {x} && y != x
        ensures less(x, y)
      {
        if y != m {
          assert less(m, y);
        }
      }
    } else {
      assert x != m;
    }
  }

  lemma {:induction false} LeastExists<T(!new)>(s: set<T>, less: (T, T) -> bool)
    requires s != {} && StrictTotal(less)
    ensures exists m :: IsLeast(m, s, less)
    decreases |s|
  {
    var x :| x in s;
    if s != {x} {
      LeastExists(s - {x}, less);
      var m :| IsLeast(m, s - {x}, less);
      LeastAdd(s - {x}, x, m, less);
      assert s - {x} + {x} == s;
    } else {
      assert IsLeast(x, s, less);
    }
  }

  /** The smallest element of a non-empty set. */
  function Least<T(!new)>(s: set<T>, less: (T, T) -> bool): (m: T)
    requires s != {} && StrictTotal(less)
    ensures m in s && forall y :: y in s && y != m ==> less(m, y)
  {
    LeastExists(s, less);
    var m :| IsLeast(m, s, less);
    m
  }

  /** The elements of `s` in ascending order: the order in which a `BTreeSet` yields them. */
  function Ascending<T(!new)>(s: set<T>, less: (T, T) -> bool): (r: seq<T>)
    requires StrictTotal(less)
    ensures |r| == |s| && forall x :: x in r <==> x in s
    decreases |s|
  {
    if s == {} then []
    else
      var m := Least(s, less);
      [m] + Ascending(s - {m}, less)
  }

  /** `Ascending` lists the set in strictly increasing order. */
  lemma {:induction false} AscendingSorted<T(!new)>(s: set<T>, less: (T, T) -> bool)
    requires StrictTotal(less)
    ensures forall i, j :: 0 <= i < j < |Ascending(s, less)| ==> less(Ascending(s, less)[i], Ascending(s, less)[j])
    decreases |s|
  {
    if s != {} {
      var m := Least(s, less);
      var rest := Ascending(s - {m}, less);
      AscendingSorted(s - {m}, less);
      var r := Ascending(s, less);
      forall i, j | 0 <= i < j < |r|
        ensures less(r[i], r[j])
      {
        assert r[j] == rest[j - 1] && r[j] in s - {m};
        if i > 0 {
          assert r[i] == rest[i - 1];
        }
      }
    }
  }

  /** Strict lexicographic order on strings, character by character. */
  predicate StringBelow(a: string, b: string)
  {
    if |a| == 0 then |b| > 0
    else if |b| == 0 then false
    else if a[0] != b[0] then a[0] < b[0]
    else StringBelow(a[1..], b[1..])
  }

  lemma {:induction false} StringBelowIrreflexive(a: string)
    ensures !StringBelow(a, a)
  {
    if |a| > 0 {
      StringBelowIrreflexive(a[1..]);
    }
  }

  lemma {:induction false} StringBelowTransitive(a: string, b: string, c: string)
    requires StringBelow(a, b) && StringBelow(b, c)
    ensures StringBelow(a, c)
  {
    if |a| > 0 && a[0] == b[0] && b[0] == c[0] {
      StringBelowTransitive(a[1..], b[1..], c[1..]);
    }
  }

  lemma {:induction false} StringBelowTotal(a: string, b: string)
    requires a != b
    ensures StringBelow(a, b) || StringBelow(b, a)
  {
    if |a| > 0 && |b| > 0 && a[0] == b[0] {
      assert a == [a[0]] + a[1..] && b == [b[0]] + b[1..];
      StringBelowTotal(a[1..], b[1..]);
    }
  }

  /** Strings are totally ordered. */
  lemma StringOrder()
    ensures StrictTotal(StringBelow)
  {
    forall a ensures !StringBelow(a, a) {
      StringBelowIrreflexive(a);
    }
    forall a, b, c | StringBelow(a, b) && StringBelow(b, c) ensures StringBelow(a, c) {
      StringBelowTransitive(a, b, c);
    }
    forall a, b | a != b ensures StringBelow(a, b) || StringBelow(b, a) {
      StringBelowTotal(a, b);
    }
  }

  /** Pairs of strings in lexicographic order, as a derived `Ord` on a tuple compares them. */
  predicate PairBelow(p: (string, string), q: (string, string))
  {
    StringBelow(p.0, q.0) || (p.0 == q.0 && StringBelow(p.1, q.1))
  }

  lemma PairOrder()
    ensures StrictTotal(PairBelow)
  {
    StringOrder();
  }

  /** A set of strings in ascending order, as iterating a `BTreeSet` or a `BTreeMap` gives it. */
  function SortedStrings(ms: set<string>): (r: seq<string>)
    ensures |r| == |ms| && forall m :: m in r <==> m in ms
    ensures forall i, j :: 0 <= i < j < |r| ==> r[i] != r[j]
  {
    StringOrder();
    var r := Ascending(ms, StringBelow);
    assert forall i, j :: 0 <= i < j < |r| ==> r[i] != r[j] by {
      AscendingSorted(ms, StringBelow);
      forall i, j | 0 <= i < j < |r|
        ensures r[i] != r[j]
      {
        StringBelowIrreflexive(r[i]);
      }
    }
    r
  }

  lemma SortedStringsAscending(ms: set<string>)
    ensures var r := SortedStrings(ms);
      forall i, j :: 0 <= i < j < |r| ==> StringBelow(r[i], r[j])
  {
    StringOrder();
    AscendingSorted(ms, StringBelow);
  }
}
