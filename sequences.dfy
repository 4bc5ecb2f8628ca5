/**
 * Queryset operations over sequences of rows: filtering, taking the single match of
 * a lookup, replacing matched rows, and ordering by an integer key.
 */
module Sequences {
  import opened Wrappers

  /** The elements of `s` that satisfy `f`, in their original order (a queryset `filter`). */
  function Filter<T>(s: seq<T>, f: T -> bool): (r: seq<T>)
    ensures |r| <= |s|
    ensures forall x :: x in r ==> x in s && f(x)
    ensures forall x :: x in s && f(x) ==> x in r
  {
    if s == [] then []
    else
      assert s == [s[0]] + s[1..];
      if f(s[0]) then [s[0]] + Filter(s[1..], f) else Filter(s[1..], f)
  }

  /** `Filter` keeps every satisfying element as often as it occurs, and drops the others. */
  lemma {:induction false} FilterMultiplicity<T>(s: seq<T>, f: T -> bool, x: T)
    ensures multiset(Filter(s, f))[x] == if f(x) then multiset(s)[x] else 0
  {
    if s != [] {
      assert s == [s[0]] + s[1..];
      FilterMultiplicity(s[1..], f, x);
    }
  }

  lemma {:induction false} FilterAppend<T>(s: seq<T>, t: seq<T>, f: T -> bool)
    ensures Filter(s + t, f) == Filter(s, f) + Filter(t, f)
  {
    if s == [] {
      assert s + t == t;
    } else {
      assert (s + t)[0] == s[0];
      assert (s + t)[1..] == s[1..] + t;
      FilterAppend(s[1..], t, f);
    }
  }

  /** When `f` holds exactly where one of two exclusive predicates holds, its count is their sum. */
  lemma {:induction false} FilterPartition<T>(s: seq<T>, f: T -> bool, g: T -> bool, h: T -> bool)
    requires forall x :: f(x) == (g(x) || h(x))
    requires forall x :: !(g(x) && h(x))
    ensures |Filter(s, f)| == |Filter(s, g)| + |Filter(s, h)|
  {
    if s != [] {
      FilterPartition(s[1..], f, g, h);
    }
  }

  /** Filtering twice is filtering once by the conjunction (chained `.filter()` calls). */
  lemma {:induction false} FilterFilter<T>(s: seq<T>, f: T -> bool, g: T -> bool, h: T -> bool)
    requires forall x :: x in s ==> h(x) == (f(x) && g(x))
    ensures Filter(Filter(s, f), g) == Filter(s, h)
  {
    if s != [] {
      assert s == [s[0]] + s[1..];
      FilterFilter(s[1..], f, g, h);
    }
  }

  /** Two conditions that agree on every element of `s` select the same rows. */
  lemma {:induction false} FilterSame<T>(s: seq<T>, f: T -> bool, g: T -> bool)
    requires forall x :: x in s ==> f(x) == g(x)
    ensures Filter(s, f) == Filter(s, g)
  {
    if s != [] {
      assert s == [s[0]] + s[1..];
      FilterSame(s[1..], f, g);
    }
  }

  /** Two multisets with the same multiplicity everywhere are equal. */
  lemma MultisetsEqual<T>(a: multiset<T>, b: multiset<T>)
    requires forall x :: a[x] == b[x]
    ensures a == b
  {
  }

  /** Filtering commutes with reordering: permutations keep the same rows, as often. */
  lemma FilterOfPermutation<T>(s: seq<T>, t: seq<T>, f: T -> bool)
    requires multiset(s) == multiset(t)
    ensures multiset(Filter(s, f)) == multiset(Filter(t, f))
    ensures |Filter(s, f)| == |Filter(t, f)|
  {
    var a, b := multiset(Filter(s, f)), multiset(Filter(t, f));
    forall x
      ensures a[x] == b[x]
    {
      FilterMultiplicity(s, f, x);
      FilterMultiplicity(t, f, x);
    }
    MultisetsEqual(a, b);
  }

  /** The first element satisfying `f`, if any (the row a primary-key lookup returns). */
  function First<T>(s: seq<T>, f: T -> bool): (r: Option<T>)
    ensures r.Some? ==> r.value in s && f(r.value)
    ensures r.None? <==> forall x :: x in s ==> !f(x)
  {
    if s == [] then None
    else if f(s[0]) then Some(s[0])
    else
      assert s == [s[0]] + s[1..];
      First(s[1..], f)
  }

  /** `s` with every element that satisfies `f` overwritten by `x` (an UPDATE ... WHERE). */
  function ReplaceWhere<T>(s: seq<T>, f: T -> bool, x: T): (r: seq<T>)
    ensures |r| == |s|
    ensures forall y :: y in r ==> y == x || (y in s && !f(y))
    ensures forall y :: y in s && !f(y) ==> y in r
    ensures (exists y :: y in s && f(y)) ==> x in r
  {
    if s == [] then []
    else
      assert s == [s[0]] + s[1..];
      [if f(s[0]) then x else s[0]] + ReplaceWhere(s[1..], f, x)
  }

  /** `ReplaceWhere` works position by position: only the matched positions change. */
  lemma {:induction false} ReplaceWhereAt<T>(s: seq<T>, f: T -> bool, x: T, i: nat)
    requires i < |s|
    ensures ReplaceWhere(s, f, x)[i] == if f(s[i]) then x else s[i]
  {
    if i > 0 {
      ReplaceWhereAt(s[1..], f, x, i - 1);
    }
  }

  /** No two positions of `s` carry the same key (a primary-key column). */
  ghost predicate DistinctKeys<T>(s: seq<T>, key: T -> nat) {
    forall i, j {:trigger key(s[i]), key(s[j])} :: 0 <= i < j < |s| ==> key(s[i]) != key(s[j])
  }

  /** Under distinct keys a key names one row: two rows of `s` with the same key are the same row. */
  lemma DistinctKeysUnique<T>(s: seq<T>, key: T -> nat)
    requires DistinctKeys(s, key)
    ensures forall x, y :: x in s && y in s && key(x) == key(y) ==> x == y
  {
    forall x, y | x in s && y in s && key(x) == key(y)
      ensures x == y
    {
      var i :| 0 <= i < |s| && s[i] == x;
      var j :| 0 <= j < |s| && s[j] == y;
      assert !(i < j) && !(j < i);
    }
  }

  /** Deleting rows keeps the keys distinct. */
  lemma {:induction false} DistinctKeysFilter<T>(s: seq<T>, key: T -> nat, f: T -> bool)
    requires DistinctKeys(s, key)
    ensures DistinctKeys(Filter(s, f), key)
  {
    if s != [] {
      assert s == [s[0]] + s[1..];
      assert DistinctKeys(s[1..], key) by {
        forall i, j | 0 <= i < j < |s[1..]| ensures key(s[1..][i]) != key(s[1..][j]) {
          assert s[1..][i] == s[i + 1] && s[1..][j] == s[j + 1];
        }
      }
      DistinctKeysFilter(s[1..], key, f);
      if f(s[0]) {
        var r := Filter(s[1..], f);
        forall y | y in r ensures key(y) != key(s[0]) {
          var j :| 0 <= j < |s[1..]| && s[1..][j] == y;
          assert s[j + 1] == y;
        }
        forall i, j | 0 <= i < j < |[s[0]] + r| ensures key(([s[0]] + r)[i]) != key(([s[0]] + r)[j]) {
          if i == 0 {
            assert ([s[0]] + r)[j] == r[j - 1];
          } else {
            assert ([s[0]] + r)[i] == r[i - 1] && ([s[0]] + r)[j] == r[j - 1];
          }
        }
      }
    }
  }

  /** Appending a row whose key is new keeps the keys distinct. */
  lemma DistinctKeysAppend<T>(s: seq<T>, key: T -> nat, x: T)
    requires DistinctKeys(s, key)
    requires forall y :: y in s ==> key(y) != key(x)
    ensures DistinctKeys(s + [x], key)
  {
    forall i, j | 0 <= i < j < |s + [x]| ensures key((s + [x])[i]) != key((s + [x])[j]) {
      if j == |s| {
        assert (s + [x])[i] == s[i] && (s + [x])[j] == x;
      } else {
        assert (s + [x])[i] == s[i] && (s + [x])[j] == s[j];
      }
    }
  }

  /** Overwriting rows by a row with the same key keeps the keys distinct. */
  lemma DistinctKeysReplace<T>(s: seq<T>, key: T -> nat, f: T -> bool, x: T)
    requires DistinctKeys(s, key)
    requires forall y :: y in s && f(y) ==> key(y) == key(x)
    ensures DistinctKeys(ReplaceWhere(s, f, x), key)
  {
    var r := ReplaceWhere(s, f, x);
    forall i, j | 0 <= i < j < |r| ensures key(r[i]) != key(r[j]) {
      ReplaceWhereAt(s, f, x, i);
      ReplaceWhereAt(s, f, x, j);
    }
  }

  /** `key` never decreases along `s`. */
  ghost predicate SortedBy<T>(s: seq<T>, key: T -> int) {
    forall i, j :: 0 <= i < j < |s| ==> key(s[i]) <= key(s[j])
  }

  /** Inserts `x` before the first element whose key is not smaller. */
  function InsertBy<T>(x: T, s: seq<T>, key: T -> int): (r: seq<T>)
    ensures multiset(r) == multiset(s) + multiset{x}
    ensures SortedBy(s, key) ==> SortedBy(r, key)
  {
    if s == [] || key(x) <= key(s[0]) then
      assert SortedBy(s, key) ==> forall y :: y in s ==> key(x) <= key(y);
      ConsSorted(x, s, key);
      [x] + s
    else
      assert s == [s[0]] + s[1..];
      var rest := InsertBy(x, s[1..], key);
      InsertedAfterHead(x, s, rest, key);
      ConsSorted(s[0], rest, key);
      [s[0]] + rest
  }

  /** Every element of `rest`, which holds `x` and the tail of `s`, lies at or above the head of `s`. */
  lemma InsertedAfterHead<T>(x: T, s: seq<T>, rest: seq<T>, key: T -> int)
    requires s != [] && key(s[0]) < key(x)
    requires multiset(rest) == multiset(s[1..]) + multiset{x}
    ensures SortedBy(s, key) ==> forall y :: y in rest ==> key(s[0]) <= key(y)
  {
    forall y | y in rest && SortedBy(s, key) ensures key(s[0]) <= key(y) {
      assert y in multiset(rest);
      if y != x {
        var k :| 0 <= k < |s[1..]| && s[1..][k] == y;
        assert s[1 + k] == y;
      }
    }
  }

  lemma ConsSorted<T>(a: T, rest: seq<T>, key: T -> int)
    ensures SortedBy(rest, key) && (forall y :: y in rest ==> key(a) <= key(y)) ==> SortedBy([a] + rest, key)
  {
  }

  /** A stable insertion sort by ascending `key` (a queryset `order_by`). */
  function SortBy<T>(s: seq<T>, key: T -> int): (r: seq<T>)
    ensures multiset(r) == multiset(s)
    ensures |r| == |s|
    ensures forall x :: x in r ==> x in s
    ensures forall x :: x in s ==> x in r
    ensures SortedBy(r, key)
  {
    if s == [] then []
    else
      assert s == [s[0]] + s[1..];
      var r := InsertBy(s[0], SortBy(s[1..], key), key);
      assert forall x :: x in r ==> x in multiset(r);
      assert forall x :: x in s ==> x in multiset(s);
      r
  }

  /** Filtering an ordered list keeps it ordered. */
  lemma {:induction false} FilterPreservesSorted<T>(s: seq<T>, f: T -> bool, key: T -> int)
    requires SortedBy(s, key)
    ensures SortedBy(Filter(s, f), key)
  {
    if s != [] {
      FilterPreservesSorted(s[1..], f, key);
      var rest := Filter(s[1..], f);
      forall y | y in rest ensures key(s[0]) <= key(y) {
        var k :| 0 <= k < |s[1..]| && s[1..][k] == y;
        assert s[1 + k] == y;
      }
    }
  }
}
