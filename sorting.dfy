/**
 * The two sorts the routes rely on: the stable sort of `Array.prototype.sort`
 * by a descending numeric key (`(a, b) => b.n - a.n`), and the sort of
 * distinct strings into ascending order.
 */
module Sorting {
  import opened Wrappers

  /** Elements in non-increasing key order. */
  predicate Descending<T>(s: seq<T>, key: T -> real) {
    forall p, q | 0 <= p < q < |s| :: key(s[p]) >= key(s[q])
  }

  /** The elements whose key is k, in order. */
  function WithKey<T>(s: seq<T>, key: T -> real, k: real): (r: seq<T>)
    ensures |r| <= |s|
  {
    if s == [] then []
    else if key(s[0]) == k then [s[0]] + WithKey(s[1..], key, k)
    else WithKey(s[1..], key, k)
  }

  /** Insertion after every element whose key is at least x's. */
  function InsertDesc<T>(s: seq<T>, x: T, key: T -> real): (r: seq<T>)
    ensures |r| == |s| + 1
  {
    if s == [] then [x]
    else if key(s[0]) >= key(x) then [s[0]] + InsertDesc(s[1..], x, key)
    else [x] + s
  }

  /** The stable sort by descending key. */
  function SortDesc<T>(xs: seq<T>, key: T -> real): (r: seq<T>)
    ensures |r| == |xs|
  {
    if xs == [] then [] else InsertDesc(SortDesc(xs[..|xs| - 1], key), xs[|xs| - 1], key)
  }

  lemma {:induction false} InsertDescPermutes<T>(s: seq<T>, x: T, key: T -> real)
    ensures multiset(InsertDesc(s, x, key)) == multiset(s) + multiset{x}
  {
    if s != [] {
      assert s == [s[0]] + s[1..];
      if key(s[0]) >= key(x) {
        InsertDescPermutes(s[1..], x, key);
      }
    }
  }

  /** The sort is a permutation of its input. */
  lemma {:induction false} SortDescPermutes<T>(xs: seq<T>, key: T -> real)
    ensures multiset(SortDesc(xs, key)) == multiset(xs)
  {
    if xs != [] {
      var init := xs[..|xs| - 1];
      SortDescPermutes(init, key);
      InsertDescPermutes(SortDesc(init, key), xs[|xs| - 1], key);
      assert xs == init + [xs[|xs| - 1]];
    }
  }

  lemma {:induction false} InsertDescSorted<T>(s: seq<T>, x: T, key: T -> real)
    requires Descending(s, key)
    ensures Descending(InsertDesc(s, x, key), key)
  {
    if s != [] && key(s[0]) >= key(x) {
      var rest := s[1..];
      InsertDescSorted(rest, x, key);
      InsertDescPermutes(rest, x, key);
      var t := InsertDesc(rest, x, key);
      forall q | 0 <= q < |t|
        ensures key(s[0]) >= key(t[q])
      {
        assert t[q] in multiset(t);
        if t[q] != x {
          var k :| 0 <= k < |rest| && rest[k] == t[q];
          assert s[k + 1] == t[q];
        }
      }
      var r := [s[0]] + t;
      forall p, q | 0 <= p < q < |r|
        ensures key(r[p]) >= key(r[q])
      {
        assert r[q] == t[q - 1];
        if p > 0 {
          assert r[p] == t[p - 1];
        }
      }
    }
  }

  /** The sort puts larger keys first. */
  lemma {:induction false} SortDescSorted<T>(xs: seq<T>, key: T -> real)
    ensures Descending(SortDesc(xs, key), key)
  {
    if xs != [] {
      SortDescSorted(xs[..|xs| - 1], key);
      InsertDescSorted(SortDesc(xs[..|xs| - 1], key), xs[|xs| - 1], key);
    }
  }

  lemma {:induction false} WithKeyAppend<T>(a: seq<T>, b: seq<T>, key: T -> real, k: real)
    ensures WithKey(a + b, key, k) == WithKey(a, key, k) + WithKey(b, key, k)
  {
    if a == [] {
      assert a + b == b;
    } else {
      assert (a + b)[0] == a[0];
      assert (a + b)[1..] == a[1..] + b;
      WithKeyAppend(a[1..], b, key, k);
    }
  }

  lemma {:induction false} WithKeyNone<T>(s: seq<T>, key: T -> real, k: real)
    requires forall q | 0 <= q < |s| :: key(s[q]) < k
    ensures WithKey(s, key, k) == []
  {
    if s != [] {
      WithKeyNone(s[1..], key, k);
    }
  }

  lemma {:induction false} InsertDescStable<T>(s: seq<T>, x: T, key: T -> real, k: real)
    requires Descending(s, key)
    ensures WithKey(InsertDesc(s, x, key), key, k) == WithKey(s, key, k) + (if key(x) == k then [x] else [])
  {
    if s == [] {
    } else if key(s[0]) >= key(x) {
      assert Descending(s[1..], key) by {
        forall p, q | 0 <= p < q < |s[1..]|
          ensures key(s[1..][p]) >= key(s[1..][q])
        {
          assert s[1..][p] == s[p + 1] && s[1..][q] == s[q + 1];
        }
      }
      InsertDescStable(s[1..], x, key, k);
    } else {
      assert InsertDesc(s, x, key) == [x] + s;
      if key(x) == k {
        WithKeyNone(s, key, k);
      }
    }
  }

  /** Stability: the elements of any one key keep their input order. */
  lemma {:induction false} SortDescStable<T>(xs: seq<T>, key: T -> real, k: real)
    ensures WithKey(SortDesc(xs, key), key, k) == WithKey(xs, key, k)
  {
    if xs != [] {
      var init := xs[..|xs| - 1];
      var x := xs[|xs| - 1];
      SortDescStable(init, key, k);
      SortDescSorted(init, key);
      InsertDescStable(SortDesc(init, key), x, key, k);
      assert xs == init + [x];
      WithKeyAppend(init, [x], key, k);
      assert [x][1..] == [];
    }
  }

  lemma DescendingTail<T>(s: seq<T>, key: T -> real)
    requires s != [] && Descending(s, key)
    ensures Descending(s[1..], key)
    ensures forall x | x in s[1..] :: key(s[0]) >= key(x)
  {
    forall p, q | 0 <= p < q < |s[1..]| ensures key(s[1..][p]) >= key(s[1..][q]) {
      assert s[1..][p] == s[p + 1] && s[1..][q] == s[q + 1];
    }
    forall x | x in s[1..] ensures key(s[0]) >= key(x) {
      var j :| 0 <= j < |s[1..]| && s[1..][j] == x;
      assert s[j + 1] == x;
    }
  }

  /** Filtering a sorted sequence leaves it sorted. */
  lemma {:induction false} FilterDescending<T>(s: seq<T>, key: T -> real, f: T -> bool)
    requires Descending(s, key)
    ensures Descending(Filter(s, f), key)
  {
    if s != [] {
      DescendingTail(s, key);
      FilterDescending(s[1..], key, f);
      FilterMembers(s[1..], f);
      var rest := Filter(s[1..], f);
      if f(s[0]) {
        var r := [s[0]] + rest;
        forall p, q | 0 <= p < q < |r| ensures key(r[p]) >= key(r[q]) {
          assert r[q] == rest[q - 1] && rest[q - 1] in rest;
          if p > 0 {
            assert r[p] == rest[p - 1];
          }
        }
      }
    }
  }

  // ---------------------------------------------------------------- strings

  /** Code-point lexicographic order on strings. */
  predicate StrLess(a: string, b: string) {
    if a == [] then b != []
    else if b == [] then false
    else if a[0] != b[0] then a[0] < b[0]
    else StrLess(a[1..], b[1..])
  }

  lemma {:induction false} StrLessIrreflexive(a: string)
    ensures !StrLess(a, a)
  {
    if a != [] {
      StrLessIrreflexive(a[1..]);
    }
  }

  lemma {:induction false} StrLessTransitive(a: string, b: string, c: string)
    requires StrLess(a, b) && StrLess(b, c)
    ensures StrLess(a, c)
  {
    if a != [] && b != [] && c != [] && a[0] == b[0] && b[0] == c[0] {
      StrLessTransitive(a[1..], b[1..], c[1..]);
    }
  }

  lemma {:induction false} StrLessTotal(a: string, b: string)
    requires a != b
    ensures StrLess(a, b) || StrLess(b, a)
  {
    if a != [] && b != [] && a[0] == b[0] {
      assert a == [a[0]] + a[1..] && b == [b[0]] + b[1..];
      StrLessTotal(a[1..], b[1..]);
    }
  }

  /** Strictly ascending: sorted and free of duplicates. */
  predicate Ascending(s: seq<string>) {
    forall p, q | 0 <= p < q < |s| :: StrLess(s[p], s[q])
  }

  function InsertStr(s: seq<string>, x: string): (r: seq<string>)
    ensures |r| == |s| + 1
  {
    if s == [] then [x]
    else if StrLess(s[0], x) then [s[0]] + InsertStr(s[1..], x)
    else [x] + s
  }

  /** `sort` of distinct strings. */
  function SortStrings(xs: seq<string>): (r: seq<string>)
    ensures |r| == |xs|
  {
    if xs == [] then [] else InsertStr(SortStrings(xs[..|xs| - 1]), xs[|xs| - 1])
  }

  lemma {:induction false} InsertStrPermutes(s: seq<string>, x: string)
    ensures multiset(InsertStr(s, x)) == multiset(s) + multiset{x}
  {
    if s != [] {
      assert s == [s[0]] + s[1..];
      if StrLess(s[0], x) {
        InsertStrPermutes(s[1..], x);
      }
    }
  }

  lemma {:induction false} SortStringsPermutes(xs: seq<string>)
    ensures multiset(SortStrings(xs)) == multiset(xs)
  {
    if xs != [] {
      var init := xs[..|xs| - 1];
      SortStringsPermutes(init);
      InsertStrPermutes(SortStrings(init), xs[|xs| - 1]);
      assert xs == init + [xs[|xs| - 1]];
    }
  }

  lemma {:induction false} InsertStrAscending(s: seq<string>, x: string)
    requires Ascending(s) && x !in s
    ensures Ascending(InsertStr(s, x))
  {
    if s != [] {
      var r := InsertStr(s, x);
      if StrLess(s[0], x) {
        var rest := s[1..];
        InsertStrAscending(rest, x);
        InsertStrPermutes(rest, x);
        var t := InsertStr(rest, x);
        forall q | 0 <= q < |t|
          ensures StrLess(s[0], t[q])
        {
          assert t[q] in multiset(t);
          if t[q] != x {
            var k :| 0 <= k < |rest| && rest[k] == t[q];
            assert s[k + 1] == t[q];
          }
        }
        forall p, q | 0 <= p < q < |r|
          ensures StrLess(r[p], r[q])
        {
          assert r[q] == t[q - 1];
          if p > 0 {
            assert r[p] == t[p - 1];
          }
        }
      } else {
        StrLessTotal(s[0], x);
        forall p, q | 0 <= p < q < |r|
          ensures StrLess(r[p], r[q])
        {
          if p == 0 && q > 1 {
            StrLessTransitive(x, s[0], s[q - 1]);
          }
        }
      }
    }
  }

  /** Distinct strings sort into strictly ascending order. */
  lemma {:induction false} SortStringsAscending(xs: seq<string>)
    requires forall p, q | 0 <= p < q < |xs| :: xs[p] != xs[q]
    ensures Ascending(SortStrings(xs))
  {
    if xs != [] {
      var init := xs[..|xs| - 1];
      var x := xs[|xs| - 1];
      assert forall p, q | 0 <= p < q < |init| :: init[p] != init[q] by {
        forall p, q | 0 <= p < q < |init|
          ensures init[p] != init[q]
        {
          assert init[p] == xs[p] && init[q] == xs[q];
        }
      }
      SortStringsAscending(init);
      SortStringsPermutes(init);
      assert x !in multiset(init) by {
        forall k | 0 <= k < |init|
          ensures init[k] != x
        {
          assert init[k] == xs[k];
        }
      }
      InsertStrAscending(SortStrings(init), x);
    }
  }
}
