/**
 * The LINQ operators the core composes (`Where`, `Count`, `Distinct`,
 * `Skip`/`Take`), as functions on sequences.
 */
module Seqs {
  import opened Wrappers

  /** Concatenation is associative. */
  lemma ConcatAssoc<T>(a: seq<T>, b: seq<T>, c: seq<T>)
    ensures a + (b + c) == (a + b) + c
  {
  }

  /** `Where(p)`: the elements satisfying `p`, in their original order. */
  function Filter<T>(s: seq<T>, p: T -> bool): (r: seq<T>)
    ensures |r| <= |s|
    ensures forall i :: 0 <= i < |r| ==> r[i] in s && p(r[i])
  {
    if s == [] then []
    else
      assert s == [s[0]] + s[1..];
      (if p(s[0]) then [s[0]] else []) + Filter(s[1..], p)
  }

  /** `Where(p)` keeps each element at most as often as it occurs. */
  lemma {:induction false} FilterSubMultiset<T>(s: seq<T>, p: T -> bool)
    ensures multiset(Filter(s, p)) <= multiset(s)
  {
    if s != [] {
      var head: seq<T> := if p(s[0]) then [s[0]] else [];
      FilterSubMultiset(s[1..], p);
      assert Filter(s, p) == head + Filter(s[1..], p);
      assert multiset(Filter(s, p)) == multiset(head) + multiset(Filter(s[1..], p));
      assert s == [s[0]] + s[1..];
      assert multiset(s) == multiset{s[0]} + multiset(s[1..]);
    }
  }

  /** An element is kept exactly when it occurs and satisfies `p`. */
  lemma FilterMember<T>(s: seq<T>, p: T -> bool, x: T)
    ensures x in Filter(s, p) <==> x in s && p(x)
  {
    FilterKeeps(s, p);
    if x in Filter(s, p) {
      var k :| 0 <= k < |Filter(s, p)| && Filter(s, p)[k] == x;
    }
    if x in s {
      var k :| 0 <= k < |s| && s[k] == x;
    }
  }

  /** `Where(p)` keeps every element that satisfies `p`. */
  lemma {:induction false} FilterKeeps<T>(s: seq<T>, p: T -> bool)
    ensures forall i :: 0 <= i < |s| && p(s[i]) ==> s[i] in Filter(s, p)
  {
    if s != [] {
      FilterKeeps(s[1..], p);
      forall i | 0 <= i < |s| && p(s[i]) ensures s[i] in Filter(s, p) {
        if i > 0 {
          assert s[i] == s[1..][i - 1];
        }
      }
    }
  }

  lemma {:induction false} FilterConcat<T>(a: seq<T>, b: seq<T>, p: T -> bool)
    ensures Filter(a + b, p) == Filter(a, p) + Filter(b, p)
  {
    if a != [] {
      assert (a + b)[0] == a[0] && (a + b)[1..] == a[1..] + b;
      FilterConcat(a[1..], b, p);
    } else {
      assert a + b == b;
    }
  }

  /** `Where(p)` over one more element. */
  lemma FilterSnoc<T>(s: seq<T>, x: T, p: T -> bool)
    ensures Filter(s + [x], p) == Filter(s, p) + (if p(x) then [x] else [])
  {
    FilterConcat(s, [x], p);
    assert [x][1..] == [];
  }

  /** Filtering by `p` and by its negation `q` splits a sequence into two parts. */
  lemma {:induction false} FilterPartition<T>(s: seq<T>, p: T -> bool, q: T -> bool)
    requires forall x :: q(x) == !p(x)
    ensures multiset(Filter(s, p)) + multiset(Filter(s, q)) == multiset(s)
    ensures |Filter(s, p)| + |Filter(s, q)| == |s|
  {
    if s != [] {
      FilterPartition(s[1..], p, q);
      assert s == [s[0]] + s[1..];
    }
  }

  /** `Count(p)`. */
  function Count<T>(s: seq<T>, p: T -> bool): (n: nat)
    ensures n <= |s|
    ensures n == |Filter(s, p)|
  {
    if s == [] then 0 else (if p(s[0]) then 1 else 0) + Count(s[1..], p)
  }

  predicate NoDuplicates<T(==)>(s: seq<T>) {
    forall i, j :: 0 <= i < j < |s| ==> s[i] != s[j]
  }

  /** `Distinct()`: the first occurrence of every element, in order. */
  function Distinct<T(==)>(s: seq<T>): (r: seq<T>)
    ensures forall i :: 0 <= i < |r| ==> r[i] in s
    ensures forall i :: 0 <= i < |s| ==> s[i] in r
    ensures NoDuplicates(r)
    ensures |r| <= |s|
  {
    if s == [] then []
    else
      var d := Distinct(s[..|s| - 1]);
      assert s == s[..|s| - 1] + [s[|s| - 1]];
      assert forall i :: 0 <= i < |s| - 1 ==> s[i] == s[..|s| - 1][i];
      if s[|s| - 1] in d then d else d + [s[|s| - 1]]
  }

  /** A sequence without duplicates is its own `Distinct()`. */
  lemma {:induction false} DistinctOfDistinct<T>(s: seq<T>)
    requires NoDuplicates(s)
    ensures Distinct(s) == s
  {
    if s != [] {
      var init := s[..|s| - 1];
      DistinctOfDistinct(init);
      assert s[|s| - 1] !in init;
      assert s == init + [s[|s| - 1]];
    }
  }

  /** `Distinct()` is idempotent. */
  lemma DistinctIdempotent<T>(s: seq<T>)
    ensures Distinct(Distinct(s)) == Distinct(s)
  {
    DistinctOfDistinct(Distinct(s));
  }

  /** The position of the first occurrence of `x` in `s`. */
  function IndexOf<T(==)>(s: seq<T>, x: T): (k: nat)
    requires x in s
    ensures k < |s| && s[k] == x
    ensures forall j :: 0 <= j < k ==> s[j] != x
  {
    if s[0] == x then 0
    else
      var k := 1 + IndexOf(s[1..], x);
      assert forall j :: 1 <= j < k ==> s[j] == s[1..][j - 1];
      k
  }

  /** Appending never moves a first occurrence. */
  lemma IndexOfPrefix<T>(a: seq<T>, b: seq<T>, x: T)
    requires x in a
    ensures IndexOf(a + b, x) == IndexOf(a, x)
  {
    assert (a + b)[IndexOf(a, x)] == x;
  }

  /** An element appended after `s` comes after everything in `s`. */
  lemma IndexOfLast<T>(s: seq<T>, x: T, y: T)
    requires y in s && x !in s
    ensures IndexOf(s + [x], x) == |s| && IndexOf(s + [x], y) < |s|
  {
    IndexOfPrefix(s, [x], y);
    assert forall j :: 0 <= j < |s| ==> (s + [x])[j] == s[j] != x;
  }

  /** A head other than `x` moves its first occurrence one place on. */
  lemma IndexOfCons<T>(h: T, t: seq<T>, x: T)
    requires x in t && h != x
    ensures IndexOf([h] + t, x) == 1 + IndexOf(t, x)
  {
    assert ([h] + t)[1..] == t;
  }

  /** Every element of `r` occurs in `s`, and their first occurrences there are in the order of `r`. */
  predicate InFirstOrder<T(==)>(s: seq<T>, r: seq<T>) {
    forall i, j :: 0 <= i < j < |r| ==> r[i] in s && r[j] in s && IndexOf(s, r[i]) < IndexOf(s, r[j])
  }

  /** One pair of `DistinctInFirstOccurrenceOrder` after one more element. */
  lemma DistinctOrderStep<T>(init: seq<T>, x: T, i: int, j: int)
    requires InFirstOrder(init, Distinct(init))
    requires 0 <= i < j < |Distinct(init + [x])|
    ensures var r := Distinct(init + [x]);
      IndexOf(init + [x], r[i]) < IndexOf(init + [x], r[j])
  {
    var s := init + [x];
    var d := Distinct(init);
    assert s[..|s| - 1] == init && s[|s| - 1] == x;
    var r := Distinct(s);
    assert r == if x in d then d else d + [x];
    assert r[i] == d[i];
    if j < |d| {
      assert r[j] == d[j];
      IndexOfPrefix(init, [x], d[i]);
      IndexOfPrefix(init, [x], d[j]);
    } else {
      assert r[j] == x && x !in init;
      IndexOfLast(init, x, d[i]);
    }
  }

  /** `Distinct()` lists the elements in the order of their first occurrences. */
  lemma {:induction false} DistinctInFirstOccurrenceOrder<T>(s: seq<T>)
    ensures InFirstOrder(s, Distinct(s))
  {
    if s != [] {
      var init := s[..|s| - 1];
      DistinctInFirstOccurrenceOrder(init);
      assert s == init + [s[|s| - 1]];
      forall i, j | 0 <= i < j < |Distinct(s)| ensures IndexOf(s, Distinct(s)[i]) < IndexOf(s, Distinct(s)[j]) {
        DistinctOrderStep(init, s[|s| - 1], i, j);
      }
    }
  }

  /** The first occurrence of the head is at 0, and of anything else after it. */
  lemma IndexOfHead<T>(s: seq<T>, y: T)
    requires s != [] && y in s
    ensures IndexOf(s, s[0]) == 0
    ensures y != s[0] ==> IndexOf(s, y) > 0
  {
  }

  /** `Where(p)` keeps the order of the first occurrences of the elements it keeps. */
  lemma {:induction false} FilterKeepsFirstOrder<T>(s: seq<T>, p: T -> bool, x: T, y: T)
    requires x in s && y in s && p(x) && p(y)
    ensures x in Filter(s, p) && y in Filter(s, p)
    ensures IndexOf(Filter(s, p), x) < IndexOf(Filter(s, p), y) <==> IndexOf(s, x) < IndexOf(s, y)
  {
    FilterMember(s, p, x);
    FilterMember(s, p, y);
    var fs := Filter(s, p);
    var h := s[0];
    var t := s[1..];
    assert s == [h] + t;
    if h == x || h == y {
      assert fs[0] == h;
      IndexOfHead(s, x);
      IndexOfHead(s, y);
      IndexOfHead(fs, x);
      IndexOfHead(fs, y);
    } else {
      var f := Filter(t, p);
      assert fs == (if p(h) then [h] else []) + f;
      FilterKeepsFirstOrder(t, p, x, y);
      IndexOfCons(h, t, x);
      IndexOfCons(h, t, y);
      if p(h) {
        IndexOfCons(h, f, x);
        IndexOfCons(h, f, y);
      } else {
        assert fs == f;
      }
    }
  }

  /** `Where(p).Distinct()` lists the kept elements in the order they first occur in the input. */
  lemma DistinctFilterOrder<T>(s: seq<T>, p: T -> bool)
    ensures InFirstOrder(s, Distinct(Filter(s, p)))
  {
    var f := Filter(s, p);
    var r := Distinct(f);
    DistinctInFirstOccurrenceOrder(f);
    forall i, j | 0 <= i < j < |r| ensures r[i] in s && r[j] in s && IndexOf(s, r[i]) < IndexOf(s, r[j]) {
      FilterMember(s, p, r[i]);
      FilterMember(s, p, r[j]);
      FilterKeepsFirstOrder(s, p, r[i], r[j]);
    }
  }

  /** `Skip(k)` on a sequence; a negative count skips nothing. */
  function Skip<T>(s: seq<T>, k: int): (r: seq<T>)
    ensures |r| == if k <= 0 then |s| else if k >= |s| then 0 else |s| - k
    ensures forall i :: 0 <= i < |r| ==> r[i] == s[i + (if k <= 0 then 0 else k)]
  {
    if k <= 0 then s else if k >= |s| then [] else s[k..]
  }

  /** `Take(n)`; a negative count takes nothing. */
  function Take<T>(s: seq<T>, n: int): (r: seq<T>)
    ensures |r| == if n <= 0 then 0 else if n >= |s| then |s| else n
    ensures r <= s
  {
    if n <= 0 then [] else if n >= |s| then s else s[..n]
  }

  /** The index of the first element satisfying `p` (`FirstOrDefault(p)` as a position). */
  function FirstIndex<T>(s: seq<T>, p: T -> bool): (r: Option<nat>)
    ensures r.None? <==> forall i :: 0 <= i < |s| ==> !p(s[i])
    ensures r.Some? ==> r.value < |s| && p(s[r.value]) && forall j :: 0 <= j < r.value ==> !p(s[j])
  {
    if s == [] then None
    else if p(s[0]) then Some(0)
    else
      var t := FirstIndex(s[1..], p);
      if t.None? then None else Some(t.value + 1)
  }

  /** `FirstOrDefault(p)`: the first element satisfying `p`, if any. */
  function FirstWhere<T>(s: seq<T>, p: T -> bool): (r: Option<T>)
    ensures r.None? <==> forall i :: 0 <= i < |s| ==> !p(s[i])
    ensures r.Some? ==> exists i :: 0 <= i < |s| && s[i] == r.value && p(s[i]) && forall j :: 0 <= j < i ==> !p(s[j])
  {
    var i := FirstIndex(s, p);
    if i.None? then None else Some(s[i.value])
  }

  /** Searching the elements that pass `q` for one that satisfies `p` finds the first element that satisfies both. */
  lemma {:induction false} FirstWhereFilter<T>(s: seq<T>, q: T -> bool, p: T -> bool, both: T -> bool)
    requires forall x :: both(x) == (q(x) && p(x))
    ensures FirstWhere(Filter(s, q), p) == FirstWhere(s, both)
  {
    if s != [] {
      var f := Filter(s, q);
      FirstWhereUnfold(s, both);
      FirstWhereFilter(s[1..], q, p, both);
      if q(s[0]) {
        assert f == [s[0]] + Filter(s[1..], q);
        assert f[0] == s[0] && f[1..] == Filter(s[1..], q);
        FirstWhereUnfold(f, p);
      } else {
        assert f == Filter(s[1..], q);
      }
    }
  }

  lemma FirstWhereUnfold<T>(s: seq<T>, p: T -> bool)
    ensures FirstWhere(s, p) == if s == [] then None else if p(s[0]) then Some(s[0]) else FirstWhere(s[1..], p)
  {
    if s != [] && !p(s[0]) {
      var t := FirstIndex(s[1..], p);
      if t.Some? {
        assert s[1..][t.value] == s[t.value + 1];
      }
    }
  }

  /** `Any(p)`: some element passes. */
  predicate Any<T>(s: seq<T>, p: T -> bool) {
    exists i :: 0 <= i < |s| && p(s[i])
  }

  lemma AnyIn<T>(s: seq<T>, x: T, p: T -> bool)
    requires x in s && p(x)
    ensures Any(s, p)
  {
    var i :| 0 <= i < |s| && s[i] == x;
  }

  /** Some element passes exactly when one before the last does, or the last does. */
  lemma AnySnoc<T>(s: seq<T>, p: T -> bool)
    requires s != []
    ensures Any(s, p) <==> Any(s[..|s| - 1], p) || p(s[|s| - 1])
  {
    var init := s[..|s| - 1];
    if Any(init, p) {
      var i :| 0 <= i < |init| && p(init[i]);
      assert s[i] == init[i];
    }
    if Any(s, p) && !p(s[|s| - 1]) {
      var i :| 0 <= i < |s| && p(s[i]);
      assert init[i] == s[i];
    }
  }

  /** Two equal elements at different positions count twice. */
  lemma TwoCopies<T>(s: seq<T>, i: int, j: int)
    requires 0 <= i < j < |s| && s[i] == s[j]
    ensures multiset(s)[s[i]] >= 2
  {
    assert s == s[..i] + [s[i]] + s[i + 1..j] + [s[j]] + s[j + 1..];
  }

  /** Without duplicates, every element counts at most once. */
  lemma {:induction false} NoDuplicatesCountsOnce<T>(s: seq<T>, x: T)
    requires NoDuplicates(s)
    ensures multiset(s)[x] <= 1
  {
    if s != [] {
      assert NoDuplicates(s[1..]) by {
        forall i, j | 0 <= i < j < |s[1..]| ensures s[1..][i] != s[1..][j] {
          assert s[1..][i] == s[i + 1] && s[1..][j] == s[j + 1];
        }
      }
      NoDuplicatesCountsOnce(s[1..], x);
      assert s == [s[0]] + s[1..];
      if s[0] == x {
        assert x !in s[1..] by {
          forall k | 0 <= k < |s[1..]| ensures s[1..][k] != x {
            assert s[1..][k] == s[k + 1];
          }
        }
      }
    }
  }
}
