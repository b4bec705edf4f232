/** Array methods the source relies on (`filter`, `map`, `slice`) and the
    counting and de-duplication that its dictionaries and sets perform. */
module Seqs {

  predicate NoDuplicates<T(==)>(s: seq<T>)
  {
    forall i, j :: 0 <= i < j < |s| ==> s[i] != s[j]
  }

  /** `s.filter(p)`, defined from the end so that a left-to-right loop can
      keep `Filter(s[..i], p)` as its invariant. */
  function Filter<T(!new)>(s: seq<T>, p: T -> bool): (r: seq<T>)
    ensures |r| <= |s|
    ensures forall x :: x in r <==> x in s && p(x)
  {
    if s == [] then []
    else Filter(s[..|s| - 1], p) + (if p(s[|s| - 1]) then [s[|s| - 1]] else [])
  }

  /** `s.map(f)` */
  function Map<T, U>(s: seq<T>, f: T -> U): (r: seq<U>)
    ensures |r| == |s|
    ensures forall i :: 0 <= i < |s| ==> r[i] == f(s[i])
  {
    seq(|s|, i requires 0 <= i < |s| => f(s[i]))
  }

  /** Every element of a mapped sequence is the image of an element. */
  lemma MapPreimage<T, U>(s: seq<T>, f: T -> U, y: U) returns (x: T)
    requires y in Map(s, f)
    ensures x in s && f(x) == y
  {
    var i :| 0 <= i < |s| && Map(s, f)[i] == y;
    x := s[i];
  }

  /** `s.slice(0, n)` */
  function Take<T>(s: seq<T>, n: nat): (r: seq<T>)
    ensures |r| == if |s| <= n then |s| else n
    ensures forall i :: 0 <= i < |r| ==> r[i] == s[i]
  {
    if |s| <= n then s else s[..n]
  }

  /** How many times `x` occurs in `s`. */
  function Occurrences<T(==)>(s: seq<T>, x: T): (n: nat)
    ensures n <= |s|
    ensures n > 0 <==> x in s
  {
    if s == [] then 0
    else Occurrences(s[..|s| - 1], x) + (if s[|s| - 1] == x then 1 else 0)
  }

  /** The elements of `s` in order of first occurrence, each once. */
  function Distinct<T(==,!new)>(s: seq<T>): (r: seq<T>)
    ensures NoDuplicates(r)
    ensures forall x :: x in r <==> x in s
    ensures |r| <= |s|
  {
    if s == [] then []
    else
      var d := Distinct(s[..|s| - 1]);
      if s[|s| - 1] in d then d else d + [s[|s| - 1]]
  }

  /** Index of the first `x` in `s`, or `|s|` when there is none. */
  function FirstIndex<T(==)>(s: seq<T>, x: T): (k: nat)
    ensures k <= |s|
    ensures k < |s| <==> x in s
    ensures k < |s| ==> s[k] == x
    ensures forall i :: 0 <= i < k ==> s[i] != x
  {
    if s == [] then 0
    else
      var k := FirstIndex(s[..|s| - 1], x);
      if k < |s| - 1 then k
      else if s[|s| - 1] == x then |s| - 1
      else |s|
  }

  function FirstIndexIn<T(==)>(s: seq<T>): T -> int
  {
    x => FirstIndex(s, x)
  }

  /** `key` strictly increases along `s`. */
  predicate IncreasingBy<T>(s: seq<T>, key: T -> int)
  {
    forall i, j :: 0 <= i < j < |s| ==> key(s[i]) < key(s[j])
  }

  /** `Distinct` lists the elements in order of first occurrence. */
  lemma {:induction false} DistinctOrder<T(!new)>(s: seq<T>)
    ensures IncreasingBy(Distinct(s), FirstIndexIn(s))
  {
    if s != [] {
      var init, x := s[..|s| - 1], s[|s| - 1];
      var d := Distinct(init);
      DistinctOrder(init);
      forall y | y in init ensures FirstIndex(s, y) == FirstIndex(init, y) {
        FirstIndexSnoc(s, y);
      }
      var r := Distinct(s);
      forall i, j | 0 <= i < j < |r| ensures FirstIndex(s, r[i]) < FirstIndex(s, r[j]) {
        assert r[i] in init;
        if j < |d| {
          assert r[i] == d[i] && r[j] == d[j];
        } else {
          assert r[j] == x && x !in init;
          FirstIndexSnoc(s, x);
        }
      }
    }
  }

  lemma FirstIndexSnoc<T>(s: seq<T>, y: T)
    requires s != []
    ensures FirstIndex(s, y) ==
      if y in s[..|s| - 1] then FirstIndex(s[..|s| - 1], y)
      else if s[|s| - 1] == y then |s| - 1
      else |s|
  {
  }

  /** A filter keeps an increasing key increasing. */
  lemma {:induction false} FilterIncreasing<T(!new)>(s: seq<T>, p: T -> bool, key: T -> int)
    requires IncreasingBy(s, key)
    ensures IncreasingBy(Filter(s, p), key)
  {
    if s != [] {
      var init, x := s[..|s| - 1], s[|s| - 1];
      assert IncreasingBy(init, key) by {
        forall i, j | 0 <= i < j < |init| ensures key(init[i]) < key(init[j]) {
          assert init[i] == s[i] && init[j] == s[j];
        }
      }
      FilterIncreasing(init, p, key);
      var f := Filter(init, p);
      if p(x) {
        var r := Filter(s, p);
        forall i, j | 0 <= i < j < |r| ensures key(r[i]) < key(r[j]) {
          if j == |f| {
            assert r[i] == f[i] && f[i] in init;
            var m :| 0 <= m < |init| && init[m] == f[i];
            assert s[m] == init[m];
          } else {
            assert r[i] == f[i] && r[j] == f[j];
          }
        }
      }
    }
  }

  /** Two complementary filters split a sequence: their lengths add up and
      every element lands in exactly one of them, as often as it occurs. */
  lemma FilterSplit<T(!new)>(s: seq<T>, p: T -> bool, q: T -> bool)
    requires forall x :: q(x) == !p(x)
    ensures |Filter(s, p)| + |Filter(s, q)| == |s|
    ensures multiset(Filter(s, p)) + multiset(Filter(s, q)) == multiset(s)
  {
    FilterSplitLength(s, p, q);
    FilterSplitMultiset(s, p, q);
  }

  lemma {:induction false} FilterSplitLength<T(!new)>(s: seq<T>, p: T -> bool, q: T -> bool)
    requires forall x :: q(x) == !p(x)
    ensures |Filter(s, p)| + |Filter(s, q)| == |s|
  {
    if s != [] {
      FilterSplitLength(s[..|s| - 1], p, q);
    }
  }

  lemma {:induction false} FilterSplitMultiset<T(!new)>(s: seq<T>, p: T -> bool, q: T -> bool)
    requires forall x :: q(x) == !p(x)
    ensures multiset(Filter(s, p)) + multiset(Filter(s, q)) == multiset(s)
  {
    if s != [] {
      FilterSplitMultiset(s[..|s| - 1], p, q);
      MultisetSnoc(s);
      if p(s[|s| - 1]) {
        FilterKeepsLast(s, p);
        FilterDropsLast(s, q);
      } else {
        FilterDropsLast(s, p);
        FilterKeepsLast(s, q);
      }
    }
  }

  lemma FilterKeepsLast<T(!new)>(s: seq<T>, p: T -> bool)
    requires s != [] && p(s[|s| - 1])
    ensures multiset(Filter(s, p)) == multiset(Filter(s[..|s| - 1], p)) + multiset{s[|s| - 1]}
  {
  }

  lemma FilterDropsLast<T(!new)>(s: seq<T>, p: T -> bool)
    requires s != [] && !p(s[|s| - 1])
    ensures Filter(s, p) == Filter(s[..|s| - 1], p)
  {
  }

  lemma MultisetSnoc<T>(s: seq<T>)
    requires s != []
    ensures multiset(s) == multiset(s[..|s| - 1]) + multiset{s[|s| - 1]}
  {
    assert s == s[..|s| - 1] + [s[|s| - 1]];
  }

  /** Filtering twice is filtering once by both conditions, so a filter of a
      filter keeps the order of the original sequence. */
  lemma {:induction false} FilterFilter<T(!new)>(s: seq<T>, p: T -> bool, q: T -> bool, pq: T -> bool)
    requires forall x :: pq(x) == (p(x) && q(x))
    ensures Filter(Filter(s, p), q) == Filter(s, pq)
  {
    if s != [] {
      var init, last := s[..|s| - 1], s[|s| - 1];
      FilterFilter(init, p, q, pq);
      var f := Filter(s, p);
      if p(last) {
        assert f[..|f| - 1] == Filter(init, p);
      } else {
        assert f == Filter(init, p);
      }
    }
  }

  /** A filter of a duplicate-free sequence is duplicate-free. */
  lemma {:induction false} FilterNoDuplicates<T(!new)>(s: seq<T>, p: T -> bool)
    requires NoDuplicates(s)
    ensures NoDuplicates(Filter(s, p))
  {
    if s != [] {
      FilterNoDuplicates(s[..|s| - 1], p);
      assert s[|s| - 1] !in s[..|s| - 1];
    }
  }
  /** Filtering distributes over concatenation. */
  lemma {:induction false} FilterConcat<T(!new)>(a: seq<T>, b: seq<T>, p: T -> bool)
    ensures Filter(a + b, p) == Filter(a, p) + Filter(b, p)
  {
    if b != [] {
      FilterConcat(a, b[..|b| - 1], p);
      assert (a + b)[..|a + b| - 1] == a + b[..|b| - 1];
    } else {
      assert a + b == a;
    }
  }

  /** Occurrences add up over a concatenation. */
  lemma {:induction false} OccurrencesConcat<T>(a: seq<T>, b: seq<T>, x: T)
    ensures Occurrences(a + b, x) == Occurrences(a, x) + Occurrences(b, x)
  {
    if b != [] {
      OccurrencesConcat(a, b[..|b| - 1], x);
      assert (a + b)[..|a + b| - 1] == a + b[..|b| - 1];
    } else {
      assert a + b == a;
    }
  }

  /** A filter keeps every occurrence of an element it accepts and none of
      one it rejects. */
  lemma {:induction false} FilterOccurrences<T(!new)>(s: seq<T>, p: T -> bool, x: T)
    ensures Occurrences(Filter(s, p), x) == if p(x) then Occurrences(s, x) else 0
  {
    if s != [] {
      FilterOccurrences(s[..|s| - 1], p, x);
      var last := s[|s| - 1];
      OccurrencesConcat(Filter(s[..|s| - 1], p), if p(last) then [last] else [], x);
    }
  }
  /** An element found at two positions occurs at least twice. */
  lemma OccurrencesAtLeastTwo<T>(s: seq<T>, x: T, i: nat, j: nat)
    requires i < j < |s| && s[i] == x && s[j] == x
    ensures Occurrences(s, x) >= 2
  {
    assert s == s[..j] + s[j..];
    assert s[..j][i] == x && s[j..][0] == x;
    OccurrencesConcat(s[..j], s[j..], x);
  }

  /** A filter that rejects every element yields nothing. */
  lemma {:induction false} FilterNone<T(!new)>(s: seq<T>, p: T -> bool)
    requires forall i :: 0 <= i < |s| ==> !p(s[i])
    ensures Filter(s, p) == []
  {
    if s != [] {
      FilterNone(s[..|s| - 1], p);
    }
  }

  /** Two pieces of which one is empty can trade places. */
  lemma SwapEmpty<T>(x: seq<T>, y: seq<T>, z: seq<T>)
    requires y == [] || z == []
    ensures x + y + z == x + z + y
  {
  }

  /** Inserting an element that is not there keeps a sequence duplicate-free. */
  lemma InsertNoDuplicates<T>(s: seq<T>, k: nat, x: T)
    requires NoDuplicates(s) && x !in s && k <= |s|
    ensures NoDuplicates(s[..k] + [x] + s[k..])
  {
    var r := s[..k] + [x] + s[k..];
    forall i, j | 0 <= i < j < |r| ensures r[i] != r[j] {
      if j < k { assert r[i] == s[i] && r[j] == s[j]; }
      else if j == k { assert r[i] == s[i]; }
      else if i == k { assert r[j] == s[j - 1]; }
      else if i < k { assert r[i] == s[i] && r[j] == s[j - 1]; }
      else { assert r[i] == s[i - 1] && r[j] == s[j - 1]; }
    }
  }
}
