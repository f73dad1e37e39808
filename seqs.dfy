/** Generic facts about sequences: the `Array.prototype.filter` shape, order-preserving
    subsequences, occurrence counts and first-occurrence de-duplication (the order an
    insertion-ordered dictionary keeps its keys in). */
module Seqs {

  /** Order-preserving selection of the elements satisfying `p` (JavaScript `filter`,
      a Python list comprehension with an `if`). */
  function Filter<T(==)>(s: seq<T>, p: T -> bool): (r: seq<T>)
    ensures |r| <= |s|
    ensures forall x :: x in r ==> x in s && p(x)
  {
    if s == [] then [] else (if p(s[0]) then [s[0]] else []) + Filter(s[1..], p)
  }

  /** `a` can be obtained from `b` by deleting elements, keeping the rest in order. */
  predicate IsSubsequence<T(==)>(a: seq<T>, b: seq<T>)
    decreases |b|
  {
    if a == [] then true
    else if b == [] then false
    else (a[0] == b[0] && IsSubsequence(a[1..], b[1..])) || IsSubsequence(a, b[1..])
  }

  /** Pairwise distinct elements. */
  predicate Distinct<T(==)>(s: seq<T>) {
    forall i, j :: 0 <= i < j < |s| ==> s[i] != s[j]
  }

  /** Number of occurrences of `x` in `s`. */
  function Count<T(==)>(s: seq<T>, x: T): (n: nat)
    ensures n <= |s|
    ensures n == 0 <==> x !in s
  {
    if s == [] then 0 else (if s[0] == x then 1 else 0) + Count(s[1..], x)
  }

  /** The distinct elements of `s` in order of first occurrence: the key order of a
      Python dictionary filled by assigning the elements of `s` in turn. */
  function Dedup<T(==)>(s: seq<T>): (r: seq<T>)
    ensures forall i :: 0 <= i < |r| ==> r[i] in s
    ensures forall i :: 0 <= i < |s| ==> s[i] in r
    ensures Distinct(r)
    ensures |r| <= |s|
  {
    if s == [] then []
    else
      var d := Dedup(s[..|s| - 1]);
      if s[|s| - 1] in d then d else d + [s[|s| - 1]]
  }

  /** The first `n` elements of `s`, or all of it when it is shorter (JavaScript
      `slice(0, n)`, Python `[:n]`). */
  function Take<T>(s: seq<T>, n: nat): (r: seq<T>)
    ensures |r| == if |s| <= n then |s| else n
    ensures forall i :: 0 <= i < |r| ==> r[i] == s[i]
  {
    if |s| <= n then s else s[..n]
  }

  /** `x in Filter(s, p)` holds exactly for the members of `s` that satisfy `p`. */
  lemma {:induction false} FilterMember<T>(s: seq<T>, p: T -> bool, x: T)
    ensures x in Filter(s, p) <==> x in s && p(x)
  {
    if s != [] {
      FilterMember(s[1..], p, x);
      assert s == [s[0]] + s[1..];
    }
  }

  /** Filtering keeps the elements it keeps in their original order. */
  lemma {:induction false} FilterIsSubsequence<T>(s: seq<T>, p: T -> bool)
    ensures IsSubsequence(Filter(s, p), s)
  {
    if s != [] {
      FilterIsSubsequence(s[1..], p);
      var r := Filter(s[1..], p);
      if p(s[0]) {
        assert Filter(s, p) == [s[0]] + r;
        assert ([s[0]] + r)[1..] == r;
      } else {
        assert Filter(s, p) == r;
        SubsequenceOfTail(r, s);
      }
    }
  }

  /** A subsequence of the tail is a subsequence of the whole. */
  lemma SubsequenceOfTail<T>(a: seq<T>, b: seq<T>)
    requires b != []
    requires IsSubsequence(a, b[1..])
    ensures IsSubsequence(a, b)
  {
  }

  /** A subsequence is no longer than the sequence and contains only its elements. */
  lemma {:induction false} SubsequenceShape<T>(a: seq<T>, b: seq<T>)
    requires IsSubsequence(a, b)
    ensures |a| <= |b|
    ensures forall x :: x in a ==> x in b
  {
    if a != [] && b != [] {
      if a[0] == b[0] && IsSubsequence(a[1..], b[1..]) {
        SubsequenceShape(a[1..], b[1..]);
        assert a == [a[0]] + a[1..];
        assert b == [b[0]] + b[1..];
      } else {
        SubsequenceShape(a, b[1..]);
        assert b == [b[0]] + b[1..];
      }
    }
  }

  /** Filtering by two predicates in turn is filtering by their conjunction: the
      successive `.filter` steps of a query pipeline select exactly the elements
      that pass every step. */
  lemma {:induction false} FilterFilter<T>(s: seq<T>, p: T -> bool, q: T -> bool, both: T -> bool)
    requires forall x :: both(x) == (p(x) && q(x))
    ensures Filter(Filter(s, p), q) == Filter(s, both)
  {
    if s != [] {
      var p0: seq<T> := if p(s[0]) then [s[0]] else [];
      var b0: seq<T> := if both(s[0]) then [s[0]] else [];
      assert Filter(s, p) == p0 + Filter(s[1..], p);
      assert Filter(s, both) == b0 + Filter(s[1..], both);
      FilterFilter(s[1..], p, q, both);
      FilterAppend(p0, Filter(s[1..], p), q);
      assert Filter(p0, q) == b0 by {
        if p(s[0]) {
          assert Filter([s[0]], q) == (if q(s[0]) then [s[0]] else []) + Filter([s[0]][1..], q);
        }
      }
    }
  }

  /** Filtering distributes over concatenation. */
  lemma {:induction false} FilterAppend<T>(a: seq<T>, b: seq<T>, p: T -> bool)
    ensures Filter(a + b, p) == Filter(a, p) + Filter(b, p)
  {
    if a != [] {
      FilterAppend(a[1..], b, p);
      assert (a + b)[1..] == a[1..] + b;
    } else {
      assert a + b == b;
    }
  }

  /** Filtering by a predicate that every element satisfies changes nothing. */
  lemma {:induction false} FilterAll<T>(s: seq<T>, p: T -> bool)
    requires forall x :: x in s ==> p(x)
    ensures Filter(s, p) == s
  {
    if s != [] {
      assert forall x :: x in s[1..] ==> x in s;
      FilterAll(s[1..], p);
      assert s == [s[0]] + s[1..];
    }
  }

  /** Filtering keeps every occurrence of a selected element and none of the others. */
  lemma {:induction false} FilterCount<T>(s: seq<T>, p: T -> bool, x: T)
    ensures Count(Filter(s, p), x) == if p(x) then Count(s, x) else 0
  {
    if s != [] {
      var h: seq<T> := if p(s[0]) then [s[0]] else [];
      FilterCount(s[1..], p, x);
      CountAppend(h, Filter(s[1..], p), x);
      assert Count(h, x) == if p(s[0]) && s[0] == x then 1 else 0 by {
        if p(s[0]) {
          assert h[1..] == [];
        }
      }
    }
  }

  /** Filtering by a predicate that no element satisfies leaves nothing. */
  lemma {:induction false} FilterNone<T>(s: seq<T>, p: T -> bool)
    requires forall i :: 0 <= i < |s| ==> !p(s[i])
    ensures Filter(s, p) == []
  {
    if s != [] {
      assert forall i :: 0 <= i < |s[1..]| ==> s[1..][i] == s[i + 1];
      FilterNone(s[1..], p);
    }
  }

  /** A one-element list is kept or dropped whole. */
  lemma FilterSingle<T>(x: T, p: T -> bool)
    ensures Filter([x], p) == if p(x) then [x] else []
  {
    assert [x][1..] == [];
  }

  /** The head of `s` in front of `t` is filtered as it is in `s`. */
  lemma ConsFilter<T>(s: seq<T>, t: seq<T>, p: T -> bool, tail: seq<T>)
    requires s != [] && Filter(t, p) == Filter(s[1..], p) + tail
    ensures Filter([s[0]] + t, p) == Filter(s, p) + tail
  {
    var h: seq<T> := if p(s[0]) then [s[0]] else [];
    FilterAppend([s[0]], t, p);
    FilterSingle(s[0], p);
    assert Filter(s, p) == h + Filter(s[1..], p);
    Regroup(h, Filter(s[1..], p), tail, Filter([s[0]] + t, p), Filter(s, p));
  }

  /** Concatenation regrouped, with both sides named. */
  lemma Regroup<T>(x: seq<T>, y: seq<T>, z: seq<T>, l: seq<T>, r: seq<T>)
    requires l == x + (y + z) && r == x + y
    ensures l == r + z
  {
  }

  /** Two predicates that agree everywhere select the same elements. */
  lemma {:induction false} FilterCongruent<T>(s: seq<T>, p: T -> bool, q: T -> bool)
    requires forall x :: p(x) == q(x)
    ensures Filter(s, p) == Filter(s, q)
  {
    if s != [] {
      FilterCongruent(s[1..], p, q);
    }
  }

  /** Weakening the predicate can only add elements: the stricter result is a
      subsequence of the looser one, and no longer. */
  lemma {:induction false} FilterMonotone<T>(s: seq<T>, p: T -> bool, q: T -> bool)
    requires forall x :: p(x) ==> q(x)
    ensures IsSubsequence(Filter(s, p), Filter(s, q))
    ensures |Filter(s, p)| <= |Filter(s, q)|
  {
    if s != [] {
      FilterMonotone(s[1..], p, q);
      var a, b := Filter(s[1..], p), Filter(s[1..], q);
      if p(s[0]) {
        assert Filter(s, p) == [s[0]] + a && Filter(s, q) == [s[0]] + b;
        assert ([s[0]] + a)[1..] == a && ([s[0]] + b)[1..] == b;
      } else if q(s[0]) {
        assert Filter(s, p) == a;
        assert Filter(s, q) == [s[0]] + b;
        assert ([s[0]] + b)[1..] == b;
        SubsequenceOfTail(a, [s[0]] + b);
      } else {
        assert Filter(s, p) == a && Filter(s, q) == b;
      }
    }
  }

  /** `s` with every occurrence of `x` deleted and the rest kept in order
      (`filter(y => y !== x)`). */
  function Remove<T(==)>(s: seq<T>, x: T): (r: seq<T>)
    ensures |r| <= |s|
    ensures x !in r
  {
    if s == [] then [] else (if s[0] == x then [] else [s[0]]) + Remove(s[1..], x)
  }

  /** Removal keeps every other element and adds none. */
  lemma {:induction false} RemoveMembers<T>(s: seq<T>, x: T)
    ensures forall y :: y in Remove(s, x) <==> y in s && y != x
  {
    if s != [] {
      RemoveMembers(s[1..], x);
      RemoveCons(s[0], s[1..], x);
      assert s == [s[0]] + s[1..];
    }
  }

  /** Removing an element that does not occur changes nothing. */
  lemma {:induction false} RemoveAbsent<T>(s: seq<T>, x: T)
    requires x !in s
    ensures Remove(s, x) == s
  {
    if s != [] {
      RemoveAbsent(s[1..], x);
      assert s == [s[0]] + s[1..];
    }
  }

  /** Removal distributes over concatenation. */
  lemma {:induction false} RemoveAppend<T>(a: seq<T>, b: seq<T>, x: T)
    ensures Remove(a + b, x) == Remove(a, x) + Remove(b, x)
  {
    if a != [] {
      RemoveAppend(a[1..], b, x);
      assert (a + b)[1..] == a[1..] + b;
    } else {
      assert a + b == b;
    }
  }

  /** Removal from a sequence with a known head. */
  lemma RemoveCons<T>(h: T, t: seq<T>, x: T)
    ensures Remove([h] + t, x) == (if h == x then [] else [h]) + Remove(t, x)
  {
    assert ([h] + t)[1..] == t;
  }

  /** Adding `x` at the end and then removing it restores a sequence without `x`. */
  lemma {:induction false} AppendThenRemove<T>(s: seq<T>, x: T)
    requires x !in s
    ensures Remove(s + [x], x) == s
  {
    RemoveAppend(s, [x], x);
    RemoveAbsent(s, x);
    assert Remove([x], x) == [] + Remove([], x);
  }

  /** Removal keeps the remaining elements pairwise distinct. */
  lemma {:induction false} RemoveDistinct<T>(s: seq<T>, x: T)
    requires Distinct(s)
    ensures Distinct(Remove(s, x))
  {
    if s != [] {
      var t := s[1..];
      assert Distinct(t) by {
        forall i, j | 0 <= i < j < |t| ensures t[i] != t[j] {
          assert t[i] == s[i + 1] && t[j] == s[j + 1];
        }
      }
      RemoveDistinct(t, x);
      RemoveMembers(t, x);
      var r := Remove(t, x);
      if s[0] != x {
        assert s[0] !in t by {
          forall j | 0 <= j < |t| ensures t[j] != s[0] {
            assert t[j] == s[j + 1];
          }
        }
        assert s[0] !in r;
        var w := [s[0]] + r;
        forall i, j | 0 <= i < j < |w| ensures w[i] != w[j] {
          if i == 0 {
            assert w[j] == r[j - 1];
          } else {
            assert w[i] == r[i - 1] && w[j] == r[j - 1];
          }
        }
      } else {
        assert Remove(s, x) == [] + r;
      }
    }
  }

  /** A prefix of a subsequence is still a subsequence. */
  lemma {:induction false} SubsequencePrefix<T>(a: seq<T>, b: seq<T>, n: nat)
    requires IsSubsequence(a, b)
    requires n <= |a|
    ensures IsSubsequence(a[..n], b)
    decreases |b|
  {
    if n > 0 {
      if a[0] == b[0] && IsSubsequence(a[1..], b[1..]) {
        SubsequencePrefix(a[1..], b[1..], n - 1);
        assert a[..n][1..] == a[1..][..n - 1];
      } else {
        SubsequencePrefix(a, b[1..], n);
      }
    }
  }

  /** The occurrence counts in `s` of the elements of `keys`, added up. */
  function SumCounts<T(==)>(keys: seq<T>, s: seq<T>): nat {
    if keys == [] then 0 else Count(s, keys[0]) + SumCounts(keys[1..], s)
  }

  /** Occurrence counts split over concatenation. */
  lemma {:induction false} CountAppend<T>(a: seq<T>, b: seq<T>, x: T)
    ensures Count(a + b, x) == Count(a, x) + Count(b, x)
  {
    if a != [] {
      CountAppend(a[1..], b, x);
      assert (a + b)[1..] == a[1..] + b;
    } else {
      assert a + b == b;
    }
  }

  /** Summing counts over distinct keys: appending one element adds one to the sum
      exactly when that element is one of the keys. */
  lemma {:induction false} SumCountsAppend<T>(keys: seq<T>, s: seq<T>, x: T)
    requires Distinct(keys)
    ensures SumCounts(keys, s + [x]) == SumCounts(keys, s) + (if x in keys then 1 else 0)
  {
    if keys != [] {
      assert Distinct(keys[1..]) by {
        forall i, j | 0 <= i < j < |keys[1..]| ensures keys[1..][i] != keys[1..][j] {
          assert keys[1..][i] == keys[i + 1] && keys[1..][j] == keys[j + 1];
        }
      }
      SumCountsAppend(keys[1..], s, x);
      CountAppend(s, [x], keys[0]);
      assert Count([x], keys[0]) == (if x == keys[0] then 1 else 0) + Count([], keys[0]);
      if x == keys[0] {
        assert x !in keys[1..] by {
          forall j | 0 <= j < |keys[1..]| ensures keys[1..][j] != x {
            assert keys[1..][j] == keys[j + 1];
          }
        }
      }
      assert x in keys <==> x == keys[0] || x in keys[1..] by {
        assert keys == [keys[0]] + keys[1..];
      }
    }
  }

  /** Appending a key absent from `s` adds a zero count to the sum. */
  lemma {:induction false} SumCountsExtend<T>(keys: seq<T>, k: T, s: seq<T>)
    requires k !in s
    ensures SumCounts(keys + [k], s) == SumCounts(keys, s)
  {
    if keys == [] {
      assert [k][1..] == [];
    } else {
      assert (keys + [k])[1..] == keys[1..] + [k];
      SumCountsExtend(keys[1..], k, s);
    }
  }

  /** Summing counts over the first-occurrence de-duplication counts every element
      exactly once. */
  lemma {:induction false} SumCountsDedup<T>(s: seq<T>)
    ensures SumCounts(Dedup(s), s) == |s|
  {
    if s != [] {
      var init, x := s[..|s| - 1], s[|s| - 1];
      assert s == init + [x];
      SumCountsDedup(init);
      var d := Dedup(init);
      SumCountsAppend(d, init, x);
      if x !in d {
        SumCountsExtend(d, x, init);
        SumCountsNewLast(d, init, x);
      }
    }
  }

  /** Helper for `SumCountsDedup`: a new last key contributes its one occurrence. */
  lemma {:induction false} SumCountsNewLast<T>(d: seq<T>, init: seq<T>, x: T)
    requires x !in init
    ensures SumCounts(d + [x], init + [x]) == SumCounts(d, init + [x]) + 1
  {
    if d == [] {
      assert [x][1..] == [];
      CountAppend(init, [x], x);
      assert Count([x], x) == 1 + Count([], x);
    } else {
      assert (d + [x])[1..] == d[1..] + [x];
      SumCountsNewLast(d[1..], init, x);
    }
  }
}
