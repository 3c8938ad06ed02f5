/**
 * The array operations the source relies on (`filter`, `findIndex`, and a
 * `reduce` that adds up one numeric field), as functions on sequences, with
 * the algebra the rest of the model uses.
 *
 * Predicates and projections are passed as function values.  Callers build
 * them with named functions (`OwnedBy(u)`, `Amount`) rather than with
 * lambdas written in place, so that the same predicate is the same term
 * wherever it occurs.
 */
module Seqs {

  /** `s.filter(p)`: the elements of `s` that satisfy `p`, in their order in `s`. */
  function Filter<T(!new)>(s: seq<T>, p: T -> bool): (r: seq<T>)
    ensures |r| <= |s|
    ensures forall x :: x in r <==> x in s && p(x)
  {
    if s == [] then []
    else
      assert s == [s[0]] + s[1..];
      (if p(s[0]) then [s[0]] else []) + Filter(s[1..], p)
  }

  /** `Filter` keeps every copy of what passes and no copy of what does not. */
  lemma {:induction false} FilterMultiset<T(!new)>(s: seq<T>, p: T -> bool)
    ensures forall x :: multiset(Filter(s, p))[x] == if p(x) then multiset(s)[x] else 0
  {
    if s != [] {
      FilterMultiset(s[1..], p);
      assert s == [s[0]] + s[1..];
    }
  }

  /** Filtering distributes over concatenation, so `Filter` keeps the relative order of what it keeps. */
  lemma {:induction false} FilterAppend<T(!new)>(a: seq<T>, b: seq<T>, p: T -> bool)
    ensures Filter(a + b, p) == Filter(a, p) + Filter(b, p)
  {
    if a == [] {
      assert a + b == b;
    } else {
      assert (a + b)[1..] == a[1..] + b;
      FilterAppend(a[1..], b, p);
    }
  }

  /** Appending one element extends the filtered sequence by it exactly when it passes. */
  lemma FilterAppendOne<T(!new)>(s: seq<T>, x: T, p: T -> bool)
    ensures Filter(s + [x], p) == Filter(s, p) + (if p(x) then [x] else [])
  {
    FilterAppend(s, [x], p);
  }

  /** Filtering a sequence whose every element passes gives the sequence back. */
  lemma {:induction false} FilterAll<T(!new)>(s: seq<T>, p: T -> bool)
    requires forall x :: x in s ==> p(x)
    ensures Filter(s, p) == s
  {
    if s != [] {
      FilterAll(s[1..], p);
    }
  }

  /** Two predicates that agree on every element of `s` select the same elements. */
  lemma {:induction false} FilterSame<T(!new)>(s: seq<T>, p: T -> bool, q: T -> bool)
    requires forall x :: x in s ==> p(x) == q(x)
    ensures Filter(s, p) == Filter(s, q)
  {
    if s != [] {
      FilterSame(s[1..], p, q);
    }
  }

  /** `s.reduce((sum, x) => sum + f(x), 0)`, with exact arithmetic. */
  function SumOf<T>(s: seq<T>, f: T -> real): real
  {
    if s == [] then 0.0 else f(s[0]) + SumOf(s[1..], f)
  }

  lemma {:induction false} SumAppend<T>(a: seq<T>, b: seq<T>, f: T -> real)
    ensures SumOf(a + b, f) == SumOf(a, f) + SumOf(b, f)
  {
    if a == [] {
      assert a + b == b;
    } else {
      assert (a + b)[1..] == a[1..] + b;
      SumAppend(a[1..], b, f);
    }
  }

  /** Replacing one element changes the sum by the difference of the two values. */
  lemma {:induction false} SumUpdate<T>(s: seq<T>, k: nat, x: T, f: T -> real)
    requires k < |s|
    ensures SumOf(s[k := x], f) == SumOf(s, f) - f(s[k]) + f(x)
  {
    if k > 0 {
      assert s[k := x][1..] == s[1..][k - 1 := x];
      SumUpdate(s[1..], k - 1, x, f);
    }
  }

  /** A sum of amounts none of which is negative is not negative. */
  lemma {:induction false} SumNonNegative<T>(s: seq<T>, f: T -> real)
    ensures (forall x :: x in s ==> f(x) >= 0.0) ==> SumOf(s, f) >= 0.0
  {
    if s != [] {
      SumNonNegative(s[1..], f);
      assert forall x :: x in s[1..] ==> x in s;
    }
  }

  /**
   * Two sequences of equal length whose elements contribute the same amount
   * position by position have the same sum (a sum over `map`ped rows equals
   * the sum over the rows they came from).
   */
  lemma {:induction false} SumPointwise<T, U>(a: seq<T>, f: T -> real, b: seq<U>, g: U -> real)
    requires |a| == |b|
    requires forall i :: 0 <= i < |a| ==> f(a[i]) == g(b[i])
    ensures SumOf(a, f) == SumOf(b, g)
  {
    if a != [] {
      SumPointwise(a[1..], f, b[1..], g);
    }
  }

  /** Likewise, pointwise-equal predicates keep the same number of elements. */
  lemma {:induction false} CountPointwise<T(!new), U(!new)>(a: seq<T>, p: T -> bool, b: seq<U>, q: U -> bool)
    requires |a| == |b|
    requires forall i :: 0 <= i < |a| ==> p(a[i]) == q(b[i])
    ensures |Filter(a, p)| == |Filter(b, q)|
  {
    if a != [] {
      CountPointwise(a[1..], p, b[1..], q);
    }
  }

  /**
   * Splitting a sum by two complementary predicates: every element is
   * counted by exactly one of them, so nothing is lost and nothing is
   * counted twice.
   */
  lemma {:induction false} SumSplit<T(!new)>(s: seq<T>, p: T -> bool, q: T -> bool, f: T -> real)
    requires forall x :: x in s ==> p(x) != q(x)
    ensures SumOf(s, f) == SumOf(Filter(s, p), f) + SumOf(Filter(s, q), f)
  {
    if s != [] {
      SumSplit(s[1..], p, q, f);
      if p(s[0]) {
        SumCons(s[0], Filter(s[1..], p), f);
        assert Filter(s, q) == Filter(s[1..], q);
      } else {
        SumCons(s[0], Filter(s[1..], q), f);
        assert Filter(s, p) == Filter(s[1..], p);
      }
    }
  }

  lemma SumCons<T>(x: T, s: seq<T>, f: T -> real)
    ensures SumOf([x] + s, f) == f(x) + SumOf(s, f)
  {
    assert ([x] + s)[1..] == s;
  }

  /** When nothing in `s` passes, the filtered sum is zero. */
  lemma SumNoneSelected<T(!new)>(s: seq<T>, p: T -> bool, f: T -> real)
    requires forall x :: x in s ==> !p(x)
    ensures Filter(s, p) == []
    ensures SumOf(Filter(s, p), f) == 0.0
  {
  }

  /**
   * `s.findIndex(p)`: the position of the first element satisfying `p`, or
   * -1 when there is none.
   */
  function FindIndex<T>(s: seq<T>, p: T -> bool): (r: int)
    ensures -1 <= r < |s|
    ensures r == -1 <==> forall i :: 0 <= i < |s| ==> !p(s[i])
    ensures 0 <= r ==> p(s[r]) && forall i :: 0 <= i < r ==> !p(s[i])
  {
    if s == [] then -1
    else if p(s[0]) then 0
    else
      var k := FindIndex(s[1..], p);
      if k == -1 then -1 else k + 1
  }

  /** Replacing the first match by another matching element leaves the search result where it was. */
  lemma FindIndexAfterReplace<T>(s: seq<T>, x: T, p: T -> bool)
    requires FindIndex(s, p) != -1 && p(x)
    ensures FindIndex(s[FindIndex(s, p) := x], p) == FindIndex(s, p)
  {
    var k := FindIndex(s, p);
    var r := FindIndex(s[k := x], p);
    assert s[k := x][k] == x;
    assert forall i :: 0 <= i < k ==> s[k := x][i] == s[i];
  }

  /** Searching a sequence extended by one element: an earlier match wins, otherwise the new element is tried. */
  lemma FindIndexAppendOne<T>(s: seq<T>, x: T, p: T -> bool)
    ensures FindIndex(s + [x], p) == if FindIndex(s, p) != -1 then FindIndex(s, p) else if p(x) then |s| else -1
  {
    var r := FindIndex(s + [x], p);
    var k := FindIndex(s, p);
    if k != -1 {
      assert (s + [x])[k] == s[k];
      assert forall i :: 0 <= i < k ==> (s + [x])[i] == s[i];
    } else {
      assert forall i :: 0 <= i < |s| ==> (s + [x])[i] == s[i];
      assert (s + [x])[|s|] == x;
    }
  }

  /** No value occurs twice. */
  predicate NoDuplicates<T(==)>(s: seq<T>)
  {
    forall i, j :: 0 <= i < j < |s| ==> s[i] != s[j]
  }

  /** `s.reverse()` on a fresh array. */
  function Reverse<T>(s: seq<T>): (r: seq<T>)
    ensures |r| == |s|
    ensures forall i :: 0 <= i < |s| ==> r[i] == s[|s| - 1 - i]
  {
    if s == [] then [] else Reverse(s[1..]) + [s[0]]
  }

  /** The prefix one element longer is the prefix followed by that element. */
  lemma PrefixGrows<T>(s: seq<T>, i: nat)
    requires i < |s|
    ensures s[..i + 1] == s[..i] + [s[i]]
  {
  }

  /** Two sequences of one length that agree at every position are equal. */
  lemma EqualPointwise<T>(a: seq<T>, b: seq<T>)
    requires |a| == |b|
    requires forall j :: 0 <= j < |a| ==> a[j] == b[j]
    ensures a == b
  {
  }

  /** A six-element sequence reversed, written out. */
  lemma ReverseOfSix<T>(s: seq<T>)
    requires |s| == 6
    ensures Reverse(s) == [s[5], s[4], s[3], s[2], s[1], s[0]]
  {
    var r := Reverse(s);
    assert r[0] == s[5] && r[1] == s[4] && r[2] == s[3];
    assert r[3] == s[2] && r[4] == s[1] && r[5] == s[0];
  }
}
