/** Generic sequence helpers: duplicate-free sequences, first-occurrence
    de-duplication (the behaviour of a JavaScript `Map`/`Set` or a Python
    seen-set fed in order) and sums that are invariant under permutation. */
module Seqs {

  ghost predicate NoDup<T>(s: seq<T>) {
    forall i, j :: 0 <= i < j < |s| ==> s[i] != s[j]
  }

  /** `set.add(x)` on an insertion-ordered set: appended only when absent. */
  function AddNew<T(==,!new)>(acc: seq<T>, x: T): (r: seq<T>)
    ensures forall y :: y in r <==> y in acc || y == x
    ensures NoDup(acc) ==> NoDup(r)
  {
    if x in acc then acc else acc + [x]
  }

  /** The index of the first element satisfying `p`, or `|s|` when none
      does. */
  function FirstWhere<T>(s: seq<T>, p: T -> bool): (r: nat)
    ensures r <= |s|
    ensures r < |s| ==> p(s[r])
    ensures forall i :: 0 <= i < r ==> !p(s[i])
  {
    if |s| == 0 then 0
    else if p(s[0]) then 0
    else 1 + FirstWhere(s[1..], p)
  }

  /** `s` without its element at `k`, as `splice(k, 1)` leaves it. */
  function RemoveAt<T>(s: seq<T>, k: nat): (r: seq<T>)
    requires k < |s|
    ensures |r| == |s| - 1
    ensures multiset(r) + multiset{s[k]} == multiset(s)
  {
    assert s == s[..k] + [s[k]] + s[k + 1..];
    s[..k] + s[k + 1..]
  }

  /** The index of the first occurrence of `x`, or `|s|` when it does not
      occur. */
  function FirstIndex<T(==)>(s: seq<T>, x: T): (k: nat)
    ensures k <= |s|
  {
    if |s| == 0 then 0
    else if s[0] == x then 0
    else 1 + FirstIndex(s[1..], x)
  }

  /** The first index holds `x`, and no earlier index does. */
  lemma {:induction false} FirstIndexHolds<T>(s: seq<T>, x: T)
    requires x in s
    ensures FirstIndex(s, x) < |s| && s[FirstIndex(s, x)] == x
    ensures forall j :: 0 <= j < FirstIndex(s, x) ==> s[j] != x
  {
    if s[0] != x {
      assert x in s[1..];
      FirstIndexHolds(s[1..], x);
    }
  }

  /** Appending does not move a first occurrence. */
  lemma {:induction false} FirstIndexAppend<T>(s: seq<T>, x: T, y: T)
    requires y in s
    ensures FirstIndex(s + [x], y) == FirstIndex(s, y)
  {
    var k := FirstIndex(s, y);
    var t := s + [x];
    FirstIndexHolds(s, y);
    assert t[k] == y;
    assert forall j :: 0 <= j < k ==> t[j] == s[j];
    FirstIndexIsFirst(t, y, k);
  }

  /** Any index holding `x` with no earlier `x` is the first index. */
  lemma {:induction false} FirstIndexIsFirst<T>(s: seq<T>, x: T, k: nat)
    requires k < |s| && s[k] == x && forall j :: 0 <= j < k ==> s[j] != x
    ensures FirstIndex(s, x) == k
  {
    if k > 0 {
      assert s[1..][k - 1] == x;
      FirstIndexIsFirst(s[1..], x, k - 1);
    }
  }

  /** Keeps the first occurrence of every element, in order. */
  function Distinct<T(==)>(s: seq<T>): (r: seq<T>)
    ensures NoDup(r)
    ensures forall i :: 0 <= i < |r| ==> r[i] in s
    ensures forall i :: 0 <= i < |s| ==> s[i] in r
    ensures |r| <= |s|
    ensures |s| > 0 ==> |r| > 0 && r[0] == s[0]
  {
    if |s| == 0 then []
    else
      var d := Distinct(s[..|s| - 1]);
      var x := s[|s| - 1];
      if x in d then d else d + [x]
  }

  /** The kept elements appear in the order of their first occurrences. */
  lemma {:induction false} DistinctOrder<T>(s: seq<T>)
    ensures InFirstOccurrenceOrder(s, Distinct(s))
  {
    if |s| > 0 {
      var p := s[..|s| - 1];
      var x := s[|s| - 1];
      var d := Distinct(p);
      DistinctOrder(p);
      assert s == p + [x];
      forall i | 0 <= i < |d| ensures FirstIndex(s, d[i]) == FirstIndex(p, d[i]) {
        FirstIndexAppend(p, x, d[i]);
      }
      if x !in d {
        assert x !in p;
        FirstIndexIsFirst(s, x, |p|);
        var r := d + [x];
        assert Distinct(s) == r;
        forall i, j | 0 <= i < j < |r| ensures FirstIndex(s, r[i]) < FirstIndex(s, r[j]) {
          if j < |d| {
            assert r[i] == d[i] && r[j] == d[j];
          } else {
            assert r[i] == d[i] && r[j] == x;
            assert d[i] in p;
            FirstIndexHolds(p, d[i]);
          }
        }
      }
    }
  }

  /** Every element comes after the first occurrences, in `s`, of the
      elements before it. */
  ghost predicate InFirstOccurrenceOrder<T>(s: seq<T>, r: seq<T>) {
    forall i, j :: 0 <= i < j < |r| ==> FirstIndex(s, r[i]) < FirstIndex(s, r[j])
  }

  /** The order clause pins the de-duplication down: a sequence with the
      same elements as `s`, in the order of their first occurrences, is
      `Distinct(s)`. */
  lemma DistinctUnique<T>(s: seq<T>, r: seq<T>)
    requires forall x :: x in r <==> x in s
    requires InFirstOccurrenceOrder(s, r)
    ensures r == Distinct(s)
  {
    DistinctOrder(s);
    OrderedUnique(s, r, Distinct(s));
  }

  lemma {:induction false} OrderedUnique<T>(s: seq<T>, a: seq<T>, b: seq<T>)
    requires forall x :: x in a <==> x in b
    requires forall x :: x in a ==> x in s
    requires InFirstOccurrenceOrder(s, a) && InFirstOccurrenceOrder(s, b)
    ensures a == b
    decreases |a|
  {
    SameMembersEmpty(a, b);
    if |a| > 0 {
      OrderedHead(s, a, b);
      OrderedTail(s, a);
      OrderedTail(s, b);
      forall x ensures x in a[1..] <==> x in b[1..] {
        assert x in a[1..] <==> x in a && x != a[0];
        assert x in b[1..] <==> x in b && x != b[0];
      }
      OrderedUnique(s, a[1..], b[1..]);
      assert a == [a[0]] + a[1..] && b == [b[0]] + b[1..];
    }
  }

  lemma SameMembersEmpty<T>(a: seq<T>, b: seq<T>)
    requires forall x :: x in a <==> x in b
    ensures |a| == 0 <==> |b| == 0
  {
    if |a| > 0 {
      assert a[0] in b;
    }
    if |b| > 0 {
      assert b[0] in a;
    }
  }

  /** Two sequences with the same elements, both in first-occurrence order,
      start with the same element. */
  lemma OrderedHead<T>(s: seq<T>, a: seq<T>, b: seq<T>)
    requires |a| > 0 && |b| > 0
    requires forall x :: x in a <==> x in b
    requires forall x :: x in a ==> x in s
    requires InFirstOccurrenceOrder(s, a) && InFirstOccurrenceOrder(s, b)
    ensures a[0] == b[0]
  {
    assert b[0] in a;
    var i :| 0 <= i < |a| && a[i] == b[0];
    assert a[0] in b;
    var j :| 0 <= j < |b| && b[j] == a[0];
    assert FirstIndex(s, a[0]) <= FirstIndex(s, a[i]);
    assert FirstIndex(s, b[0]) <= FirstIndex(s, b[j]);
    FirstIndexHolds(s, a[0]);
    FirstIndexHolds(s, b[0]);
  }

  /** The tail of a sequence in first-occurrence order does not hold its
      head again, and is in first-occurrence order itself. */
  lemma OrderedTail<T>(s: seq<T>, a: seq<T>)
    requires |a| > 0 && InFirstOccurrenceOrder(s, a)
    ensures a[0] !in a[1..]
    ensures InFirstOccurrenceOrder(s, a[1..])
    ensures forall x :: x in a[1..] <==> x in a && x != a[0]
  {
    forall x | x in a[1..] ensures x != a[0] {
      var i :| 0 <= i < |a[1..]| && a[1..][i] == x;
      assert a[i + 1] == x;
    }
    assert forall i, j :: 0 <= i < j < |a[1..]| ==> a[1..][i] == a[i + 1] && a[1..][j] == a[j + 1];
  }

  /** An already duplicate-free sequence is its own de-duplication. */
  lemma {:induction false} DistinctOfNoDup<T>(s: seq<T>)
    requires NoDup(s)
    ensures Distinct(s) == s
  {
    if |s| > 0 {
      var p := s[..|s| - 1];
      assert NoDup(p);
      DistinctOfNoDup(p);
      assert s[|s| - 1] !in p;
      assert p + [s[|s| - 1]] == s;
    }
  }

  function Sum<T>(s: seq<T>, f: T -> int): int {
    if |s| == 0 then 0 else Sum(s[..|s| - 1], f) + f(s[|s| - 1])
  }

  lemma {:induction false} SumConcat<T>(a: seq<T>, b: seq<T>, f: T -> int)
    ensures Sum(a + b, f) == Sum(a, f) + Sum(b, f)
  {
    if |b| == 0 {
      assert a + b == a;
    } else {
      assert (a + b)[..|a + b| - 1] == a + b[..|b| - 1];
      SumConcat(a, b[..|b| - 1], f);
    }
  }

  lemma SumSingleton<T>(x: T, f: T -> int)
    ensures Sum([x], f) == f(x)
  {
    assert [x][..0] == [];
  }

  /** A sum over a sequence depends only on its multiset of elements. */
  lemma {:induction false} SumPermutation<T>(a: seq<T>, b: seq<T>, f: T -> int)
    requires multiset(a) == multiset(b)
    ensures Sum(a, f) == Sum(b, f)
  {
    if |a| == 0 {
      assert |b| == |multiset(b)| == 0;
    } else {
      var x := a[0];
      assert x in multiset(b);
      var i :| 0 <= i < |b| && b[i] == x;
      var rest := b[..i] + b[i + 1..];
      DropMatching(a, b, i);
      SumPermutation(a[1..], rest, f);
      SumConcat([x], a[1..], f);
      SumSingleton(x, f);
      assert a == [x] + a[1..];
      assert b == b[..i] + [x] + b[i + 1..];
      SumMiddle(b[..i], x, b[i + 1..], f);
    }
  }

  /** Taking the same element out of two permutations of each other leaves
      permutations of each other. */
  lemma DropMatching<T>(a: seq<T>, b: seq<T>, i: nat)
    requires multiset(a) == multiset(b) && |a| > 0 && i < |b| && b[i] == a[0]
    ensures multiset(a[1..]) == multiset(b[..i] + b[i + 1..])
  {
    var x := a[0];
    assert a == [x] + a[1..];
    assert b == b[..i] + [x] + b[i + 1..];
    calc {
      multiset(a[1..]);
      multiset(a) - multiset{x};
      multiset(b) - multiset{x};
      multiset(b[..i]) + multiset(b[i + 1..]);
      multiset(b[..i] + b[i + 1..]);
    }
  }

  /** The sum is one term plus the sum of the others. */
  lemma SumMiddle<T>(l: seq<T>, x: T, r: seq<T>, f: T -> int)
    ensures Sum(l + [x] + r, f) == f(x) + Sum(l + r, f)
  {
    SumConcat(l + [x], r, f);
    SumConcat(l, [x], f);
    SumSingleton(x, f);
    SumConcat(l, r, f);
  }

  /** Summing a function that is 0 or positive everywhere: a zero total means
      every term is zero. */
  lemma {:induction false} SumZeroTerms<T>(s: seq<T>, f: T -> int)
    requires forall i :: 0 <= i < |s| ==> f(s[i]) >= 0
    ensures Sum(s, f) >= 0
    ensures Sum(s, f) == 0 ==> forall i :: 0 <= i < |s| ==> f(s[i]) == 0
  {
    if |s| > 0 {
      SumZeroTerms(s[..|s| - 1], f);
    }
  }

  /** Replacing one element changes the sum by the difference of the terms. */
  lemma {:induction false} SumUpdate<T>(s: seq<T>, k: nat, y: T, f: T -> int)
    requires k < |s|
    ensures Sum(s[k := y], f) == Sum(s, f) - f(s[k]) + f(y)
  {
    if k < |s| - 1 {
      assert s[k := y][..|s| - 1] == s[..|s| - 1][k := y];
      SumUpdate(s[..|s| - 1], k, y, f);
    } else {
      assert s[k := y][..|s| - 1] == s[..|s| - 1];
    }
  }

  lemma {:induction false} SumConstant<T>(s: seq<T>, f: T -> int, c: int)
    requires forall i :: 0 <= i < |s| ==> f(s[i]) == c
    ensures Sum(s, f) == c * |s|
  {
    if |s| > 0 {
      SumConstant(s[..|s| - 1], f, c);
    }
  }

  /** A duplicate-free sequence holds every value at most once. */
  lemma {:induction false} NoDupCount<T>(s: seq<T>, x: T)
    requires NoDup(s)
    ensures multiset(s)[x] <= 1
  {
    if |s| > 0 {
      var p := s[..|s| - 1];
      assert s == p + [s[|s| - 1]];
      NoDupCount(p, x);
      if x == s[|s| - 1] {
        assert x !in p;
      }
    }
  }

  lemma RepeatedCount<T>(s: seq<T>, i: nat, j: nat)
    requires i < j < |s| && s[i] == s[j]
    ensures multiset(s)[s[i]] >= 2
  {
    assert s == s[..j] + [s[j]] + s[j + 1..];
    assert s[i] in s[..j];
  }

  /** Reordering keeps a key that was unique per element unique. */
  lemma PermutationKeepsDistinctKeys<T, K>(a: seq<T>, b: seq<T>, f: T -> K)
    requires multiset(a) == multiset(b)
    requires forall i, j :: 0 <= i < j < |a| ==> f(a[i]) != f(a[j])
    ensures forall i, j :: 0 <= i < j < |b| ==> f(b[i]) != f(b[j])
  {
    assert NoDup(a);
    forall i, j | 0 <= i < j < |b|
      ensures f(b[i]) != f(b[j])
    {
      assert b[i] in multiset(a) && b[j] in multiset(a);
      var p :| 0 <= p < |a| && a[p] == b[i];
      var q :| 0 <= q < |a| && a[q] == b[j];
      if p == q {
        RepeatedCount(b, i, j);
        NoDupCount(a, b[i]);
      }
    }
  }

  /** Every element of a permutation is an element of the original. */
  lemma PermutationMember<T>(a: seq<T>, b: seq<T>, i: nat)
    requires multiset(a) == multiset(b) && i < |b|
    ensures exists k :: 0 <= k < |a| && a[k] == b[i]
  {
    assert b[i] in multiset(a);
  }

  /** A property of every element survives reordering. */
  lemma PermutationAll<T>(a: seq<T>, b: seq<T>, p: T -> bool)
    requires multiset(a) == multiset(b)
    requires forall i :: 0 <= i < |a| ==> p(a[i])
    ensures forall i :: 0 <= i < |b| ==> p(b[i])
  {
    forall i | 0 <= i < |b|
      ensures p(b[i])
    {
      PermutationMember(a, b, i);
    }
  }

  /** An element of the original keeps a position in the permutation. */
  lemma PermutationHas<T>(a: seq<T>, b: seq<T>, k: nat)
    requires multiset(a) == multiset(b) && k < |a|
    ensures exists i :: 0 <= i < |b| && b[i] == a[k]
  {
    assert a[k] in multiset(b);
  }

  /** Number of occurrences of `x` in `s`. */
  function Count<T(==)>(s: seq<T>, x: T): (n: nat)
  {
    if |s| == 0 then 0 else Count(s[..|s| - 1], x) + (if s[|s| - 1] == x then 1 else 0)
  }

  lemma {:induction false} CountMember<T>(s: seq<T>, x: T)
    ensures Count(s, x) > 0 <==> x in s
  {
    if |s| > 0 {
      CountMember(s[..|s| - 1], x);
      assert s == s[..|s| - 1] + [s[|s| - 1]];
    }
  }

  lemma {:induction false} CountIsMultiplicity<T>(s: seq<T>, x: T)
    ensures Count(s, x) == multiset(s)[x]
  {
    if |s| > 0 {
      CountIsMultiplicity(s[..|s| - 1], x);
      assert s == s[..|s| - 1] + [s[|s| - 1]];
    }
  }
}
