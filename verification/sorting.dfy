/** Sorting by a three-part key (major ascending, minor ascending, id by
    `Strings.Less`). Both `Array.prototype.sort` calls of the optimizer use a
    comparator of this shape; JavaScript's sort is stable and the comparators
    never tie on distinct ids, so any correct sort gives the same result as the
    insertion sort below (see `SortedPermutationUnique`). */
module Sorting {
  import opened Strings

  datatype SortKey = SortKey(major: int, minor: int, id: string)

  predicate KeyLess(a: SortKey, b: SortKey) {
    a.major < b.major
    || (a.major == b.major && a.minor < b.minor)
    || (a.major == b.major && a.minor == b.minor && Less(a.id, b.id))
  }

  lemma KeyLessIrreflexive(a: SortKey)
    ensures !KeyLess(a, a)
  {
    LessIrreflexive(a.id);
  }

  lemma KeyLessTransitive(a: SortKey, b: SortKey, c: SortKey)
    requires KeyLess(a, b) && KeyLess(b, c)
    ensures KeyLess(a, c)
  {
    if a.major == b.major == c.major && a.minor == b.minor == c.minor {
      LessTransitive(a.id, b.id, c.id);
    }
  }

  lemma KeyLessTotal(a: SortKey, b: SortKey)
    ensures a == b || KeyLess(a, b) || KeyLess(b, a)
  {
    LessTotal(a.id, b.id);
  }

  lemma KeyLessAsymmetric(a: SortKey, b: SortKey)
    requires KeyLess(a, b)
    ensures !KeyLess(b, a)
  {
    if a.major == b.major && a.minor == b.minor {
      LessAsymmetric(a.id, b.id);
    }
  }

  /** "not after": the reflexive companion of `KeyLess` is transitive. */
  lemma KeyLeqTransitive(a: SortKey, b: SortKey, c: SortKey)
    requires !KeyLess(b, a) && !KeyLess(c, b)
    ensures !KeyLess(c, a)
  {
    KeyLessTotal(a, b);
    KeyLessTotal(b, c);
    if a != b && b != c {
      KeyLessTransitive(a, b, c);
      KeyLessAsymmetric(a, c);
    }
  }

  /** Non-decreasing by key. */
  ghost predicate SortedBy<T>(s: seq<T>, key: T -> SortKey) {
    forall i, j :: 0 <= i < j < |s| ==> !KeyLess(key(s[j]), key(s[i]))
  }

  /** Putting an element in front of a sorted sequence keeps it sorted
      when no element comes before it. */
  lemma ConsSorted<T>(h: T, tail: seq<T>, key: T -> SortKey)
    requires SortedBy(tail, key)
    requires forall j :: 0 <= j < |tail| ==> !KeyLess(key(tail[j]), key(h))
    ensures SortedBy([h] + tail, key)
  {
    var r := [h] + tail;
    forall i, j | 0 <= i < j < |r|
      ensures !KeyLess(key(r[j]), key(r[i]))
    {
      if i > 0 {
        assert r[i] == tail[i - 1] && r[j] == tail[j - 1];
      } else {
        assert r[j] == tail[j - 1];
      }
    }
  }

  /** An element not after the head of a sorted sequence is not after any
      of its elements. */
  lemma BeforeHead<T>(x: T, s: seq<T>, key: T -> SortKey)
    requires SortedBy(s, key) && |s| > 0 && !KeyLess(key(s[0]), key(x))
    ensures forall j :: 0 <= j < |s| ==> !KeyLess(key(s[j]), key(x))
  {
    forall j | 0 <= j < |s|
      ensures !KeyLess(key(s[j]), key(x))
    {
      if j > 0 {
        KeyLeqTransitive(key(x), key(s[0]), key(s[j]));
      }
    }
  }

  /** Every element of `tail`, a permutation of `x` and the rest of a sorted
      sequence whose head comes before `x`, is not before that head. */
  lemma AfterHead<T>(x: T, s: seq<T>, tail: seq<T>, key: T -> SortKey)
    requires SortedBy(s, key) && |s| > 0 && KeyLess(key(s[0]), key(x))
    requires multiset(tail) == multiset(s[1..]) + multiset{x}
    ensures forall j :: 0 <= j < |tail| ==> !KeyLess(key(tail[j]), key(s[0]))
  {
    forall j | 0 <= j < |tail|
      ensures !KeyLess(key(tail[j]), key(s[0]))
    {
      assert tail[j] in multiset(tail);
      if tail[j] == x {
        KeyLessAsymmetric(key(s[0]), key(x));
      } else {
        assert tail[j] in multiset(s[1..]);
        var k :| 0 <= k < |s[1..]| && s[1..][k] == tail[j];
        assert s[k + 1] == tail[j];
      }
    }
  }

  function Insert<T(==)>(x: T, s: seq<T>, key: T -> SortKey): (r: seq<T>)
    requires SortedBy(s, key)
    ensures SortedBy(r, key)
    ensures multiset(r) == multiset(s) + multiset{x}
    ensures |r| == |s| + 1
  {
    if |s| == 0 then [x]
    else if !KeyLess(key(s[0]), key(x)) then
      BeforeHead(x, s, key);
      ConsSorted(x, s, key);
      [x] + s
    else
      assert SortedBy(s[1..], key);
      var tail := Insert(x, s[1..], key);
      AfterHead(x, s, tail, key);
      ConsSorted(s[0], tail, key);
      assert s == [s[0]] + s[1..];
      [s[0]] + tail
  }

  function SortByKey<T(==)>(s: seq<T>, key: T -> SortKey): (r: seq<T>)
    ensures SortedBy(r, key)
    ensures multiset(r) == multiset(s)
    ensures |r| == |s|
  {
    if |s| == 0 then []
    else
      var r := Insert(s[|s| - 1], SortByKey(s[..|s| - 1], key), key);
      assert s == s[..|s| - 1] + [s[|s| - 1]];
      r
  }

  /** With pairwise distinct keys, a sorted sequence is strictly increasing. */
  lemma SortedDistinctIsStrict<T>(s: seq<T>, key: T -> SortKey)
    requires SortedBy(s, key)
    requires forall i, j :: 0 <= i < j < |s| ==> key(s[i]) != key(s[j])
    ensures forall i, j :: 0 <= i < j < |s| ==> KeyLess(key(s[i]), key(s[j]))
  {
    forall i, j | 0 <= i < j < |s|
      ensures KeyLess(key(s[i]), key(s[j]))
    {
      KeyLessTotal(key(s[i]), key(s[j]));
    }
  }

  /** The first element of two sorted permutations with distinct keys agrees. */
  lemma SortedPermutationHead<T>(a: seq<T>, b: seq<T>, key: T -> SortKey)
    requires |a| > 0 && multiset(a) == multiset(b)
    requires SortedBy(a, key) && SortedBy(b, key)
    requires forall i, j :: 0 <= i < j < |a| ==> key(a[i]) != key(a[j])
    ensures |b| > 0 && a[0] == b[0]
  {
    assert a[0] in multiset(b);
    var j :| 0 <= j < |b| && b[j] == a[0];
    if a[0] != b[0] {
      assert b[0] in multiset(a);
      var i :| 0 <= i < |a| && a[i] == b[0];
      assert !KeyLess(key(a[i]), key(a[0]));
      assert !KeyLess(key(b[j]), key(b[0]));
      KeyLessTotal(key(a[0]), key(a[i]));
    }
  }

  /** Dropping the common head leaves two sorted arrangements of the same
      elements, still with distinct keys. */
  lemma SortedPermutationTails<T>(a: seq<T>, b: seq<T>, key: T -> SortKey)
    requires |a| > 0 && |b| > 0 && a[0] == b[0] && multiset(a) == multiset(b)
    requires SortedBy(a, key) && SortedBy(b, key)
    requires forall i, j :: 0 <= i < j < |a| ==> key(a[i]) != key(a[j])
    ensures multiset(a[1..]) == multiset(b[1..])
    ensures SortedBy(a[1..], key) && SortedBy(b[1..], key)
    ensures forall i, j :: 0 <= i < j < |a[1..]| ==> key(a[1..][i]) != key(a[1..][j])
  {
    DropHeadSorted(a, key);
    DropHeadSorted(b, key);
    DropHeadMultiset(a);
    DropHeadMultiset(b);
  }

  lemma DropHeadSorted<T>(a: seq<T>, key: T -> SortKey)
    requires |a| > 0 && SortedBy(a, key)
    ensures SortedBy(a[1..], key)
  {
    forall i, j | 0 <= i < j < |a[1..]|
      ensures !KeyLess(key(a[1..][j]), key(a[1..][i]))
    {
      assert a[1..][j] == a[j + 1] && a[1..][i] == a[i + 1];
    }
  }

  lemma DropHeadMultiset<T>(a: seq<T>)
    requires |a| > 0
    ensures multiset(a[1..]) == multiset(a) - multiset{a[0]}
  {
    assert a == [a[0]] + a[1..];
  }

  /** Two sorted arrangements of the same elements with distinct keys are
      identical: the sorted order is determined, whatever algorithm the
      host's `sort` uses. */
  lemma {:induction false} SortedPermutationUnique<T>(a: seq<T>, b: seq<T>, key: T -> SortKey)
    requires multiset(a) == multiset(b)
    requires SortedBy(a, key) && SortedBy(b, key)
    requires forall i, j :: 0 <= i < j < |a| ==> key(a[i]) != key(a[j])
    ensures a == b
  {
    if |a| == 0 {
      assert |b| == |multiset(b)| == 0;
    } else {
      SortedPermutationHead(a, b, key);
      SortedPermutationTails(a, b, key);
      SortedPermutationUnique(a[1..], b[1..], key);
      assert a == [a[0]] + a[1..] && b == [b[0]] + b[1..];
    }
  }
}
