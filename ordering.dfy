/** The three list operations a query set composes: keeping the rows that
    satisfy a condition (`filter`), ordering them (`order_by`) and dropping
    repeated rows (`distinct`). */
module Ordering {

  /** `before(a, b)` says that `a` may be listed ahead of `b`; a usable
      ordering key makes that relation total and transitive. */
  ghost predicate TotalPreorder<T(!new)>(before: (T, T) -> bool) {
    && (forall a, b :: before(a, b) || before(b, a))
    && (forall a, b, c :: before(a, b) && before(b, c) ==> before(a, c))
  }

  predicate SortedBy<T>(s: seq<T>, before: (T, T) -> bool) {
    forall i, j :: 0 <= i < j < |s| ==> before(s[i], s[j])
  }

  predicate NoDuplicates<T(==)>(s: seq<T>) {
    forall i, j :: 0 <= i < j < |s| ==> s[i] != s[j]
  }

  /** The rows of `s` that `keep` accepts, in their original order. */
  function Filter<T(!new)>(s: seq<T>, keep: T -> bool): (r: seq<T>)
    ensures |r| <= |s|
    ensures forall x :: x in r <==> x in s && keep(x)
  {
    if s == [] then []
    else if keep(s[0]) then [s[0]] + Filter(s[1..], keep)
    else Filter(s[1..], keep)
  }

  /** Filtering never introduces a repetition. */
  lemma {:induction false} FilterNoDuplicates<T(!new)>(s: seq<T>, keep: T -> bool)
    requires NoDuplicates(s)
    ensures NoDuplicates(Filter(s, keep))
  {
    if s != [] {
      FilterNoDuplicates(s[1..], keep);
      assert s[0] !in s[1..];
    }
  }

  /** Places `x` ahead of the first element it may precede. */
  function Insert<T>(x: T, s: seq<T>, before: (T, T) -> bool): (r: seq<T>)
    ensures multiset(r) == multiset(s) + multiset{x}
  {
    if s == [] || before(x, s[0]) then [x] + s
    else
      assert s == [s[0]] + s[1..];
      [s[0]] + Insert(x, s[1..], before)
  }

  /** Orders `s` by `before` (an insertion sort); the result is a
      rearrangement of `s`. */
  function SortBy<T>(s: seq<T>, before: (T, T) -> bool): (r: seq<T>)
    ensures multiset(r) == multiset(s)
  {
    if s == [] then []
    else
      assert s == [s[0]] + s[1..];
      Insert(s[0], SortBy(s[1..], before), before)
  }

  lemma {:induction false} InsertSorted<T(!new)>(x: T, s: seq<T>, before: (T, T) -> bool)
    requires TotalPreorder(before)
    requires SortedBy(s, before)
    ensures SortedBy(Insert(x, s, before), before)
    decreases |s|
  {
    if s != [] && !before(x, s[0]) {
      var rest := Insert(x, s[1..], before);
      assert SortedBy(rest, before) by {
        InsertSorted(x, s[1..], before);
      }
      assert forall y :: y in rest ==> before(s[0], y) by {
        assert before(s[0], x);
        InsertBounded(s[0], x, s[1..], before);
      }
      PrependSorted(s[0], rest, before);
    } else {
      PrependSorted(x, s, before);
    }
  }

  /** Every element of `Insert(x, s)` is one of `s` or `x` itself. */
  lemma InsertBounded<T>(low: T, x: T, s: seq<T>, before: (T, T) -> bool)
    requires before(low, x)
    requires SortedBy([low] + s, before)
    ensures forall y :: y in Insert(x, s, before) ==> before(low, y)
  {
    var r := Insert(x, s, before);
    forall y | y in r
      ensures before(low, y)
    {
      assert y in multiset(r);
      if y != x {
        assert y in multiset(s);
        var j :| 0 <= j < |s| && s[j] == y;
        var t := [low] + s;
        assert t[0] == low && t[j + 1] == y;
        assert before(t[0], t[j + 1]);
      }
    }
  }

  /** A sorted sequence stays sorted behind an element that may precede all of it. */
  lemma PrependSorted<T(!new)>(h: T, s: seq<T>, before: (T, T) -> bool)
    requires TotalPreorder(before)
    requires SortedBy(s, before)
    requires s == [] || before(h, s[0])
    ensures SortedBy([h] + s, before)
  {
    var r := [h] + s;
    forall i, j | 0 <= i < j < |r|
      ensures before(r[i], r[j])
    {
      if i == 0 {
        assert r[j] == s[j - 1];
        if j > 1 {
          assert before(s[0], s[j - 1]);
        }
      } else {
        assert r[i] == s[i - 1] && r[j] == s[j - 1];
      }
    }
  }

  /** The result of `SortBy` is ordered, whatever order `s` was in. */
  lemma {:induction false} SortBySorted<T(!new)>(s: seq<T>, before: (T, T) -> bool)
    requires TotalPreorder(before)
    ensures SortedBy(SortBy(s, before), before)
  {
    if s != [] {
      SortBySorted(s[1..], before);
      InsertSorted(s[0], SortBy(s[1..], before), before);
    }
  }

  /** Sorting keeps a repetition-free sequence repetition-free. */
  lemma {:induction false} SortByNoDuplicates<T>(s: seq<T>, before: (T, T) -> bool)
    requires NoDuplicates(s)
    ensures NoDuplicates(SortBy(s, before))
  {
    if s != [] {
      SortByNoDuplicates(s[1..], before);
      assert s[0] !in s[1..];
      var sorted := SortBy(s[1..], before);
      assert s[0] !in multiset(sorted);
      InsertNoDuplicates(s[0], sorted, before);
    }
  }

  lemma {:induction false} InsertNoDuplicates<T>(x: T, s: seq<T>, before: (T, T) -> bool)
    requires NoDuplicates(s) && x !in s
    ensures NoDuplicates(Insert(x, s, before))
    decreases |s|
  {
    if s != [] && !before(x, s[0]) {
      InsertNoDuplicates(x, s[1..], before);
      var rest := Insert(x, s[1..], before);
      assert s[0] !in s[1..];
      assert s[0] !in multiset(rest);
      var r := [s[0]] + rest;
      forall i, j | 0 <= i < j < |r|
        ensures r[i] != r[j]
      {
        if i == 0 {
          assert r[j] == rest[j - 1];
        } else {
          assert r[i] == rest[i - 1] && r[j] == rest[j - 1];
        }
      }
    }
  }

  /** Keeps the first occurrence of every element, in order (SQL `DISTINCT`
      applied to an ordered row list). */
  function Dedup<T(==,!new)>(s: seq<T>): (r: seq<T>)
    ensures forall x :: x in r <==> x in s
    ensures NoDuplicates(r)
  {
    if s == [] then []
    else
      var d := Dedup(s[..|s| - 1]);
      var last := s[|s| - 1];
      assert s == s[..|s| - 1] + [last];
      if last in d then d else d + [last]
  }

  /** Dropping repetitions keeps an ordered sequence ordered. */
  lemma {:induction false} DedupSorted<T(!new)>(s: seq<T>, before: (T, T) -> bool)
    requires SortedBy(s, before)
    ensures SortedBy(Dedup(s), before)
  {
    if s != [] {
      var init := s[..|s| - 1];
      var last := s[|s| - 1];
      assert SortedBy(init, before);
      DedupSorted(init, before);
      var d := Dedup(init);
      if last !in d {
        var r := d + [last];
        forall i, j | 0 <= i < j < |r|
          ensures before(r[i], r[j])
        {
          if j == |d| {
            assert r[i] in init;
            var k :| 0 <= k < |init| && init[k] == r[i];
            assert before(s[k], s[|s| - 1]);
          } else {
            assert r[i] == d[i] && r[j] == d[j];
          }
        }
      }
    }
  }

  /** On a sequence without repetitions `Dedup` changes nothing. */
  lemma {:induction false} DedupIdentity<T(!new)>(s: seq<T>)
    requires NoDuplicates(s)
    ensures Dedup(s) == s
  {
    if s != [] {
      var init := s[..|s| - 1];
      assert NoDuplicates(init);
      DedupIdentity(init);
      assert s[|s| - 1] !in init;
      assert s == init + [s[|s| - 1]];
    }
  }
}
