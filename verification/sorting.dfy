/** `Array.prototype.sort` with a comparator, as the views use it on a copy of a list. The
    comparator is modelled by the relation "a may come before b" (`compare(a, b) <= 0`). Since
    ES2019 the sort is stable, which the insertion sort here is as well: equivalent elements
    keep their input order. */
module Sorting {
  /** `le` is total and transitive, as every comparator of the views is. */
  ghost predicate TotalPreorder<T(!new)>(le: (T, T) -> bool) {
    (forall a, b :: le(a, b) || le(b, a)) &&
    (forall a, b, c :: le(a, b) && le(b, c) ==> le(a, c))
  }

  /** Every element may come before every later one. */
  predicate Sorted<T>(s: seq<T>, le: (T, T) -> bool) {
    forall i, j :: 0 <= i < j < |s| ==> le(s[i], s[j])
  }

  /** Inserts `x` into a list after the leading elements that may come before it. */
  function Insert<T>(x: T, s: seq<T>, le: (T, T) -> bool): (r: seq<T>)
    ensures multiset(r) == multiset(s) + multiset{x}
  {
    if |s| == 0 then [x]
    else if !le(s[0], x) then [x] + s
    else
      assert s == [s[0]] + s[1..];
      [s[0]] + Insert(x, s[1..], le)
  }

  /** Inserting into a sorted list keeps it sorted. */
  lemma {:induction false} InsertSorted<T(!new)>(x: T, s: seq<T>, le: (T, T) -> bool)
    requires TotalPreorder(le) && Sorted(s, le)
    ensures Sorted(Insert(x, s, le), le)
  {
    if |s| > 0 {
      var r := Insert(x, s, le);
      if !le(s[0], x) {
        forall j | 1 <= j < |r| ensures le(x, r[j]) {
          assert r[j] == s[j - 1];
          if j > 1 {
            assert le(s[0], s[j - 1]);
          }
        }
      } else {
        var rest := Insert(x, s[1..], le);
        InsertSorted(x, s[1..], le);
        assert s == [s[0]] + s[1..];
        forall j | 0 <= j < |rest| ensures le(s[0], rest[j]) {
          assert rest[j] in multiset(rest);
          if rest[j] != x {
            assert rest[j] in s[1..];
            var k :| 0 <= k < |s[1..]| && s[1..][k] == rest[j];
            assert s[k + 1] == rest[j];
          }
        }
        assert r == [s[0]] + rest;
      }
    }
  }

  /** The sorted copy of a list. */
  function Sort<T(!new)>(s: seq<T>, le: (T, T) -> bool): (r: seq<T>)
    requires TotalPreorder(le)
    ensures multiset(r) == multiset(s)
    ensures |r| == |s|
    ensures Sorted(r, le)
  {
    if |s| == 0 then []
    else
      var rest := Sort(s[..|s| - 1], le);
      SortStep(s, rest, le);
      Insert(s[|s| - 1], rest, le)
  }

  /** One step of `Sort`: inserting the last element into the sorted copy of the others. */
  lemma SortStep<T(!new)>(s: seq<T>, rest: seq<T>, le: (T, T) -> bool)
    requires |s| > 0 && TotalPreorder(le)
    requires multiset(rest) == multiset(s[..|s| - 1]) && Sorted(rest, le)
    ensures var r := Insert(s[|s| - 1], rest, le);
      multiset(r) == multiset(s) && |r| == |s| && Sorted(r, le)
  {
    var r := Insert(s[|s| - 1], rest, le);
    InsertSorted(s[|s| - 1], rest, le);
    LastSplit(s);
    assert multiset(s) == multiset(s[..|s| - 1]) + multiset{s[|s| - 1]};
    assert |r| == |multiset(r)| == |multiset(s)| == |s|;
  }

  /** An element that may come after everything goes to the end. */
  lemma {:induction false} InsertLast<T>(x: T, s: seq<T>, le: (T, T) -> bool)
    requires forall i :: 0 <= i < |s| ==> le(s[i], x)
    ensures Insert(x, s, le) == s + [x]
  {
    if |s| > 0 {
      InsertLast(x, s[1..], le);
      assert s == [s[0]] + s[1..];
    }
  }

  /** Sorting an already sorted list changes nothing. */
  lemma {:induction false} SortSorted<T(!new)>(s: seq<T>, le: (T, T) -> bool)
    requires TotalPreorder(le) && Sorted(s, le)
    ensures Sort(s, le) == s
  {
    if |s| > 0 {
      var init, x := s[..|s| - 1], s[|s| - 1];
      SortedSplit(s, le);
      SortSorted(init, le);
      InsertLast(x, init, le);
      SortSortedStep(s, le);
    }
  }

  /** The inductive step of `SortSorted`: a list whose front `Sort` keeps, and whose last
      element `Insert` appends, is kept by `Sort`. */
  lemma SortSortedStep<T(!new)>(s: seq<T>, le: (T, T) -> bool)
    requires |s| > 0 && TotalPreorder(le)
    requires Sort(s[..|s| - 1], le) == s[..|s| - 1]
    requires Insert(s[|s| - 1], s[..|s| - 1], le) == s[..|s| - 1] + [s[|s| - 1]]
    ensures Sort(s, le) == s
  {
    SortUnfold(s, le);
    LastSplit(s);
  }

  /** A non-empty list is its front followed by its last element. */
  lemma LastSplit<T>(s: seq<T>)
    requires |s| > 0
    ensures s[..|s| - 1] + [s[|s| - 1]] == s
  {
  }

  /** `Sort` on a non-empty list inserts its last element into the sorted rest. */
  lemma SortUnfold<T(!new)>(s: seq<T>, le: (T, T) -> bool)
    requires |s| > 0 && TotalPreorder(le)
    ensures Sort(s, le) == Insert(s[|s| - 1], Sort(s[..|s| - 1], le), le)
  {
  }

  /** The front of a sorted list is sorted, and its last element may come after all of it. */
  lemma SortedSplit<T>(s: seq<T>, le: (T, T) -> bool)
    requires |s| > 0 && Sorted(s, le)
    ensures Sorted(s[..|s| - 1], le)
    ensures forall i :: 0 <= i < |s| - 1 ==> le(s[i], s[|s| - 1])
  {
    var init := s[..|s| - 1];
    forall i, j | 0 <= i < j < |init| ensures le(init[i], init[j]) {
      assert init[i] == s[i] && init[j] == s[j];
    }
  }

  /** Sorting is idempotent. */
  lemma SortIdempotent<T(!new)>(s: seq<T>, le: (T, T) -> bool)
    requires TotalPreorder(le)
    ensures Sort(Sort(s, le), le) == Sort(s, le)
  {
    SortSorted(Sort(s, le), le);
  }
}
