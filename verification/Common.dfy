/** Small datatypes and set facts shared by the other modules. */
module Common {

  /** A value that the program may find missing (null or undefined). */
  datatype Option<+T> = None | Some(value: T)

  /** What a request returns: a value, or the exception it raises. */
  datatype Result<+T, +E> = Success(value: T) | Failure(error: E)

  function Min(x: int, y: int): int { if x <= y then x else y }

  function Max(x: int, y: int): int { if x >= y then x else y }

  /** A subset of a finite set is no larger. */
  lemma SubsetCardinality<T>(small: set<T>, big: set<T>)
    requires small <= big
    ensures |small| <= |big|
    ensures |small| == |big| ==> small == big
  {
    assert big == small + (big - small);
  }

  ghost predicate Distinct<T>(s: seq<T>)
  {
    forall i, j :: 0 <= i < j < |s| ==> s[i] != s[j]
  }

  function Members<T(==, !new)>(s: seq<T>): (m: set<T>)
    ensures forall x :: x in m <==> x in s
  {
    set x | x in s
  }

  /** A sequence without repeats has as many members as places. */
  lemma {:induction false} DistinctCount<T(!new)>(s: seq<T>)
    requires Distinct(s)
    ensures |Members(s)| == |s|
  {
    if s != [] {
      var front, last := s[..|s| - 1], s[|s| - 1];
      DistinctCount(front);
      assert s == front + [last] && Members(s) == Members(front) + {last};
    }
  }
}
