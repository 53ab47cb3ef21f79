/** Duplicate-free recency lists: front is most recent, back is least recent.
    They stand for the std::list members of the eviction policies. */
module Recency {
  import opened Status

  ghost predicate Apart<T(!new)>(s: seq<T>, i: int, j: int) {
    0 <= i < j < |s| ==> s[i] != s[j]
  }

  ghost predicate Distinct<T(!new)>(s: seq<T>) {
    forall i, j :: Apart(s, i, j)
  }

  /** The list without `x`, everything else in its old order. */
  function Without<T(==, !new)>(s: seq<T>, x: T): (r: seq<T>)
    ensures forall y :: y in r <==> y in s && y != x
    ensures |r| <= |s|
  {
    if s == [] then []
    else if s[0] == x then Without(s[1..], x)
    else [s[0]] + Without(s[1..], x)
  }

  /** A distinct list is its head and a distinct tail without it. */
  lemma Uncons<T(!new)>(s: seq<T>)
    requires s != []
    ensures Distinct(s) <==> Distinct(s[1..]) && s[0] !in s[1..]
  {
    if Distinct(s) {
      forall i, j
        ensures Apart(s[1..], i, j)
      {
        assert Apart(s, i + 1, j + 1);
      }
      forall j | 0 <= j < |s[1..]|
        ensures s[0] != s[1..][j]
      {
        assert Apart(s, 0, j + 1);
      }
    } else {
      var i, j :| !Apart(s, i, j);
      assert i > 0 ==> !Apart(s[1..], i - 1, j - 1);
      assert s[j] in s[1..];
    }
  }

  lemma {:induction false} WithoutDistinct<T(!new)>(s: seq<T>, x: T)
    requires Distinct(s)
    ensures Distinct(Without(s, x))
    ensures |Without(s, x)| == |s| - (if x in s then 1 else 0)
    ensures x !in s ==> Without(s, x) == s
  {
    if s != [] {
      Uncons(s);
      WithoutDistinct(s[1..], x);
      assert s == [s[0]] + s[1..];
      if s[0] != x {
        PushDistinct(Without(s[1..], x), s[0]);
      }
    }
  }

  lemma PushDistinct<T(!new)>(s: seq<T>, x: T)
    requires Distinct(s) && x !in s
    ensures Distinct([x] + s)
  {
    Uncons([x] + s);
  }

  lemma PopDistinct<T(!new)>(s: seq<T>)
    requires Distinct(s) && s != []
    ensures Distinct(s[..|s| - 1]) && s[|s| - 1] !in s[..|s| - 1]
  {
    forall i, j {:trigger Apart(s[..|s| - 1], i, j)}
      ensures Apart(s[..|s| - 1], i, j)
    {
      assert Apart(s, i, j);
    }
    forall i | 0 <= i < |s| - 1
      ensures s[i] != s[|s| - 1]
    {
      assert Apart(s, i, |s| - 1);
    }
  }

  /** The list's least recent element other than `excluded`. */
  function OldestExcept<T(==, !new)>(s: seq<T>, excluded: Option<T>): (r: Option<T>)
    ensures r.Some? ==> r.value in s && r != excluded
    ensures r.None? ==> forall x :: x in s ==> excluded == Some(x)
  {
    if s == [] then None
    else if Some(s[|s| - 1]) != excluded then Some(s[|s| - 1])
    else OldestExcept(s[..|s| - 1], excluded)
  }

  /** Everything behind the chosen element is the excluded one. */
  lemma {:induction false} OldestExceptIsLast<T(!new)>(s: seq<T>, excluded: Option<T>) returns (i: nat)
    requires OldestExcept(s, excluded).Some?
    ensures i < |s| && s[i] == OldestExcept(s, excluded).value
    ensures forall j :: i < j < |s| ==> Some(s[j]) == excluded
  {
    if Some(s[|s| - 1]) != excluded {
      i := |s| - 1;
    } else {
      i := OldestExceptIsLast(s[..|s| - 1], excluded);
    }
  }
}
