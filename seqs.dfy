/** Sequence facts behind `[...new Set(xs)]`. */
module Seqs {

  predicate Distinct<T(==)>(s: seq<T>)
  {
    forall i, j :: 0 <= i < j < |s| ==> s[i] != s[j]
  }

  /** The position of the first occurrence of `x` in `s`. */
  function FirstIndex<T(==)>(s: seq<T>, x: T): (i: nat)
    requires x in s
    ensures i < |s| && s[i] == x && x !in s[..i]
  {
    if s[0] == x then 0
    else
      var i := FirstIndex(s[1..], x);
      assert s[..i + 1] == [s[0]] + s[1..][..i];
      i + 1
  }

  lemma WholePrefix<T>(s: seq<T>)
    ensures s[..|s|] == s
  {
  }

  /** Cutting off a tail that does not hold the first occurrence keeps it in place. */
  lemma FirstIndexOfPrefix<T>(s: seq<T>, k: nat, x: T)
    requires k <= |s| && x in s[..k]
    ensures FirstIndex(s, x) == FirstIndex(s[..k], x)
  {
    var i, j := FirstIndex(s, x), FirstIndex(s[..k], x);
    assert s[..k][..j] == s[..j];
    assert forall m :: 0 <= m < j ==> s[..j][m] == s[m];
    assert forall m :: 0 <= m < i ==> s[..i][m] == s[m];
  }

  /**
   * `[...new Set(s)]`: a Set keeps insertion order and ignores repeated
   * insertions, so the result holds each element of `s` once, ordered by
   * where it first occurs in `s`.
   */
  function Dedup<T(==, !new)>(s: seq<T>): (r: seq<T>)
    ensures forall x :: x in r <==> x in s
    ensures Distinct(r)
    ensures forall i, j :: 0 <= i < j < |r| ==> FirstIndex(s, r[i]) < FirstIndex(s, r[j])
  {
    if s == [] then []
    else
      var init, last := s[..|s| - 1], s[|s| - 1];
      assert s == init + [last];
      var d := Dedup(init);
      FirstIndexOfLast(s);
      if last in d then d else d + [last]
  }

  lemma FirstIndexOfLast<T>(s: seq<T>)
    requires s != []
    ensures forall x :: x in s[..|s| - 1] ==> FirstIndex(s, x) == FirstIndex(s[..|s| - 1], x)
    ensures s[|s| - 1] !in s[..|s| - 1] ==> FirstIndex(s, s[|s| - 1]) == |s| - 1
  {
    forall x | x in s[..|s| - 1]
      ensures FirstIndex(s, x) == FirstIndex(s[..|s| - 1], x)
    {
      FirstIndexOfPrefix(s, |s| - 1, x);
    }
    var last := s[|s| - 1];
    assert forall m :: 0 <= m < |s| - 1 ==> s[..|s| - 1][m] == s[m];
  }
}
