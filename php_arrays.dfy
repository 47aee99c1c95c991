/** PHP's `array_unique()` on a list, as used to build a marker's class list. */
module PhpArrays {

  predicate NoDuplicates<T(==)>(s: seq<T>)
  {
    forall i, j :: 0 <= i < j < |s| ==> s[i] != s[j]
  }

  /** The position of the first occurrence of `x` in `s`. */
  function FirstIndex<T(==)>(s: seq<T>, x: T): (k: nat)
    requires x in s
    ensures k < |s| && s[k] == x && x !in s[..k]
  {
    if s[0] == x then 0
    else
      var k := FirstIndex(s[1..], x);
      assert s[..k + 1] == [s[0]] + s[1..][..k];
      k + 1
  }

  /** In a prefix that already holds `x`, the first occurrence of `x` is where it is in the whole list. */
  lemma {:induction false} FirstIndexInPrefix<T>(s: seq<T>, n: nat, x: T)
    requires n <= |s| && x in s[..n]
    ensures FirstIndex(s, x) == FirstIndex(s[..n], x)
  {
    var k, k' := FirstIndex(s, x), FirstIndex(s[..n], x);
    assert s[k'] == x;
  }

  lemma SnocMembers<T>(s: seq<T>)
    requires s != []
    ensures forall x :: x in s <==> x in s[..|s| - 1] || x == s[|s| - 1]
  {
    assert s == s[..|s| - 1] + [s[|s| - 1]];
  }

  /** Values already in the prefix keep their first index when the list grows. */
  lemma FirstIndexStable<T>(s: seq<T>, r: seq<T>)
    requires s != [] && forall x :: x in r ==> x in s[..|s| - 1]
    ensures forall i :: 0 <= i < |r| ==>
      r[i] in s[..|s| - 1] && r[i] in s && FirstIndex(s, r[i]) == FirstIndex(s[..|s| - 1], r[i])
  {
    forall i | 0 <= i < |r|
      ensures r[i] in s[..|s| - 1] && r[i] in s && FirstIndex(s, r[i]) == FirstIndex(s[..|s| - 1], r[i])
    {
      assert r[i] in r;
      FirstIndexInPrefix(s, |s| - 1, r[i]);
    }
  }

  /**
   * `array_unique($list)` on a list of strings: every value once, at the
   * place of its first occurrence. The three postconditions determine the
   * result: no value twice, exactly the values of the input, and ordered by
   * where each value first occurs in the input.
   */
  function ArrayUnique<T(==,!new)>(s: seq<T>): (r: seq<T>)
    ensures NoDuplicates(r)
    ensures forall x :: x in r <==> x in s
    ensures forall i, j :: 0 <= i < j < |r| ==> FirstIndex(s, r[i]) < FirstIndex(s, r[j])
    ensures s != [] ==> r != [] && r[0] == s[0]
    decreases |s|
  {
    if s == [] then []
    else
      var prefix := s[..|s| - 1];
      var last := s[|s| - 1];
      var r := ArrayUnique(prefix);
      SnocMembers(s);
      FirstIndexStable(s, r);
      if last in r then r
      else
        assert FirstIndex(s, last) == |s| - 1;
        r + [last]
  }
}
