/** The library calls `Collections.sort(List<Double>)` and `Arrays.sort(double[])`
    (ascending order). They are modelled by one function, an insertion sort, whose
    contract is what those calls promise: an ascending permutation of the input. */
module Sorting {

  ghost predicate Ascending(s: seq<real>)
  {
    forall i, j | 0 <= i < j < |s| :: s[i] <= s[j]
  }

  /** x inserted into the ascending sequence s at the first position where it fits. */
  function Insert(x: real, s: seq<real>): (r: seq<real>)
    requires Ascending(s)
    ensures Ascending(r)
    ensures multiset(r) == multiset(s) + multiset{x}
    ensures |r| == |s| + 1
  {
    if s == [] || x <= s[0] then
      ConsAscending(x, s);
      [x] + s
    else
      AscendingTail(s);
      var rest := Insert(x, s[1..]);
      InsertStep(x, s, rest);
      [s[0]] + rest
  }

  lemma AscendingTail(s: seq<real>)
    requires Ascending(s) && |s| > 0
    ensures Ascending(s[1..])
  {
    forall i, j | 0 <= i < j < |s| - 1 ensures s[1..][i] <= s[1..][j] {
      assert s[1..][i] == s[i + 1] && s[1..][j] == s[j + 1];
    }
  }

  /** An element no greater than the head of an ascending sequence may go in front of it. */
  lemma ConsAscending(x: real, s: seq<real>)
    requires Ascending(s)
    requires s == [] || x <= s[0]
    ensures Ascending([x] + s)
  {
    var r := [x] + s;
    forall i, j | 0 <= i < j < |r| ensures r[i] <= r[j] {
      if i == 0 {
        assert r[j] == s[j - 1];
        assert s[0] <= s[j - 1];
      } else {
        assert r[i] == s[i - 1] && r[j] == s[j - 1];
      }
    }
  }

  /** The recursive case of Insert: the head of s stays in front of x inserted into the tail. */
  lemma InsertStep(x: real, s: seq<real>, rest: seq<real>)
    requires Ascending(s) && |s| > 0 && s[0] < x
    requires Ascending(rest) && multiset(rest) == multiset(s[1..]) + multiset{x}
    ensures Ascending([s[0]] + rest)
    ensures multiset([s[0]] + rest) == multiset(s) + multiset{x}
  {
    assert s == [s[0]] + s[1..];
    forall k | 0 <= k < |s[1..]| ensures s[0] <= s[1..][k] {
      assert s[1..][k] == s[k + 1];
    }
    HeadBelow(s[0], s[1..], x, rest);
    var r := [s[0]] + rest;
    forall i, j | 0 <= i < j < |r| ensures r[i] <= r[j] {
      if i == 0 {
        assert r[j] == rest[j - 1];
      } else {
        assert r[i] == rest[i - 1] && r[j] == rest[j - 1];
      }
    }
  }

  /** A lower bound of s and of x bounds any rearrangement of s with x added. */
  lemma HeadBelow(h: real, s: seq<real>, x: real, rest: seq<real>)
    requires forall k | 0 <= k < |s| :: h <= s[k]
    requires h <= x
    requires multiset(rest) == multiset(s) + multiset{x}
    ensures forall k | 0 <= k < |rest| :: h <= rest[k]
  {
    forall k | 0 <= k < |rest| ensures h <= rest[k] {
      assert rest[k] in multiset(rest);
      if rest[k] != x {
        assert rest[k] in multiset(s);
        var j :| 0 <= j < |s| && s[j] == rest[k];
      }
    }
  }

  /** The ascending rearrangement of s. */
  function SortedCopy(s: seq<real>): (r: seq<real>)
    ensures Ascending(r)
    ensures multiset(r) == multiset(s)
    ensures |r| == |s|
  {
    if s == [] then []
    else
      assert s == s[..|s| - 1] + [s[|s| - 1]];
      Insert(s[|s| - 1], SortedCopy(s[..|s| - 1]))
  }

  /** The first and last elements of an ascending rearrangement of s are the least and
      greatest elements of s. */
  lemma PermutationBounds(r: seq<real>, s: seq<real>, i: nat)
    requires Ascending(r) && multiset(r) == multiset(s) && i < |s|
    ensures |r| > 0 && r[0] <= s[i] <= r[|r| - 1]
  {
    assert s[i] in multiset(s);
    assert s[i] in multiset(r);
    var k :| 0 <= k < |r| && r[k] == s[i];
  }
}
