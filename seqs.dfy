/** Sequence helpers shared by the note store and the subscription list. */
module Seqs {

  /** No element occurs twice. */
  predicate Distinct<T(==)>(s: seq<T>)
  {
    forall i, j :: 0 <= i < j < |s| ==> s[i] != s[j]
  }

  /** The position of the first occurrence of `x`, as Python's `list.index` finds it. */
  function IndexOf<T(==)>(s: seq<T>, x: T): (i: nat)
    requires x in s
    ensures i < |s| && s[i] == x
    ensures x !in s[..i]
  {
    if s[0] == x then 0
    else
      var j := IndexOf(s[1..], x);
      assert s[..1 + j] == [s[0]] + s[1..][..j];
      1 + j
  }

  /** Python's `list.remove(x)`: drop the first occurrence of `x` (the bot only calls it after
      checking that `x` is present). The result is one shorter and has one copy of `x` fewer. */
  function RemoveFirst<T(==)>(s: seq<T>, x: T): (r: seq<T>)
    requires x in s
    ensures |r| == |s| - 1
    ensures multiset(r) == multiset(s) - multiset{x}
  {
    var i := IndexOf(s, x);
    assert s == s[..i] + [x] + s[i + 1..];
    s[..i] + s[i + 1..]
  }

  /** Where each element of `RemoveFirst(s, x)` comes from: before the removed position it is
      the same element of `s`, from there on the next one. */
  lemma RemoveFirstAt<T>(s: seq<T>, x: T)
    requires x in s
    ensures |RemoveFirst(s, x)| == |s| - 1
    ensures forall k :: 0 <= k < |RemoveFirst(s, x)| ==>
      RemoveFirst(s, x)[k] == (if k < IndexOf(s, x) then s[k] else s[k + 1])
  {
  }

  /** On a sequence without duplicates, removing `x` removes it entirely and keeps everything else. */
  lemma RemoveFirstDistinct<T>(s: seq<T>, x: T)
    requires x in s && Distinct(s)
    ensures Distinct(RemoveFirst(s, x))
    ensures forall y :: y in RemoveFirst(s, x) <==> y in s && y != x
  {
    var i := IndexOf(s, x);
    var r := RemoveFirst(s, x);
    RemoveFirstAt(s, x);
    forall k, l | 0 <= k < l < |r|
      ensures r[k] != r[l]
    {
      assert r[k] == s[if k < i then k else k + 1];
      assert r[l] == s[if l < i then l else l + 1];
    }
    forall y
      ensures y in r <==> y in s && y != x
    {
      if y in r {
        var k :| 0 <= k < |r| && r[k] == y;
        assert y == s[if k < i then k else k + 1];
      }
      if y in s && y != x {
        var k :| 0 <= k < |s| && s[k] == y;
        assert k != i;
        assert r[if k < i then k else k - 1] == y;
      }
    }
  }

  /** Removing an element that was just appended to a sequence without it gives the sequence back. */
  lemma RemoveFirstOfAppended<T>(s: seq<T>, x: T)
    requires x !in s
    ensures RemoveFirst(s + [x], x) == s
  {
    var i := IndexOf(s + [x], x);
    assert (s + [x])[|s|] == x;
    assert (s + [x])[..|s|] == s;
  }
}
