/** Small facts about Python lists used as id sequences. */
module Seqs {

  /** No element occurs twice: the keys of a dictionary, in iteration order. */
  predicate Distinct<T(==)>(xs: seq<T>) {
    forall i, j | 0 <= i < j < |xs| :: xs[i] != xs[j]
  }

  /** `list.index(x)`: the position of the first occurrence of `x`. */
  function IndexOf(xs: seq<int>, x: int): (i: nat)
    requires x in xs
    ensures i < |xs| && xs[i] == x && x !in xs[..i]
    decreases |xs|
  {
    if xs[0] == x then 0
    else
      assert x in xs[1..];
      var j := IndexOf(xs[1..], x);
      assert xs[..j + 1] == [xs[0]] + xs[1..][..j];
      j + 1
  }

  /** `list.remove(x)`: drops the first occurrence of `x` and keeps the
      order of everything else. The caller guarantees `x` is present, since
      Python raises `ValueError` otherwise. */
  function RemoveFirst(xs: seq<int>, x: int): (r: seq<int>)
    requires x in xs
    ensures |r| == |xs| - 1
    ensures multiset(r) == multiset(xs) - multiset{x}
    ensures forall j | 0 <= j < |r| :: r[j] in xs
  {
    var i := IndexOf(xs, x);
    assert xs == xs[..i] + [x] + xs[i + 1..];
    xs[..i] + xs[i + 1..]
  }

  /** The removal keeps order: the result is the list before the first
      occurrence of `x` followed by the list after it. */
  lemma RemoveFirstInOrder(xs: seq<int>, x: int)
    requires x in xs
    ensures exists i | 0 <= i < |xs| ::
              xs[i] == x && x !in xs[..i] && RemoveFirst(xs, x) == xs[..i] + xs[i + 1..]
  {
    var i := IndexOf(xs, x);
    assert xs[i] == x && x !in xs[..i] && RemoveFirst(xs, x) == xs[..i] + xs[i + 1..];
  }

  /** Removing an element from a list without repetitions leaves exactly the
      other elements, still without repetitions. */
  lemma RemoveFirstDistinct(xs: seq<int>, x: int)
    requires x in xs && Distinct(xs)
    ensures Distinct(RemoveFirst(xs, x))
    ensures forall y :: y in RemoveFirst(xs, x) <==> y in xs && y != x
  {
    var i := IndexOf(xs, x);
    var r := RemoveFirst(xs, x);
    SpliceAt(xs, i, r);
    forall a, b | 0 <= a < b < |r|
      ensures r[a] != r[b]
    {
    }
    forall y
      ensures y in r <==> y in xs && y != x
    {
      if y in r {
        var k :| 0 <= k < |r| && r[k] == y;
      }
      if y in xs && y != x {
        var k :| 0 <= k < |xs| && xs[k] == y;
        assert r[if k < i then k else k - 1] == y;
      }
    }
  }

  /** Where each element of a list `r` with position `i` cut out came from. */
  lemma SpliceAt(xs: seq<int>, i: nat, r: seq<int>)
    requires i < |xs| && r == xs[..i] + xs[i + 1..]
    ensures |r| == |xs| - 1
    ensures forall j | 0 <= j < |r| :: r[j] == xs[if j < i then j else j + 1]
  {
  }
}
