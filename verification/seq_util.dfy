/** Order-preserving de-duplication of a sequence: pandas' `Series.unique()`,
    which lists each value once, in the order of its first appearance. */
module SeqUtil {

  predicate NoDuplicates<T(==)>(xs: seq<T>) {
    forall i, j :: 0 <= i < j < |xs| ==> xs[i] != xs[j]
  }

  /** The position of the first occurrence of `x`. */
  function FirstIndex<T(==)>(xs: seq<T>, x: T): (i: nat)
    requires x in xs
    ensures i < |xs| && xs[i] == x
    ensures x !in xs[..i]
  {
    if xs[0] == x then 0
    else
      var j := FirstIndex(xs[1..], x);
      assert xs[..j + 1] == [xs[0]] + xs[1..][..j];
      j + 1
  }

  /** Appending never moves the first occurrence of a value already there. */
  lemma FirstIndexAppend<T>(xs: seq<T>, y: T, x: T)
    requires y in xs
    ensures FirstIndex(xs + [x], y) == FirstIndex(xs, y)
  {
    var i := FirstIndex(xs, y);
    var k := FirstIndex(xs + [x], y);
    assert (xs + [x])[i] == y;
    assert (xs + [x])[..k] == xs[..k] by {
      assert k <= i;
    }
  }

  /** Each value of `xs` once, in the order of first appearance. */
  function Unique<T(==,!new)>(xs: seq<T>): (r: seq<T>)
    ensures forall x :: x in r <==> x in xs
    ensures NoDuplicates(r)
    ensures |r| <= |xs|
  {
    if xs == [] then []
    else
      var init := xs[..|xs| - 1];
      var rest := Unique(init);
      assert xs == init + [xs[|xs| - 1]];
      if xs[|xs| - 1] in rest then rest else rest + [xs[|xs| - 1]]
  }

  /** `Unique` lists values in the order of their first occurrence in `xs`. */
  lemma {:induction false} UniqueInFirstAppearanceOrder<T(!new)>(xs: seq<T>)
    ensures forall i, j :: 0 <= i < j < |Unique(xs)| ==>
              FirstIndex(xs, Unique(xs)[i]) < FirstIndex(xs, Unique(xs)[j])
  {
    if xs != [] {
      var init := xs[..|xs| - 1];
      var last := xs[|xs| - 1];
      assert xs == init + [last];
      UniqueInFirstAppearanceOrder(init);
      var u := Unique(init);
      forall i | 0 <= i < |u|
        ensures FirstIndex(xs, u[i]) == FirstIndex(init, u[i])
      {
        FirstIndexAppend(init, u[i], last);
      }
      if last !in u {
        assert last !in init;
        forall i | 0 <= i < |u|
          ensures FirstIndex(xs, u[i]) < FirstIndex(xs, last)
        {
          assert FirstIndex(xs, last) == |xs| - 1 by {
            assert last !in xs[..|xs| - 1];
          }
        }
      }
    }
  }
}
