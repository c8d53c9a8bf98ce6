/** Sequence facts shared by the models: concatenation of a list of lists,
    and insertion and removal at a position. */
module Seqs {

  ghost function Concat<T>(xss: seq<seq<T>>): seq<T> {
    if xss == [] then [] else xss[0] + Concat(xss[1..])
  }

  lemma {:induction false} ConcatAppend<T>(xss: seq<seq<T>>, yss: seq<seq<T>>)
    ensures Concat(xss + yss) == Concat(xss) + Concat(yss)
  {
    if xss == [] {
      assert xss + yss == yss;
    } else {
      assert (xss + yss)[1..] == xss[1..] + yss;
      ConcatAppend(xss[1..], yss);
    }
  }

  lemma ConcatOne<T>(xs: seq<T>)
    ensures Concat([xs]) == xs
  {
    assert Concat([xs][1..]) == [];
  }

  /** The i-th block of a concatenation and what surrounds it. */
  lemma ConcatAround<T>(xss: seq<seq<T>>, i: nat)
    requires i < |xss|
    ensures Concat(xss) == Concat(xss[..i]) + xss[i] + Concat(xss[i + 1..])
  {
    hide Concat;
    var a, b, c := xss[..i], [xss[i]], xss[i + 1..];
    assert xss == a + (b + c);
    ConcatAppend(a, b + c);
    ConcatAppend(b, c);
    ConcatOne(xss[i]);
    assert Concat(a) + (xss[i] + Concat(c)) == Concat(a) + xss[i] + Concat(c);
  }

  lemma InConcat<T>(xss: seq<seq<T>>, i: nat, x: T)
    requires i < |xss| && x in xss[i]
    ensures x in Concat(xss)
  {
    ConcatAround(xss, i);
  }

  lemma ConcatReplace<T>(xss: seq<seq<T>>, i: nat, xs: seq<T>)
    requires i < |xss|
    ensures Concat(xss[i := xs]) == Concat(xss[..i]) + xs + Concat(xss[i + 1..])
  {
    ConcatAround(xss[i := xs], i);
    assert xss[i := xs][..i] == xss[..i] && xss[i := xs][i + 1..] == xss[i + 1..];
  }

  ghost function Offset<T>(xss: seq<seq<T>>, i: nat): nat
    requires i <= |xss|
  {
    |Concat(xss[..i])|
  }

  /** Block i occupies the positions from Offset(i) to Offset(i + 1). */
  lemma OffsetBlock<T>(xss: seq<seq<T>>, i: nat)
    requires i < |xss|
    ensures Offset(xss, i + 1) == Offset(xss, i) + |xss[i]| <= |Concat(xss)|
    ensures forall j :: 0 <= j < |xss[i]| ==> Concat(xss)[Offset(xss, i) + j] == xss[i][j]
    ensures Concat(xss)[Offset(xss, i)..Offset(xss, i + 1)] == xss[i]
  {
    ConcatAround(xss, i);
    assert xss[..i + 1] == xss[..i] + [xss[i]];
    ConcatAppend(xss[..i], [xss[i]]);
    ConcatOne(xss[i]);
  }

  /** Lists of blocks of the same sizes have the same offsets. */
  lemma {:induction false} OffsetSameSizes<S, T>(xss: seq<seq<S>>, yss: seq<seq<T>>, i: nat)
    requires i <= |xss| == |yss|
    requires forall j :: 0 <= j < i ==> |xss[j]| == |yss[j]|
    ensures Offset(xss, i) == Offset(yss, i)
  {
    if i > 0 {
      OffsetSameSizes(xss, yss, i - 1);
      OffsetBlock(xss, i - 1);
      OffsetBlock(yss, i - 1);
    } else {
      assert xss[..0] == [] && yss[..0] == [];
    }
  }

  function InsertAt<T>(xs: seq<T>, i: nat, x: T): seq<T>
    requires i <= |xs|
  {
    xs[..i] + [x] + xs[i..]
  }

  lemma LastApart<T>(xs: seq<T>)
    requires xs != []
    ensures xs == xs[..|xs| - 1] + [xs[|xs| - 1]]
  {
  }

  lemma Regroup<T>(xs: seq<T>, ys: seq<T>, zs: seq<T>)
    ensures xs + (ys + zs) == xs + ys + zs
  {
  }

  lemma InsertAtIndex<T>(xs: seq<T>, i: nat, x: T)
    requires i <= |xs|
    ensures |InsertAt(xs, i, x)| == |xs| + 1
    ensures forall k :: 0 <= k < i ==> InsertAt(xs, i, x)[k] == xs[k]
    ensures InsertAt(xs, i, x)[i] == x
    ensures forall k :: i < k <= |xs| ==> InsertAt(xs, i, x)[k] == xs[k - 1]
  {
  }

  function RemoveAt<T>(xs: seq<T>, i: nat): seq<T>
    requires i < |xs|
  {
    xs[..i] + xs[i + 1..]
  }

  /** Growing one block of a concatenation. */
  lemma ConcatInsert<T>(xss: seq<seq<T>>, i: nat, j: nat, x: T)
    requires i < |xss| && j <= |xss[i]|
    ensures Offset(xss, i) + j <= |Concat(xss)|
    ensures Concat(xss[i := InsertAt(xss[i], j, x)]) == InsertAt(Concat(xss), Offset(xss, i) + j, x)
  {
    var yss := xss[i := InsertAt(xss[i], j, x)];
    ConcatAround(xss, i);
    ConcatAround(yss, i);
    assert yss[..i] == xss[..i] && yss[i + 1..] == xss[i + 1..];
  }

  /** Cutting one block of a concatenation in two. */
  lemma ConcatCut<T>(xss: seq<seq<T>>, i: nat, a: seq<T>, b: seq<T>)
    requires i < |xss| && xss[i] == a + b
    ensures Concat(InsertAt(xss[i := a], i + 1, b)) == Concat(xss)
  {
    var yss := InsertAt(xss[i := a], i + 1, b);
    ConcatAround(xss, i);
    ConcatAround(yss, i);
    ConcatAround(yss[i + 1..], 0);
    assert yss[..i] == xss[..i] && yss[i + 1..][0] == b && yss[i + 1..][1..] == xss[i + 1..];
    assert yss[i + 1..][..0] == [];
  }

  lemma InsertRemove<T>(xs: seq<T>, i: nat)
    requires i < |xs|
    ensures InsertAt(RemoveAt(xs, i), i, xs[i]) == xs
  {
  }

  ghost predicate NoDup<T>(xs: seq<T>) {
    forall i, j :: 0 <= i < j < |xs| ==> xs[i] != xs[j]
  }

  /** A sequence without repetitions has as many elements as their set. */
  lemma {:induction false} CountDistinct<T(!new)>(xs: seq<T>, s: set<T>)
    requires NoDup(xs) && forall x :: x in xs <==> x in s
    ensures |xs| == |s|
  {
    if xs == [] {
      assert s == {};
    } else {
      var x := xs[|xs| - 1];
      assert xs == xs[..|xs| - 1] + [x];
      CountDistinct(xs[..|xs| - 1], s - {x});
    }
  }
}
