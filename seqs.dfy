/** Flattening a sequence of sequences, as Stream.flatMap and Stream.of do. */
module Seqs {

  function Flatten<T>(xss: seq<seq<T>>): (r: seq<T>)
    ensures |xss| == 1 ==> r == xss[0]
  {
    if xss == [] then [] else xss[0] + Flatten(xss[1..])
  }

  lemma {:induction false} FlattenAppend<T>(xss: seq<seq<T>>, yss: seq<seq<T>>)
    ensures Flatten(xss + yss) == Flatten(xss) + Flatten(yss)
  {
    if xss == [] {
      assert xss + yss == yss;
    } else {
      assert (xss + yss)[1..] == xss[1..] + yss;
      FlattenAppend(xss[1..], yss);
    }
  }

  /** Every element of the flattening comes from one of the inner sequences, and every
      element of an inner sequence appears in the flattening. */
  lemma {:induction false} FlattenMembers<T>(xss: seq<seq<T>>, x: T)
    ensures x in Flatten(xss) <==> exists i :: 0 <= i < |xss| && x in xss[i]
  {
    if xss != [] {
      FlattenMembers(xss[1..], x);
      if x in xss[0] {
      } else if exists i :: 0 <= i < |xss[1..]| && x in xss[1..][i] {
        var i :| 0 <= i < |xss[1..]| && x in xss[1..][i];
        assert x in xss[i + 1];
      } else {
        forall i | 0 <= i < |xss| ensures x !in xss[i] {
          if i > 0 { assert xss[i] == xss[1..][i - 1]; }
        }
      }
    }
  }

  /** Rows of equal width: row i of the flattening sits at [i * width, (i + 1) * width). */
  lemma {:induction false} FlattenRow<T>(xss: seq<seq<T>>, width: nat, i: nat)
    requires forall j :: 0 <= j < |xss| ==> |xss[j]| == width
    requires i < |xss|
    ensures |Flatten(xss)| == |xss| * width
    ensures (i + 1) * width <= |Flatten(xss)|
    ensures Flatten(xss)[i * width .. (i + 1) * width] == xss[i]
  {
    FlattenLength(xss, width);
    assert Flatten(xss) == xss[0] + Flatten(xss[1..]);
    if i > 0 {
      var p := (i - 1) * width;
      FlattenRow(xss[1..], width, i - 1);
      assert i * width == width + p && (i + 1) * width == width + p + width;
      SliceAfter(xss[0], Flatten(xss[1..]), p, p + width);
    }
  }

  /** A slice of y, read through x + y. */
  lemma SliceAfter<T>(x: seq<T>, y: seq<T>, p: nat, q: nat)
    requires p <= q <= |y|
    ensures (x + y)[|x| + p .. |x| + q] == y[p..q]
  {
  }

  lemma {:induction false} FlattenLength<T>(xss: seq<seq<T>>, width: nat)
    requires forall j :: 0 <= j < |xss| ==> |xss[j]| == width
    ensures |Flatten(xss)| == |xss| * width
  {
    if xss != [] {
      FlattenLength(xss[1..], width);
      assert |xss| * width == width + (|xss| - 1) * width;
    }
  }
}
