/** Sequence helpers shared by the matcher and the keyboards: prefixes, concatenation, rows. */
module Seqs {

  predicate IsPrefix<T(==)>(a: seq<T>, b: seq<T>) {
    |a| <= |b| && b[..|a|] == a
  }

  lemma PrefixTransitive<T>(a: seq<T>, b: seq<T>, c: seq<T>)
    requires IsPrefix(a, b) && IsPrefix(b, c)
    ensures IsPrefix(a, c)
  {
    assert c[..|a|] == c[..|b|][..|a|];
  }

  /** The lists one after the other. */
  function Flatten<T>(xss: seq<seq<T>>): seq<T>
    decreases |xss|
  {
    if xss == [] then [] else Flatten(xss[..|xss| - 1]) + xss[|xss| - 1]
  }

  lemma FlattenStep<T>(xss: seq<seq<T>>, i: nat)
    requires i < |xss|
    ensures Flatten(xss[..i + 1]) == Flatten(xss[..i]) + xss[i]
  {
    assert xss[..i + 1][..i] == xss[..i];
  }

  /** Flattening a list that starts with `xs`. */
  lemma {:induction false} FlattenCons<T>(xs: seq<T>, xss: seq<seq<T>>)
    ensures Flatten([xs] + xss) == xs + Flatten(xss)
    decreases |xss|
  {
    if xss != [] {
      var n := |xss| - 1;
      assert ([xs] + xss)[..n + 1] == [xs] + xss[..n];
      FlattenCons(xs, xss[..n]);
    } else {
      assert [xs][..0] == [];
    }
  }

  /** An element is in the concatenation exactly when it is in one of the lists. */
  lemma {:induction false} FlattenMembers<T>(xss: seq<seq<T>>, x: T)
    ensures x in Flatten(xss) <==> exists m :: 0 <= m < |xss| && x in xss[m]
    decreases |xss|
  {
    if xss != [] {
      var n := |xss| - 1;
      FlattenMembers(xss[..n], x);
      assert forall m :: 0 <= m < n ==> xss[..n][m] == xss[m];
    }
  }

  /** The lists up to `i` are a prefix of the whole concatenation. */
  lemma {:induction false} FlattenPrefix<T>(xss: seq<seq<T>>, i: nat)
    requires i <= |xss|
    ensures IsPrefix(Flatten(xss[..i]), Flatten(xss))
    decreases |xss| - i
  {
    if i < |xss| {
      var n := |xss| - 1;
      FlattenPrefix(xss[..n], i);
      assert xss[..n][..i] == xss[..i];
      PrefixTransitive(Flatten(xss[..i]), Flatten(xss[..n]), Flatten(xss));
    } else {
      assert xss[..i] == xss;
    }
  }

  /**
   * The rows a keyboard builder makes from its buttons: `width` to a row, the last row holding
   * what is left.
   */
  function Rows<T>(xs: seq<T>, width: nat): (r: seq<seq<T>>)
    requires width > 0
    ensures forall i :: 0 <= i < |r| ==> 0 < |r[i]| <= width
    ensures forall i :: 0 <= i < |r| - 1 ==> |r[i]| == width
    decreases |xs|
  {
    if xs == [] then []
    else if |xs| <= width then [xs]
    else [xs[..width]] + Rows(xs[width..], width)
  }

  /** Reading the rows in order gives back the buttons. */
  lemma {:induction false} RowsFlatten<T>(xs: seq<T>, width: nat)
    requires width > 0
    ensures Flatten(Rows(xs, width)) == xs
    decreases |xs|
  {
    if xs == [] {
    } else if |xs| <= width {
      FlattenCons(xs, []);
    } else {
      RowsFlatten(xs[width..], width);
      FlattenCons(xs[..width], Rows(xs[width..], width));
      assert xs[..width] + xs[width..] == xs;
    }
  }
}
