/** Columns over the bars of a frame. None stands for NaN: a value still undefined during
    warmup, or a division by zero the code maps to NaN. */
module Columns {
  import opened Wrappers

  type Column = seq<Option<real>>

  /** The two columns hold the same first k entries. */
  predicate AgreeTo<T(==)>(xs: seq<T>, ys: seq<T>, k: nat) {
    k <= |xs| && k <= |ys| && xs[..k] == ys[..k]
  }

  lemma AgreeAt<T>(xs: seq<T>, ys: seq<T>, k: nat, i: nat)
    requires AgreeTo(xs, ys, k) && i < k
    ensures xs[i] == ys[i]
  {
    assert xs[i] == xs[..k][i] == ys[..k][i];
  }

  lemma AgreeFromEntries<T>(xs: seq<T>, ys: seq<T>, k: nat)
    requires k <= |xs| && k <= |ys| && forall i | 0 <= i < k :: xs[i] == ys[i]
    ensures AgreeTo(xs, ys, k)
  {
  }

  /** A column of known values. */
  function Known(xs: seq<real>): (c: Column)
    ensures |c| == |xs|
  {
    seq(|xs|, i requires 0 <= i < |xs| => Some(xs[i]))
  }

  /** Entry-by-entry combination; undefined wherever an operand is. */
  function Zip(f: (real, real) -> Option<real>, xs: Column, ys: Column): (c: Column)
    requires |xs| == |ys|
    ensures |c| == |xs|
  {
    seq(|xs|, i requires 0 <= i < |xs| =>
      if xs[i].Some? && ys[i].Some? then f(xs[i].value, ys[i].value) else None)
  }

  lemma ZipAgree(f: (real, real) -> Option<real>, xs: Column, ys: Column, us: Column, vs: Column, k: nat)
    requires |xs| == |ys| && |us| == |vs| && AgreeTo(xs, us, k) && AgreeTo(ys, vs, k)
    ensures AgreeTo(Zip(f, xs, ys), Zip(f, us, vs), k)
  {
    forall i | 0 <= i < k
      ensures Zip(f, xs, ys)[i] == Zip(f, us, vs)[i]
    {
      AgreeAt(xs, us, k, i);
      AgreeAt(ys, vs, k, i);
    }
  }

  lemma KnownAgree(xs: seq<real>, ys: seq<real>, k: nat)
    requires AgreeTo(xs, ys, k)
    ensures AgreeTo(Known(xs), Known(ys), k)
  {
    forall i | 0 <= i < k
      ensures Known(xs)[i] == Known(ys)[i]
    {
      AgreeAt(xs, ys, k, i);
    }
  }

  /** Every defined entry lies between lo and hi. */
  predicate Within(xs: Column, lo: real, hi: real) {
    forall i | 0 <= i < |xs| && xs[i].Some? :: lo <= xs[i].value <= hi
  }
}
