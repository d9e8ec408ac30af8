/** Arithmetic on reals, one fact at a time. */
module Reals {
  /** Multiplication under a name, so that quantified facts about products can be
      matched without the solver rearranging them. */
  function Mul(x: real, y: real): real {
    x * y
  }

  function Max(x: real, y: real): real {
    if x >= y then x else y
  }

  function Min(x: real, y: real): real {
    if x <= y then x else y
  }

  function Abs(x: real): real {
    if x < 0.0 then -x else x
  }

  lemma ZeroTimes(a: real)
    ensures Mul(0.0, a) == 0.0
  {
  }

  lemma Distribute(x: real, y: real, a: real)
    ensures Mul(x + y, a) == Mul(x, a) + Mul(y, a)
  {
  }

  lemma Reassociate(x: real, y: real, z: real)
    ensures Mul(Mul(x, y), z) == Mul(x, Mul(y, z))
  {
  }

  lemma Cancel(c: real, x: real)
    requires c != 0.0 && Mul(c, x) == c
    ensures x == 1.0
  {
    assert (c * x) / c == x;
  }

  lemma MulOne(x: real)
    ensures Mul(x, 1.0) == x
  {
  }

  lemma MulSigns(x: real, y: real)
    requires x >= 0.0 && y >= 0.0
    ensures Mul(x, y) >= 0.0
    ensures Mul(x, y) > 0.0 <==> x > 0.0 && y > 0.0
  {
  }

  lemma Swap(c: real, x: real, y: real)
    ensures Mul(x, Mul(c, y)) == Mul(c, Mul(x, y))
  {
  }

  lemma MulCommutes(x: real, y: real)
    ensures Mul(x, y) == Mul(y, x)
  {
  }

  lemma ProductOfScaled(c: real, x: real, d: real, y: real)
    ensures Mul(Mul(c, x), Mul(d, y)) == Mul(Mul(c, d), Mul(x, y))
  {
    assert c * x * (d * y) == c * d * (x * y);
  }

  lemma ZeroFactor(k: real, x: real)
    requires k > 0.0 && Mul(k, x) == 0.0
    ensures x == 0.0
  {
    assert (k * x) / k == x;
  }

  lemma CancelFactor(c: real, x: real, y: real)
    requires c != 0.0 && Mul(c, x) == Mul(c, y)
    ensures x == y
  {
    assert (c * x) / c == x && (c * y) / c == y;
  }

  lemma ProductBetween(w: real, lo: real, x: real, hi: real)
    requires w >= 0.0 && lo <= x <= hi
    ensures Mul(w, lo) <= Mul(w, x) <= Mul(w, hi)
  {
  }

  lemma QuotientBetween(total: real, lo: real, dot: real, hi: real)
    requires total > 0.0 && Mul(total, lo) <= dot <= Mul(total, hi)
    ensures lo <= dot / total <= hi
  {
    assert (total * lo) / total == lo && (total * hi) / total == hi;
    assert (total * lo) / total <= dot / total <= (total * hi) / total;
  }

  lemma DivideMonotone(x: real, y: real, t: real)
    requires t > 0.0 && x <= y
    ensures x / t <= y / t
  {
  }
}
