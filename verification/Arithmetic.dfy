/** Euclidean division facts the other modules lean on. */
module Arithmetic {

  lemma Distribute(t: int, a: int, b: int)
    ensures t * (a + b) == t * a + t * b
  {
  }

  lemma DivMod(x: int, t: int)
    requires t > 0
    ensures x == t * (x / t) + x % t && 0 <= x % t < t
  {
  }

  lemma SmallMultipleIsZero(t: int, d: int)
    requires t > 0 && -t < t * d < t
    ensures d == 0
  {
  }

  lemma ModUnique(x: int, q: int, r: int, t: int)
    requires t > 0 && 0 <= r < t && x == t * q + r
    ensures x % t == r && x / t == q
  {
    DivMod(x, t);
    Distribute(t, x / t, -q);
    SmallMultipleIsZero(t, x / t - q);
  }

  lemma ModEqual(x: int, y: int, t: int)
    requires t > 0 && x % t == y % t && -t < y - x < t
    ensures x == y
  {
    DivMod(x, t);
    DivMod(y, t);
    Distribute(t, y / t, -(x / t));
    SmallMultipleIsZero(t, y / t - x / t);
  }

  lemma DivIs(x: int, d: int, k: int)
    requires d > 0 && d * k <= x < d * k + d
    ensures x / d == k
  {
    ModUnique(x, k, x - d * k, d);
  }
}
