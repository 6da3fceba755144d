/**
 * The comparison behaviour of IEEE-754 numbers. Values are exact (no rounding),
 * but NaN and the infinities are kept, because the protocol code branches on them.
 */
module Floats {

  datatype F64 = Fin(v: real) | PosInf | NegInf | NaN {

    predicate IsFinite() {
      Fin?
    }

    /** `self < other`; false as soon as either side is NaN. */
    predicate Lt(other: F64) {
      match (this, other)
      case (NaN, _) => false
      case (_, NaN) => false
      case (Fin(a), Fin(b)) => a < b
      case (NegInf, b) => b != NegInf
      case (PosInf, _) => false
      case (Fin(_), b) => b == PosInf
    }

    predicate Gt(other: F64) {
      other.Lt(this)
    }
  }

  /** `x` does not exceed `cap`; a cap that is not a number caps nothing. */
  predicate Within(x: real, cap: F64) {
    cap != NegInf && (cap.Fin? ==> x <= cap.v)
  }

  datatype Ordering = Less | Equal | Greater {

    function Then(next: Ordering): Ordering {
      if Equal? then next else this
    }
  }

  /** `partial_cmp(..).unwrap_or(Equal)`. */
  function PartialCmpOrEqual(a: F64, b: F64): Ordering {
    if a.Lt(b) then Less else if b.Lt(a) then Greater else Equal
  }

  function CmpInt(a: int, b: int): Ordering {
    if a < b then Less else if a == b then Equal else Greater
  }

  function MinReal(a: real, b: real): real {
    if b < a then b else a
  }

  function MaxReal(a: real, b: real): real {
    if a < b then b else a
  }

  function Clamp01(x: real): (r: real)
    ensures 0.0 <= r <= 1.0
    ensures 0.0 <= x <= 1.0 ==> r == x
    ensures (x <= 0.0 ==> r == 0.0) && (x >= 1.0 ==> r == 1.0)
  {
    MaxReal(0.0, MinReal(x, 1.0))
  }

  /** `f64::round`: to the nearest integer, halves away from zero. */
  function Round(x: real): int {
    if x >= 0.0 then (x + 0.5).Floor else -((-x + 0.5).Floor)
  }

  function Ceil(x: real): int {
    -((-x).Floor)
  }

  function Pow(base: real, n: nat): real {
    if n == 0 then 1.0 else base * Pow(base, n - 1)
  }

  lemma {:induction false} PowPositive(base: real, n: nat)
    requires base > 0.0
    ensures Pow(base, n) > 0.0
  {
    if n > 0 { PowPositive(base, n - 1); }
  }
}
