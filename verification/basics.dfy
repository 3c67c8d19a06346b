/** Optional values, octets and whole parts, for every other module. */
module Basics {

  datatype Option<+T> = None | Some(value: T) {
    predicate IsFailure() {
      None?
    }

    function PropagateFailure<U>(): Option<U>
      requires None?
    {
      None
    }

    function Extract(): T
      requires Some?
    {
      value
    }
  }

  newtype Octet = x: int | 0 <= x < 256

  type Bytes = seq<Octet>

  /** Python's int() of a number: the fraction is cut off. */
  function Truncated(x: real): int {
    if x >= 0.0 then x.Floor else -(-x).Floor
  }

  /** It is the nearest whole number on the way to zero. */
  lemma TruncatesTowardZero(x: real)
    ensures x >= 0.0 ==> 0.0 <= Truncated(x) as real <= x < Truncated(x) as real + 1.0
    ensures x <= 0.0 ==> Truncated(x) as real - 1.0 < x <= Truncated(x) as real <= 0.0
  {
  }
}
