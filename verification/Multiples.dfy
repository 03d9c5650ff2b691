/** Multiples of a positive number. */
module Multiples {

  /** No multiple lies between zero and the number itself. */
  lemma FarFromZero(p: int, d: int)
    requires p > 0
    ensures d >= 1 ==> p * d >= p
    ensures d <= -1 ==> p * d <= -p
  {
  }
}
