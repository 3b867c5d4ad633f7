/** Small failure-carrying datatypes shared by the rules engine. */
module Wrappers {

  /** An optional value; `None` stands for a Java `null` reference. */
  datatype Option<+T> = None | Some(value: T)

  /** The outcome of a call that can throw `IllegalArgumentException` in the game. */
  datatype Outcome = Success | IllegalArgument(message: string)

  function Max(a: int, b: int): (m: int)
  {
    if a >= b then a else b
  }

  function Min(a: int, b: int): (m: int)
  {
    if a <= b then a else b
  }

  /** Decimal rendering of a natural number, as Java's string concatenation writes an `int`. */
  function NatToString(n: nat): (s: string)
    ensures |s| > 0
    ensures forall k :: 0 <= k < |s| ==> '0' <= s[k] <= '9'
  {
    var digit := "0123456789"[n % 10];
    if n < 10 then [digit] else NatToString(n / 10) + [digit]
  }
}
