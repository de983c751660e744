/** Small shared vocabulary: optional values, results, the exception kinds the
    game core can raise, and 32-bit integer arithmetic where the C# code
    relies on it. */
module Common {

  /** A value that may be absent (a nullable field or a missing component). */
  datatype Option<+T> = None | Some(value: T)

  /** The exceptions the modelled code raises. */
  datatype Error =
    | InvalidOperation    // a singleton component was requested but none exists
    | ArgumentOutOfRange  // a board dimension is zero or negative
    | Argument            // the board has an odd number of cells
    | Overflow            // an array was allocated with a negative length
    | NotImplemented      // the unvalidated command drain met an unknown command
    | MissingComponent    // a component was read from an entity that lacks it
    | InvalidEntity       // the default entity handle was used as a live entity

  /** Either a value or the exception that replaced it. */
  datatype Result<+T> = Ok(value: T) | Err(error: Error)

  /** `int.MaxValue` of C#. */
  const IntMax: int := 0x7fff_ffff

  /** `int.MinValue` of C#. */
  const IntMin: int := -0x8000_0000

  predicate InInt32(n: int) {
    IntMin <= n <= IntMax
  }

  /** Two's-complement wrap-around of an unchecked C# `int` operation. */
  function Wrap32(n: int): (r: int)
    ensures InInt32(r)
    ensures (r - n) % 0x1_0000_0000 == 0
    ensures InInt32(n) ==> r == n
  {
    var m := (n - IntMin) % 0x1_0000_0000;
    m + IntMin
  }

  /** `uint.MaxValue + 1`. */
  const UintModulus: int := 0x1_0000_0000

  /** The implicit conversion of an `int` value into a `uint` field: the same
      32 bits read as unsigned, so a negative value lands near the top. */
  function ToUint32(n: int): (r: nat)
    ensures r < UintModulus
    ensures (r - n) % UintModulus == 0
    ensures 0 <= n <= IntMax ==> r == n
    ensures IntMin <= n < 0 ==> r == n + UintModulus
  {
    n % UintModulus
  }
}
