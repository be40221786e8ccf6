/**
 * The exceptions the RFC 7946 engine raises, as values. Each constructor
 * stands for one throw site; `Message` gives the exact text the source uses.
 */
module Failures {

  datatype Failure =
    | TooFewPoints(subject: string)      // "<subject> must have at least 4 points (3 unique points + closure)"
    | TooFewPointsToClose                // ensureRingClosed on a ring of 1 or 2 points
    | NotClosed(subject: string)         // "<subject> must be closed (first and last points must be the same)"
    | ExteriorNotCounterClockwise
    | InteriorNotClockwise(hole: nat)
    | NoExteriorRing                     // a polygon without rings asked for its exterior ring
    | IndexOutOfBounds(index: int, length: nat)

  /** The result of a check that returns normally or throws. */
  datatype Outcome = Pass | Fail(failure: Failure)

  /** The result of a call that returns a value or throws. */
  datatype Result<+T> = Ok(value: T) | Err(failure: Failure)

  function DigitChar(d: nat): char
    requires d < 10
  {
    "0123456789"[d]
  }

  /** Decimal text of a natural number, as string concatenation prints it. */
  function NatToString(n: nat): (s: string)
    ensures |s| >= 1
    ensures forall k :: 0 <= k < |s| ==> '0' <= s[k] <= '9'
    decreases n
  {
    if n < 10 then [DigitChar(n)] else NatToString(n / 10) + [DigitChar(n % 10)]
  }

  function IntToString(i: int): string
  {
    if i < 0 then "-" + NatToString(-i) else NatToString(i)
  }

  function InteriorRingName(index: nat): string
  {
    "Interior ring " + NatToString(index)
  }

  /** The exception message of each failure. */
  function Message(f: Failure): string
  {
    match f
    case TooFewPoints(subject) => subject + " must have at least 4 points (3 unique points + closure)"
    case TooFewPointsToClose => "Ring must have at least 3 points (plus closure)"
    case NotClosed(subject) => subject + " must be closed (first and last points must be the same)"
    case ExteriorNotCounterClockwise => "Exterior ring must be counterclockwise according to RFC 7946"
    case InteriorNotClockwise(hole) => InteriorRingName(hole) + " must be clockwise according to RFC 7946"
    case NoExteriorRing => "No exterior ring defined"
    case IndexOutOfBounds(index, length) =>
      "Index " + IntToString(index) + " out of bounds for length " + NatToString(length)
  }
}
