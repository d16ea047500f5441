/** Shared vocabulary of the classified-ads model: optional values, results,
    the exceptions of the Java program as an error datatype, and Java's
    32-bit `int` with its wrap-around. */
module Base {

  /** A value that Java may leave `null`. */
  datatype Option<T> = None | Some(value: T) {
    function GetOr(default: T): T {
      if Some? then value else default
    }
  }

  /** The outcome of a Java call that either returns a value or throws. */
  datatype Result<T> = Ok(value: T) | Err(error: Error)

  /** The outcome of a Java `void` call that may throw. */
  datatype Outcome = Pass | Fail(error: Error)

  /** The field whose validation raised `DatiNonValidiException`. */
  datatype Field = Title | Description | Price | Keywords | Owner | Expiry | FieldCount | Id

  /** Why `BachecaException` was raised. */
  datatype BoardFault = NullListing | DuplicateListing | EmptyQuery

  /** Why `IllegalArgumentException` was raised. */
  datatype ArgumentFault = InvalidEmail | BlankName | NullUser | DuplicateEmail | NotOwner | UnknownListing | BlankPath

  /** Why `GestoreBachecaException` was raised. */
  datatype ManagerFault = NoListing | UnknownId | MissingHeader | LoadAborted(cause: Error)

  /** One constructor per exception class the core throws. */
  datatype Error =
    | InvalidData(field: Field)              // DatiNonValidiException
    | BoardError(board: BoardFault)          // BachecaException
    | IllegalArgument(argument: ArgumentFault) // IllegalArgumentException
    | ManagerError(manager: ManagerFault)    // GestoreBachecaException
    | NumberFormat                           // NumberFormatException from Double.parseDouble
    | DateFormat                             // DateTimeParseException from LocalDate.parse
    | NullReference                          // NullPointerException

  /** Java's `int`. */
  newtype int32 = x: int | -0x8000_0000 <= x < 0x8000_0000

  const MaxInt32: int32 := 0x7fff_ffff
  const MinInt32: int32 := -0x8000_0000

  /** Java's `x + 1` on an `int`: Integer.MAX_VALUE wraps to Integer.MIN_VALUE. */
  function Inc(x: int32): (r: int32)
    ensures x < MaxInt32 ==> r as int == x as int + 1
    ensures x == MaxInt32 ==> r == MinInt32
  {
    if x == MaxInt32 then MinInt32 else x + 1
  }
}
