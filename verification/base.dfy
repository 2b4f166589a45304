/** Types shared by the three variants of the CSV aggregator. */
module Base {

  /** One byte of an input line or of a CSV field (Go strings are byte strings). */
  type Byte = b: int | 0 <= b < 256

  type Bytes = seq<Byte>

  /** A grouping key: the bytes of one CSV field, or one name cut out of a line. */
  type Key = Bytes

  /** The byte ',' */
  const Comma: Byte := 44

  /** The run-time failures of the Go programs; each one is a panic that ends the run. */
  datatype Error =
    | ReadFailed       // reader.Read returned an error other than io.EOF
    | MissingColumn    // rec[AggColNo] on a record with fewer than AggColNo + 1 fields
    | IndexOutOfRange  // an index past the end of a slice
    | SliceOutOfRange  // a slice expression whose bounds fall outside the line
    | DivideByZero     // an integer `%` by zero

  /** A value, or the panic that prevented it. */
  datatype Result<+T> = Success(value: T) | Failure(error: Error) {
    predicate IsFailure() { Failure? }

    function PropagateFailure<U>(): Result<U>
      requires Failure?
    {
      Failure(error)
    }

    function Extract(): T
      requires Success?
    {
      value
    }
  }

  function Min(a: int, b: int): (r: int)
  {
    if a < b then a else b
  }

  /** The concatenation of a sequence of sequences, in order. */
  function Concat<T>(ss: seq<seq<T>>): (r: seq<T>)
  {
    if |ss| == 0 then [] else Concat(ss[..|ss| - 1]) + ss[|ss| - 1]
  }
}
