/** Machine integers, byte buffers and the two wrapper types used throughout the model. */
module Prelude {

  type byte = b: int | 0 <= b < 256
  type bytes = seq<byte>
  type u32 = x: int | 0 <= x < 0x1_0000_0000
  type u64 = x: int | 0 <= x < 0x1_0000_0000_0000_0000

  datatype Option<+T> = None | Some(value: T)

  /** The outcome of an operation that may throw: `Err` carries the text of the exception. */
  datatype Result<+T> = Ok(value: T) | Err(message: string) {

    predicate IsFailure() {
      Err?
    }

    function PropagateFailure<U>(): Result<U>
      requires Err?
    {
      Err(message)
    }

    function Extract(): T
      requires Ok?
    {
      value
    }
  }

  /** `static_cast<std::uint32_t>` of a size. */
  function TruncateU32(n: nat): u32 {
    n % 0x1_0000_0000
  }
}
