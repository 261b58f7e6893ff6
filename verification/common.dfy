/** Machine-level types, error kinds and the abstract view of a file that
    both record engines share. */
module Common {

  /** One byte of a buffer. */
  type byte = x: int | 0 <= x < 0x100

  /** The source's fixed-width integer types. */
  type u8 = byte
  type u16 = x: int | 0 <= x < 0x1_0000
  type u32 = x: int | 0 <= x < 0x1_0000_0000
  type u64 = x: int | 0 <= x < 0x1_0000_0000_0000_0000
  type i64 = x: int | -0x8000_0000_0000_0000 <= x < 0x8000_0000_0000_0000

  /** A byte buffer whose length fits a `size_t`. */
  type Buffer = s: seq<byte> | |s| < 0x1_0000_0000_0000_0000

  /** The exceptions the core raises: `std::runtime_error` when a file
      cannot be opened and `std::out_of_range` from the bounds checks. */
  datatype Error = IoError | OutOfRange

  datatype Result<+T> = Ok(value: T) | Err(error: Error)

  datatype Option<+T> = None | Some(value: T)

  /** The result of an operation that returns nothing but may throw. */
  datatype Outcome = Pass | Fail(error: Error)

  /** What the file system holds at a path when the core opens it. */
  datatype FileContents = Unopenable | Contents(bytes: Buffer)

  function Min(a: int, b: int): int
  {
    if a <= b then a else b
  }
}
