// Datatypes shared by every component model.
module Common {

  datatype Option<+T> = None | Some(value: T)

  datatype Result<+T, +E> = Ok(value: T) | Err(error: E)

  // An unsigned eight-bit value. Texts the helper handles as UTF-8 are byte sequences.
  type byte = x: int | 0 <= x < 256

  type Bytes = seq<byte>

  const U64_MAX: nat := 0xFFFF_FFFF_FFFF_FFFF

  const U32_MAX: nat := 0xFFFF_FFFF

  // The largest integer that JSON numbers carry exactly.
  const MAX_SAFE_INTEGER: nat := 9_007_199_254_740_991

  function Min(a: int, b: int): int { if a <= b then a else b }

  function Max(a: int, b: int): int { if a <= b then b else a }
}
