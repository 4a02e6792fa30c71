/** Small things that several modules use. */
module Common {
  datatype Option<T> = None | Some(value: T)

  type Byte = x: nat | x < 256

  function Min(a: int, b: int): int { if b < a then b else a }
  function Max(a: int, b: int): int { if a < b then b else a }
}
