// Shared value types: bytes, and the outcome of an operation that may throw.
module Types {
  // A byte of a C++ std::string, read as unsigned.
  type byte = b: int | 0 <= b < 256

  type bytes = seq<byte>

  datatype Option<+T> = None | Some(value: T)

  const INT_MAX: int := 0x7fff_ffff

  function Indices(n: nat): (xs: seq<nat>)
    ensures |xs| == n && forall i :: 0 <= i < n ==> xs[i] == i
  {
    seq(n, i => i)
  }

  // The result of an operation that throws in the source.
  datatype Result<+T, +E> = Ok(value: T) | Err(error: E)
}
