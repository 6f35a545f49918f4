/**
 Shared vocabulary: bytes, the integer widths of the on-disk format, error codes and results.
 */
module Basics {

  type byte = x: int | 0 <= x < 0x100
  type u16 = x: int | 0 <= x < 0x1_0000
  type u32 = x: int | 0 <= x < 0x1_0000_0000
  type u64 = x: int | 0 <= x < 0x1_0000_0000_0000_0000

  const U32_MAX: int := 0xFFFF_FFFF
  const U64_MAX: int := 0xFFFF_FFFF_FFFF_FFFF
  /** The largest value of a signed 64-bit file offset. */
  const OFF_MAX: int := 0x7FFF_FFFF_FFFF_FFFF

  datatype Errno =
    EAGAIN | EBADF | EBUSY | EEXIST | EFBIG | EINVAL | EIO | ENOENT | ENOMEM | EOVERFLOW | ESTALE

  datatype Option<+T> = None | Some(value: T)

  datatype Result<+T> = Ok(value: T) | Err(error: Errno)

  function Min(a: int, b: int): int { if a < b then a else b }

  function Max(a: int, b: int): int { if a > b then a else b }

  function Zeros(n: nat): (r: seq<byte>)
    ensures |r| == n && forall i :: 0 <= i < n ==> r[i] == 0
  {
    seq(n, _ => 0)
  }
}
