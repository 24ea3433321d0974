/** Types shared by every module: bytes, machine limits and the usual option type. */
module Base {
  type byte = x: int | 0 <= x < 256

  const LF: byte := 10
  const CR: byte := 13

  /** `usize::MAX` and the longest slice a 64-bit host can hold (`isize::MAX`). */
  const USIZE_MAX: nat := 0xFFFF_FFFF_FFFF_FFFF
  const ISIZE_MAX: nat := 0x7FFF_FFFF_FFFF_FFFF

  datatype Option<+T> = None | Some(value: T)

  function Min(a: int, b: int): int { if a <= b then a else b }
  function Max(a: int, b: int): int { if a <= b then b else a }

  /** `usize` addition and multiplication that report overflow. */
  function CheckedAdd(a: nat, b: nat): Option<nat> {
    if a + b <= USIZE_MAX then Some(a + b) else None
  }
  function CheckedMul(a: nat, b: nat): Option<nat> {
    if a * b <= USIZE_MAX then Some(a * b) else None
  }
}
