/** Machine-level notions shared by the components. */
module Machine {

  newtype byte = x: int | 0 <= x < 256

  datatype Option<+T> = None | Some(value: T)

  /** Result codes of the kernel calls; `Blocked` says that the caller was put on a wait list. */
  datatype Err = EOK | ERROR | ETIMEOUT | EFULL | EINVAL | Blocked

  const ALIGN_SIZE := 8

  /** RT_ALIGN(size, 8), for sizes whose rounding does not leave the machine word. */
  function Align(size: nat): (r: nat)
    ensures r % ALIGN_SIZE == 0 && size <= r < size + ALIGN_SIZE
  {
    (size + ALIGN_SIZE - 1) / ALIGN_SIZE * ALIGN_SIZE
  }

  /** RT_ALIGN_DOWN(size, 8). */
  function AlignDown(size: nat): (r: nat)
    ensures r % ALIGN_SIZE == 0 && r <= size < r + ALIGN_SIZE
  {
    size / ALIGN_SIZE * ALIGN_SIZE
  }

  function Min(a: nat, b: nat): nat { if a < b then a else b }

  function Max(a: int, b: int): int { if a < b then b else a }
}
