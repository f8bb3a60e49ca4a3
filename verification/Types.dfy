/**
Constants and types that several parts of the kernel share (src/include/types.h, src/kernel/memory/paging.h).
*/
module Types {
  const PAGE_SIZE := 4096
  const WORD_RANGE := 0x1_0000_0000

  datatype Status = Success | Failure | BadParam | EmptyQueue | NotFound | BadPrio

  // The number of the 4 KiB frame that an address, or a table entry with its flags, is in.
  function FrameOf(address: nat): nat { address / PAGE_SIZE }

  function Pow2(n: nat): (p: nat)
    ensures p >= 1
  {
    if n == 0 then 1 else 2 * Pow2(n - 1)
  }
}
