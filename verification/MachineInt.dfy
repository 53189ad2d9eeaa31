/** Bytes and the machine's integer widths. */
module MachineInt {
  type Byte = b: int | 0 <= b < 256

  predicate IsInt32(n: int) {
    -0x8000_0000 <= n < 0x8000_0000
  }

  /** What `alloc_int` keeps of a C `int`: the top bit is shifted out. */
  function Wrap31(n: int): (r: int)
    ensures -0x4000_0000 <= r < 0x4000_0000
    ensures -0x4000_0000 <= n < 0x4000_0000 ==> r == n
  {
    (n + 0x4000_0000) % 0x8000_0000 - 0x4000_0000
  }
}
