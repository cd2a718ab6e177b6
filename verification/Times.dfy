/** Points in time and time offsets, as 64-bit signed counts of microseconds. */
module Times {

  // Infinite is the largest 64-bit signed value; it is an ordinary value to every comparison.
  const INFINITE := 0x7fff_ffff_ffff_ffff

  // A time or an offset.  Being a subset type, every sum the model computes is checked not to overflow.
  type Time = t: int | -0x8000_0000_0000_0000 <= t <= INFINITE

  const MILLISECOND := 1000
}
