// What several modules share: an optional value, what may become of a call to a
// server, and the 32-bit counters the program keeps.
module Basics {
  datatype Option<+T> = None | Some(value: T)

  /** A call is carried out, refused, or carried out with its answer lost. */
  datatype Answer = Done | Refused | Lost

  /** Every call with numbers from lo below hi was carried out and said so. */
  ghost predicate AllDone(answers: nat -> Answer, lo: nat, hi: nat) {
    forall c: nat :: lo <= c < hi ==> answers(c) == Done
  }

  const MAX_UINT32: nat := 0xFFFF_FFFF

  /** Conversion to a 32-bit unsigned integer, which keeps the low 32 bits. */
  function Uint32(x: int): (r: nat)
    ensures r <= MAX_UINT32
    ensures 0 <= x <= MAX_UINT32 ==> r == x
  {
    x % 0x1_0000_0000
  }
}
