/** What several modules share. */
module Basics {

  const U32_MAX: nat := 0xFFFF_FFFF
  const U64_MAX: nat := 0xFFFF_FFFF_FFFF_FFFF

  datatype Option<+T> = None | Some(value: T)

  /** What reading from the front of a sequence gives: a value and the rest,
      or nothing when it cannot be read. */
  datatype Read<+E, +T> = Got(value: T, rest: seq<E>) | Bad

  type byte = b: int | 0 <= b < 256

  /** The six bits a continuation byte carries. */
  function Low6(b: byte): (n: nat)
    ensures n < 64
  {
    b % 64
  }

  lemma Assoc<X>(a: seq<X>, b: seq<X>, c: seq<X>)
    ensures a + b + c == a + (b + c)
  {
  }
}
