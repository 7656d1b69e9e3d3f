/** Machine words, optional results and small sequence facts shared by the models. */
module Base {

  const TWO32 := 0x1_0000_0000

  /** An rt_uint32_t. */
  type u32 = x: int | 0 <= x < TWO32

  /** A u_char. */
  type byte = x: int | 0 <= x < 256

  datatype Option<+T> = None | Some(value: T) {
    predicate IsFailure() {
      None?
    }

    function PropagateFailure<U>(): Option<U>
      requires None?
    {
      None
    }

    function Extract(): T
      requires Some?
    {
      value
    }
  }

  /** The value of a word read as a two's complement long. */
  function Signed(x: u32): int {
    if x < 0x8000_0000 then x else x - TWO32
  }

  /** The word holding the low 32 bits of an integer. */
  function Wrap(x: int): u32 {
    x % TWO32
  }
}
