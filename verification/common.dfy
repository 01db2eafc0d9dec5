/** What every part of the model uses. */
module Common {

  datatype Option<+T> = None | Some(value: T)

  type uint8 = x: int | 0 <= x < 0x100
  type byte = uint8

  const PAGE_SIZE: nat := 4096

  lemma MulMono(c: nat, a: int, b: int)
    requires a <= b
    ensures c * a <= c * b
  {
  }
}
