/** Fixed-width C integer types and small helpers shared by every module. */
module Types {

  /** uint8_t */
  type Byte = x: int | 0 <= x < 0x100
  /** uint16_t */
  type Uint16 = x: int | 0 <= x < 0x1_0000
  /** int8_t */
  type Int8 = x: int | -0x80 <= x < 0x80

  datatype Option<T> = None | Some(value: T)

  function Min(a: int, b: int): int
  {
    if a < b then a else b
  }

  /** `x++` / `x--` on a uint8_t: the result wraps modulo 256. */
  function WrapByte(x: int): (r: Byte)
    ensures 0 <= x < 0x100 ==> r == x
    ensures x == 0x100 ==> r == 0
    ensures x == -1 ==> r == 0xFF
  {
    x % 0x100
  }

  /** Conversion of an int to a uint16_t parameter: the value wraps modulo 65536. */
  function WrapUint16(x: int): (r: Uint16)
    ensures 0 <= x < 0x1_0000 ==> r == x
  {
    x % 0x1_0000
  }

  /** `n` copies of `x`. */
  function Repeat<T>(x: T, n: nat): (r: seq<T>)
    ensures |r| == n
    ensures forall i :: 0 <= i < n ==> r[i] == x
  {
    if n == 0 then [] else Repeat(x, n - 1) + [x]
  }

  lemma AppendAssoc<T>(a: seq<T>, b: seq<T>, c: seq<T>)
    ensures a + b + c == a + (b + c)
  {
  }
}
