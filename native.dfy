/** Machine integers of the Windows client, written out over Dafny's unbounded `int`. */
module Native {

  datatype Option<T> = None | Some(value: T)

  /** An unsigned 8-bit value (`byte`, `BYTE`). */
  type byte = b: int | 0 <= b < 0x100

  /** A UTF-16 code unit (`wchar_t` is 16 bits wide on Windows). */
  type uint16 = c: int | 0 <= c < 0x1_0000

  /** An unsigned 32-bit value (`UINT`, `DWORD`, `ULONG`). */
  type uint32 = x: int | 0 <= x < 0x1_0000_0000

  const TWO32: int := 0x1_0000_0000
  const INT_MAX: int := 0x7FFF_FFFF
  const INT_MIN: int := -0x8000_0000

  predicate IsInt32(v: int) {
    INT_MIN <= v <= INT_MAX
  }

  /** The value a 32-bit `int` holds after a conversion from a wider integer (two's complement). */
  function ToInt32(v: int): (r: int)
    ensures IsInt32(r)
    ensures (r - v) % TWO32 == 0
    ensures IsInt32(v) ==> r == v
  {
    var u := v % TWO32;
    if u > INT_MAX then u - TWO32 else u
  }

  /** The value a `DWORD` holds after a conversion from an `int`. */
  function ToDword(v: int): (r: uint32)
    ensures (r - v) % TWO32 == 0
    ensures 0 <= v ==> r == v || v >= TWO32
  {
    v % TWO32
  }

  function Abs(x: int): nat {
    if x < 0 then -x else x
  }

  /** C's `/` on `int`: the quotient is truncated toward zero (Dafny's `/` is Euclidean). */
  function CDiv(a: int, b: int): (q: int)
    requires b != 0
    ensures 0 <= a && 0 < b ==> q == a / b
  {
    var m := Abs(a) / Abs(b);
    if (a < 0) == (b < 0) then m else -m
  }
}
