/**
 * The wire codec shared by every channel: a 32-bit integer as 4 little-endian
 * bytes (`int32ToBytes` / `bytesToInt32`), and text as UTF-16LE code units.
 */
module Wire {
  import opened Native

  /** `v >> 8k` on a two's complement `int`: an arithmetic shift, i.e. a floor division, 8 bits at a time. */
  function Shr8(v: int, k: nat): int {
    if k == 0 then v else Shr8(v, k - 1) / 0x100
  }

  /** Byte `k` written by `int32ToBytes`: `(value >> 8k) & 0xFF`. */
  function ByteAt(v: int, k: nat): byte {
    Shr8(v, k) % 0x100
  }

  /** The 4 bytes `int32ToBytes(v, offset, buf)` stores at `buf[offset..offset + 4]`. */
  function Int32Bytes(v: int): seq<byte> {
    [ByteAt(v, 0), ByteAt(v, 1), ByteAt(v, 2), ByteAt(v, 3)]
  }

  /** The 32-bit pattern `b[0] | b[1] << 8 | b[2] << 16 | b[3] << 24` (the four bytes occupy disjoint bits). */
  function Unsigned32(b: seq<byte>): (u: nat)
    requires |b| >= 4
    ensures u < TWO32
  {
    b[0] as int + 0x100 * (b[1] as int) + 0x1_0000 * (b[2] as int) + 0x100_0000 * (b[3] as int)
  }

  /** `bytesToInt32`: the first 4 bytes read little-endian, as a signed `int`. */
  function BytesToInt32(b: seq<byte>): (v: int)
    requires |b| >= 4
    ensures IsInt32(v)
    ensures v >= 0 <==> b[3] < 0x80
  {
    ToInt32(Unsigned32(b))
  }

  /** The bytes of `Int32Bytes(v)`, read back unsigned, are `v` modulo 2^32: the low 32 bits. */
  lemma LowBits(v: int)
    ensures Unsigned32(Int32Bytes(v)) == v % TWO32
  {
    var q1, q2, q3, q4 := Shr8(v, 1), Shr8(v, 2), Shr8(v, 3), Shr8(v, 3) / 0x100;
    assert v == 0x100 * q1 + ByteAt(v, 0);
    assert q1 == 0x100 * q2 + ByteAt(v, 1);
    assert q2 == 0x100 * q3 + ByteAt(v, 2);
    assert q3 == 0x100 * q4 + ByteAt(v, 3);
    assert v == Unsigned32(Int32Bytes(v)) + TWO32 * q4;
  }

  /** Decoding what `int32ToBytes` wrote gives the value back, for every 32-bit `int`. */
  lemma Int32RoundTrip(v: int)
    requires IsInt32(v)
    ensures BytesToInt32(Int32Bytes(v)) == v
  {
    LowBits(v);
    var u := v % TWO32;
    assert u == if v >= 0 then v else v + TWO32;
    assert u % TWO32 == u;
  }

  /** Conversely, every 4-byte sequence is what `int32ToBytes` writes for the value it decodes to. */
  lemma BytesRoundTrip(b: seq<byte>)
    requires |b| == 4
    ensures Int32Bytes(BytesToInt32(b)) == b
  {
    var v := BytesToInt32(b);
    var u := Unsigned32(b);
    assert u % TWO32 == u;
    assert v == u - (if b[3] >= 0x80 then TWO32 else 0);
    var x3 := b[3] as int - (if b[3] >= 0x80 then 0x100 else 0);
    var x2 := b[2] as int + 0x100 * x3;
    var x1 := b[1] as int + 0x100 * x2;
    assert v == b[0] as int + 0x100 * x1;
    DivMod(b[0] as int, x1);
    assert Shr8(v, 1) == x1;
    DivMod(b[1] as int, x2);
    assert Shr8(v, 2) == x2;
    DivMod(b[2] as int, x3);
    assert Shr8(v, 3) == x3;
    DivMod(b[3] as int, if b[3] >= 0x80 then -1 else 0);
  }

  /** Division by 256 splits off the low byte. */
  lemma DivMod(a: int, q: int)
    requires 0 <= a < 0x100
    ensures (a + 0x100 * q) / 0x100 == q && (a + 0x100 * q) % 0x100 == a
  {
  }

  /** `int32ToBytes` on an argument wider than 32 bits (a `size_t`) writes its low 32 bits. */
  lemma Int32BytesWraps(v: int)
    ensures Int32Bytes(v) == Int32Bytes(ToInt32(v))
  {
    var b := Int32Bytes(v);
    LowBits(v);
    assert (v % TWO32) % TWO32 == v % TWO32;
    assert BytesToInt32(b) == ToInt32(v);
    BytesRoundTrip(b);
  }

  /**
   * `int32ToBytes(value, offset, bytes)`: writes the 4 little-endian bytes of
   * `value` at `offset`, leaving the rest of the buffer as it was.
   */
  method Int32ToBytes(value: int, offset: nat, bytes: array<byte>)
    requires offset + 4 <= bytes.Length
    modifies bytes
    ensures bytes[..] == old(bytes[..])[..offset] + Int32Bytes(value) + old(bytes[..])[offset + 4..]
  {
    bytes[offset] := value % 0x100;
    bytes[offset + 1] := (value / 0x100) % 0x100;
    bytes[offset + 2] := (value / 0x100 / 0x100) % 0x100;
    bytes[offset + 3] := (value / 0x100 / 0x100 / 0x100) % 0x100;
  }

  /** The bytes of a `std::wstring` in memory: each code unit low byte first (UTF-16LE). */
  function Utf16Le(units: seq<uint16>): (b: seq<byte>)
    ensures |b| == 2 * |units|
  {
    if units == [] then [] else [units[0] % 0x100, units[0] / 0x100] + Utf16Le(units[1..])
  }

  /** The code units a little-endian byte buffer holds, two bytes each; a trailing odd byte is not part of any unit. */
  function Utf16LeUnits(b: seq<byte>): (units: seq<uint16>)
    ensures |units| == |b| / 2
  {
    if |b| < 2 then [] else [b[0] as int + 0x100 * (b[1] as int)] + Utf16LeUnits(b[2..])
  }

  /** Reading the code units back from their UTF-16LE bytes gives the text back. */
  lemma {:induction false} Utf16LeRoundTrip(units: seq<uint16>)
    ensures Utf16LeUnits(Utf16Le(units)) == units
  {
    if units != [] {
      Utf16LeRoundTrip(units[1..]);
      var b := Utf16Le(units);
      assert b[2..] == Utf16Le(units[1..]);
    }
  }
}
