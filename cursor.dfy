/**
 * The transparency pass of `wf_myrtille_send_cursor`: the cursor is drawn
 * over a blue mask into a 32-bit ARGB bitmap, then every pixel is visited,
 * the mask made transparent and yellow turned to black, and the pass notes
 * whether it saw a mask pixel and a pixel of the cursor itself.
 */
module Cursor {
  import opened Native

  /** The blue, green, red and alpha channels of an ARGB pixel. */
  function Blue(c: uint32): byte { c % 0x100 }
  function Green(c: uint32): byte { (c / 0x100) % 0x100 }
  function Red(c: uint32): byte { (c / 0x1_0000) % 0x100 }
  function Alpha(c: uint32): byte { c / 0x100_0000 }

  /** The blue of the brush the cursor is drawn over, whatever its alpha. */
  predicate IsMask(c: uint32) {
    Red(c) == 0 && Green(c) == 0 && Blue(c) == 255
  }

  predicate IsYellow(c: uint32) {
    Red(c) == 255 && Green(c) == 255 && Blue(c) == 0
  }

  const TRANSPARENT_WHITE: uint32 := 0x00ff_ffff
  const OPAQUE_BLACK: uint32 := 0xff00_0000

  /** The pixel after the pass: the mask becomes transparent, yellow becomes black, every other pixel is kept. */
  function MaskPixel(c: uint32): uint32 {
    if IsMask(c) then TRANSPARENT_WHITE
    else if IsYellow(c) then OPAQUE_BLACK
    else c
  }

  /**
   * A mask pixel ends fully transparent, a yellow pixel opaque black, any
   * other pixel as it was; afterwards no pixel is mask blue or yellow, so a
   * second pass changes nothing.
   */
  lemma MaskPixelSpec(c: uint32)
    ensures IsMask(c) ==> Alpha(MaskPixel(c)) == 0
    ensures IsYellow(c) ==> Alpha(MaskPixel(c)) == 255 && Red(MaskPixel(c)) == 0 && Green(MaskPixel(c)) == 0 && Blue(MaskPixel(c)) == 0
    ensures !IsMask(c) && !IsYellow(c) ==> MaskPixel(c) == c
    ensures !IsMask(MaskPixel(c)) && !IsYellow(MaskPixel(c))
    ensures MaskPixel(MaskPixel(c)) == MaskPixel(c)
  {
  }

  /**
   * The pass over `bmpBits`, column by column: each pixel is replaced by its
   * masked value; `transparent` says a mask pixel was seen, `color` that a
   * pixel of the cursor was. The bitmap is 32 bits per pixel, so a row of
   * the locked data is `width` pixels and `bmpBits[y * stride / 4 + x]` is
   * `bits[y, x]`.
   */
  method MaskCursor(bits: array2<uint32>) returns (transparent: bool, color: bool)
    modifies bits
    ensures forall y, x :: 0 <= y < bits.Length0 && 0 <= x < bits.Length1 ==> bits[y, x] == MaskPixel(old(bits[y, x]))
    ensures transparent <==> exists y, x :: 0 <= y < bits.Length0 && 0 <= x < bits.Length1 && IsMask(old(bits[y, x]))
    ensures color <==> exists y, x :: 0 <= y < bits.Length0 && 0 <= x < bits.Length1 && !IsMask(old(bits[y, x]))
  {
    transparent, color := false, false;
    for x := 0 to bits.Length1
      invariant forall y, x' :: 0 <= y < bits.Length0 && 0 <= x' < x ==> bits[y, x'] == MaskPixel(old(bits[y, x']))
      invariant forall y, x' :: 0 <= y < bits.Length0 && x <= x' < bits.Length1 ==> bits[y, x'] == old(bits[y, x'])
      invariant transparent <==> exists y, x' :: 0 <= y < bits.Length0 && 0 <= x' < x && IsMask(old(bits[y, x']))
      invariant color <==> exists y, x' :: 0 <= y < bits.Length0 && 0 <= x' < x && !IsMask(old(bits[y, x']))
    {
      var t, c := MaskColumn(bits, x);
      transparent, color := transparent || t, color || c;
    }
  }

  /** The inner loop of the pass: column `x`, top to bottom. */
  method MaskColumn(bits: array2<uint32>, x: nat) returns (transparent: bool, color: bool)
    requires x < bits.Length1
    modifies bits
    ensures forall y :: 0 <= y < bits.Length0 ==> bits[y, x] == MaskPixel(old(bits[y, x]))
    ensures forall y, x' :: 0 <= y < bits.Length0 && 0 <= x' < bits.Length1 && x' != x ==> bits[y, x'] == old(bits[y, x'])
    ensures transparent <==> exists y :: 0 <= y < bits.Length0 && IsMask(old(bits[y, x]))
    ensures color <==> exists y :: 0 <= y < bits.Length0 && !IsMask(old(bits[y, x]))
  {
    transparent, color := false, false;
    for y := 0 to bits.Length0
      invariant forall y' :: 0 <= y' < y ==> bits[y', x] == MaskPixel(old(bits[y', x]))
      invariant forall y', x' :: 0 <= y' < bits.Length0 && 0 <= x' < bits.Length1 && (x' != x || y' >= y) ==> bits[y', x'] == old(bits[y', x'])
      invariant transparent <==> exists y' :: 0 <= y' < y && IsMask(old(bits[y', x]))
      invariant color <==> exists y' :: 0 <= y' < y && !IsMask(old(bits[y', x]))
    {
      var c := bits[y, x];
      if IsMask(c) {
        bits[y, x] := TRANSPARENT_WHITE;
        transparent := true;
      } else {
        if IsYellow(c) {
          bits[y, x] := OPAQUE_BLACK;
        }
        color := true;
      }
    }
  }
}
