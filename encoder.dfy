/**
 * The choice of image format and quality in `processImage`, the `imageIdx`
 * counter, and the cursor send path. The encoders themselves (GDI+ PNG and
 * JPEG, libwebp) are outside the model: what they produce for a bitmap is given.
 */
module Encoder {
  import opened Native
  import opened Regulator

  // IMAGE_ENCODING: what the browser asked for
  const ENCODING_AUTO: int := 0
  const ENCODING_PNG: int := 1
  const ENCODING_JPEG: int := 2
  const ENCODING_WEBP: int := 3

  // IMAGE_FORMAT: what an image frame holds
  const FORMAT_CUR: int := 0
  const FORMAT_PNG: int := 1
  const FORMAT_JPEG: int := 2
  const FORMAT_WEBP: int := 3

  // IMAGE_QUALITY, in percent
  const QUALITY_LOW: int := 10
  const QUALITY_MEDIUM: int := 25
  const QUALITY_HIGH: int := 50
  const QUALITY_HIGHER: int := 75
  const QUALITY_HIGHEST: int := 100

  /** What the encoders write into their streams for one bitmap. */
  datatype Encoded = Encoded(png: seq<byte>, jpeg: seq<byte>, webp: seq<byte>)

  /** The stream `processImage` sends, with its format and quality. */
  datatype Choice = Choice(format: int, quality: int, data: seq<byte>)

  /** An image `sendImage` is called with. */
  datatype ImageSend = ImageSend(
    idx: int, posX: int, posY: int, width: int, height: int,
    format: int, quality: int, data: seq<byte>, fullscreen: bool)

  /** The quality before the format is chosen: lossless for PNG, higher for adaptive full-screen updates, else the browser's. */
  function InitialQuality(encoding: int, imageQuality: int, fullscreen: bool, adaptive: bool): int {
    if encoding == ENCODING_PNG then QUALITY_HIGHEST
    else if fullscreen && adaptive then QUALITY_HIGHER
    else imageQuality
  }

  /**
   * The stream `processImage` picks: PNG when asked for, or in AUTO mode when
   * it is no larger than the JPEG; JPEG otherwise; WEBP when asked for. An
   * unknown encoding leaves no stream.
   */
  function SelectImage(encoding: int, imageQuality: int, fullscreen: bool, adaptive: bool, e: Encoded): Option<Choice> {
    var quality := InitialQuality(encoding, imageQuality, fullscreen, adaptive);
    if encoding == ENCODING_PNG || encoding == ENCODING_JPEG || encoding == ENCODING_AUTO then
      if encoding == ENCODING_PNG || (encoding == ENCODING_AUTO && |e.png| <= |e.jpeg|) then
        Some(Choice(FORMAT_PNG, QUALITY_HIGHEST, e.png))
      else
        Some(Choice(FORMAT_JPEG, quality, e.jpeg))
    else if encoding == ENCODING_WEBP then
      Some(Choice(FORMAT_WEBP, quality, e.webp))
    else
      None
  }

  /** The format selection, case by case. */
  lemma SelectImageCases(encoding: int, imageQuality: int, fullscreen: bool, adaptive: bool, e: Encoded)
    ensures var r := SelectImage(encoding, imageQuality, fullscreen, adaptive, e);
      var q := InitialQuality(encoding, imageQuality, fullscreen, adaptive);
      (r.None? <==> !(0 <= encoding <= 3)) &&
      (r.Some? && r.value.format == FORMAT_PNG <==>
        encoding == ENCODING_PNG || (encoding == ENCODING_AUTO && |e.png| <= |e.jpeg|)) &&
      (r.Some? && r.value.format == FORMAT_PNG ==> r.value.quality == 100 && r.value.data == e.png) &&
      (r.Some? && r.value.format == FORMAT_JPEG <==>
        encoding == ENCODING_JPEG || (encoding == ENCODING_AUTO && |e.png| > |e.jpeg|)) &&
      (r.Some? && r.value.format == FORMAT_JPEG ==> r.value.quality == q && r.value.data == e.jpeg) &&
      (r.Some? && r.value.format == FORMAT_WEBP <==> encoding == ENCODING_WEBP) &&
      (r.Some? && r.value.format == FORMAT_WEBP ==> r.value.quality == q && r.value.data == e.webp)
  {
  }

  /** In AUTO mode the smaller of the PNG and JPEG streams is sent, the PNG on a tie. */
  lemma AutoPicksSmaller(imageQuality: int, fullscreen: bool, adaptive: bool, e: Encoded)
    ensures var r := SelectImage(ENCODING_AUTO, imageQuality, fullscreen, adaptive, e);
      r.Some? && |r.value.data| <= |e.png| && |r.value.data| <= |e.jpeg| &&
      (|e.png| == |e.jpeg| ==> r.value.format == FORMAT_PNG)
  {
  }

  /**
   * `processImage` after the encoders ran: `imageIdx` is reset at `INT_MAX`,
   * and a non-empty stream is sent as the next image, its sides from the region.
   */
  function ProcessImage(idx: int, encoding: int, imageQuality: int, left: int, top: int, right: int, bottom: int,
                        fullscreen: bool, adaptive: bool, e: Encoded): (int, Option<ImageSend>)
  {
    var choice := SelectImage(encoding, imageQuality, fullscreen, adaptive, e);
    var idx0 := if idx == INT_MAX then 0 else idx;
    if choice.Some? && |choice.value.data| > 0 then
      var c := choice.value;
      (idx0 + 1, Some(ImageSend(idx0 + 1, left, top, right - left, bottom - top, c.format, c.quality, c.data, fullscreen)))
    else
      (idx0, None)
  }

  /**
   * An image is sent exactly when a stream was chosen and is not empty; it
   * carries the next index and the chosen stream. Nothing else moves the
   * index but its reset at `INT_MAX`, so it stays in `0..INT_MAX` and an
   * image sent is numbered `1..INT_MAX`.
   */
  lemma ProcessImageSpec(idx: int, encoding: int, imageQuality: int, left: int, top: int, right: int, bottom: int,
                         fullscreen: bool, adaptive: bool, e: Encoded)
    requires 0 <= idx <= INT_MAX
    ensures var (idx', sent) := ProcessImage(idx, encoding, imageQuality, left, top, right, bottom, fullscreen, adaptive, e);
      var choice := SelectImage(encoding, imageQuality, fullscreen, adaptive, e);
      (sent.Some? <==> choice.Some? && |choice.value.data| > 0) &&
      (sent.Some? ==>
        (idx' == NextCount(idx) && sent.value.idx == idx' && 1 <= idx' <= INT_MAX &&
         sent.value.format == choice.value.format && sent.value.quality == choice.value.quality &&
         sent.value.data == choice.value.data && sent.value.fullscreen == fullscreen &&
         sent.value.posX == left && sent.value.posY == top &&
         sent.value.width == right - left && sent.value.height == bottom - top)) &&
      (sent.None? ==> idx' == (if idx == INT_MAX then 0 else idx)) &&
      0 <= idx' <= INT_MAX
  {
    NextCountInRange(idx);
  }

  /** The region `wf_myrtille_send_screen` captures: the client size when scaling, the desktop otherwise. */
  function ScreenRect(scaleDisplay: bool, cw: int, ch: int, dw: int, dh: int): (r: Rect)
    ensures r.left == 0 && r.top == 0
    ensures scaleDisplay ==> r.right == cw && r.bottom == ch
    ensures !scaleDisplay ==> r.right == dw && r.bottom == dh
  {
    if scaleDisplay then Rect(0, 0, cw, ch) else Rect(0, 0, dw, dh)
  }

  /**
   * The send step of `wf_myrtille_send_cursor`: only a cursor with both a
   * transparent mask and a visible pixel is sent, as a lossless image at its
   * hotspot; the index is reset at `INT_MAX` only on that path.
   */
  function ProcessCursor(idx: int, transparent: bool, color: bool, png: seq<byte>,
                         hotX: int, hotY: int, width: int, height: int): (int, Option<ImageSend>)
  {
    if !(transparent && color) then (idx, None)
    else
      var idx0 := if idx == INT_MAX then 0 else idx;
      if |png| > 0 then (idx0 + 1, Some(ImageSend(idx0 + 1, hotX, hotY, width, height, FORMAT_CUR, QUALITY_HIGHEST, png, false)))
      else (idx0, None)
  }

  lemma ProcessCursorSpec(idx: int, transparent: bool, color: bool, png: seq<byte>, hotX: int, hotY: int, width: int, height: int)
    requires 0 <= idx <= INT_MAX
    ensures var (idx', sent) := ProcessCursor(idx, transparent, color, png, hotX, hotY, width, height);
      (sent.Some? <==> transparent && color && |png| > 0) &&
      (sent.Some? ==>
        (idx' == NextCount(idx) && sent.value.idx == idx' &&
         sent.value.format == FORMAT_CUR && sent.value.quality == 100 && !sent.value.fullscreen &&
         sent.value.data == png && sent.value.posX == hotX && sent.value.posY == hotY)) &&
      (!(transparent && color) ==> idx' == idx) &&
      0 <= idx' <= INT_MAX
  {
    NextCountInRange(idx);
  }
}
