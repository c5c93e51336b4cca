/**
 * What the bridge writes to the updates pipe: image frames (`sendImage`),
 * text messages (`sendMessage`) and the server clipboard message built by
 * `wf_myrtille_send_server_clipboard`.
 */
module Framing {
  import opened Native
  import opened Wire
  import opened Text
  import opened Encoder

  // ------------------------------------------------------------------ images

  /** The ten 32-bit fields of the 40-byte image header, in order. */
  function HeaderFields(s: ImageSend): seq<int> {
    [|s.data| + 36, 0, s.idx, s.posX, s.posY, s.width, s.height, s.format, s.quality, if s.fullscreen then 1 else 0]
  }

  /** The little-endian encoding of a list of 32-bit fields. */
  function Fields32(fs: seq<int>): (b: seq<byte>)
    ensures |b| == 4 * |fs|
  {
    if fs == [] then [] else Int32Bytes(fs[0]) + Fields32(fs[1..])
  }

  /** The 40-byte header `sendImage` writes: the frame length after the length field, a 0 tag, then the image information. */
  function ImageHeader(s: ImageSend): seq<byte> {
    Fields32(HeaderFields(s))
  }

  /** The frame `sendImage` writes to the updates pipe: the header, then the image stream. */
  function ImageFrame(s: ImageSend): seq<byte> {
    ImageHeader(s) + s.data
  }

  /** The field at position `k` of a list of little-endian 32-bit fields. */
  lemma {:induction false} Fields32At(fs: seq<int>, k: nat)
    requires k < |fs|
    ensures Fields32(fs)[4 * k..4 * k + 4] == Int32Bytes(fs[k])
  {
    if k > 0 {
      Fields32At(fs[1..], k - 1);
      assert Fields32(fs)[4 * k..4 * k + 4] == Fields32(fs[1..])[4 * (k - 1)..4 * (k - 1) + 4];
    }
  }

  /** Appending a field appends its four bytes. */
  lemma {:induction false} Fields32Snoc(fs: seq<int>, v: int)
    ensures Fields32(fs + [v]) == Fields32(fs) + Int32Bytes(v)
  {
    if fs != [] {
      assert (fs + [v])[1..] == fs[1..] + [v];
      Fields32Snoc(fs[1..], v);
    }
  }

  /** Every field of a header fits a 32-bit `int`, the image stream included. */
  predicate FieldsFit(s: ImageSend) {
    |s.data| + 36 <= INT_MAX && IsInt32(s.idx) && IsInt32(s.posX) && IsInt32(s.posY) &&
    IsInt32(s.width) && IsInt32(s.height) && IsInt32(s.format) && IsInt32(s.quality)
  }

  /** The 32-bit field at position `k` of a frame. */
  function Field(b: seq<byte>, k: nat): (v: int)
    requires 4 * k + 4 <= |b|
    ensures IsInt32(v)
  {
    BytesToInt32(b[4 * k..4 * k + 4])
  }

  /** How the gateway reads an image frame: the length prefix, a 0 tag, the information, the stream. */
  function ParseImageFrame(b: seq<byte>): Option<ImageSend> {
    if |b| < 40 then None
    else if Field(b, 1) != 0 || Field(b, 0) + 4 != |b| then None
    else Some(ImageSend(Field(b, 2), Field(b, 3), Field(b, 4), Field(b, 5), Field(b, 6),
                        Field(b, 7), Field(b, 8), b[40..], Field(b, 9) != 0))
  }

  /** Each header field of a frame decodes to the value written there. */
  lemma FieldOfFrame(s: ImageSend, k: nat)
    requires FieldsFit(s) && k < 10
    ensures 4 * k + 4 <= |ImageFrame(s)|
    ensures Field(ImageFrame(s), k) == HeaderFields(s)[k]
  {
    var fs := HeaderFields(s);
    Fields32At(fs, k);
    assert ImageFrame(s)[4 * k..4 * k + 4] == ImageHeader(s)[4 * k..4 * k + 4];
    assert IsInt32(fs[k]);
    Int32RoundTrip(fs[k]);
  }

  /** The tag word of an image frame is four zero bytes. */
  lemma ImageTag(s: ImageSend)
    ensures |ImageFrame(s)| >= 8 && ImageFrame(s)[4..8] == [0, 0, 0, 0]
  {
    Fields32At(HeaderFields(s), 1);
    assert ImageFrame(s)[4..8] == ImageHeader(s)[4..8];
  }

  /**
   * An image frame is exactly 40 bytes longer than the stream, its length
   * prefix counts the bytes after it, its tag is 0, and the gateway reads
   * back every field and the stream.
   */
  lemma ImageFrameRoundTrip(s: ImageSend)
    requires FieldsFit(s)
    ensures |ImageFrame(s)| == |s.data| + 40
    ensures Field(ImageFrame(s), 0) + 4 == |ImageFrame(s)|
    ensures ImageFrame(s)[4..8] == [0, 0, 0, 0]
    ensures ImageFrame(s)[40..] == s.data
    ensures ParseImageFrame(ImageFrame(s)) == Some(s)
  {
    var f := ImageFrame(s);
    ImageTag(s);
    FieldOfFrame(s, 0);
    FieldOfFrame(s, 1);
    FieldOfFrame(s, 2);
    FieldOfFrame(s, 3);
    FieldOfFrame(s, 4);
    FieldOfFrame(s, 5);
    FieldOfFrame(s, 6);
    FieldOfFrame(s, 7);
    FieldOfFrame(s, 8);
    FieldOfFrame(s, 9);
    assert f[40..] == s.data;
  }

  /** After `int32ToBytes` wrote field `k` over a buffer holding fields `0..k-1`, it holds fields `0..k`. */
  lemma {:induction false} PutField(before: seq<byte>, after: seq<byte>, fs: seq<int>, k: nat)
    requires k < |fs| && 4 * k + 4 <= |before|
    requires before[..4 * k] == Fields32(fs[..k])
    requires after == before[..4 * k] + Int32Bytes(fs[k]) + before[4 * k + 4..]
    ensures after[..4 * k + 4] == Fields32(fs[..k + 1])
  {
    assert fs[..k + 1] == fs[..k] + [fs[k]];
    Fields32Snoc(fs[..k], fs[k]);
  }

  /** One `int32ToBytes` call of `sendImage`: field `k` written after fields `0..k-1`. */
  method WriteField(header: array<byte>, fs: seq<int>, k: nat)
    requires k < |fs| && 4 * k + 4 <= header.Length
    requires header[..4 * k] == Fields32(fs[..k])
    modifies header
    ensures header[..4 * k + 4] == Fields32(fs[..k + 1])
  {
    ghost var before := header[..];
    Int32ToBytes(fs[k], 4 * k, header);
    PutField(before, header[..], fs, k);
  }

  /**
   * The header of `sendImage`, written field by field with `int32ToBytes`
   * into a new 40-byte buffer.
   */
  method WriteImageHeader(s: ImageSend) returns (header: array<byte>)
    ensures fresh(header)
    ensures header[..] == ImageHeader(s)
  {
    var fs := HeaderFields(s);
    header := new byte[40];
    WriteField(header, fs, 0);
    WriteField(header, fs, 1);
    WriteField(header, fs, 2);
    WriteField(header, fs, 3);
    WriteField(header, fs, 4);
    WriteField(header, fs, 5);
    WriteField(header, fs, 6);
    WriteField(header, fs, 7);
    WriteField(header, fs, 8);
    WriteField(header, fs, 9);
    assert fs[..10] == fs;
    assert header[..] == header[..40];
  }

  // ---------------------------------------------------------------- messages

  /** The frame `sendMessage` writes for a non-empty text: its byte length, then its UTF-16LE code units. */
  function MessageFrame(msg: seq<uint16>): seq<byte>
    requires msg != []
  {
    Int32Bytes(2 * |msg|) + Utf16Le(msg)
  }

  /** How the gateway reads a text frame: a byte length, then that many bytes of UTF-16LE text. */
  function ParseMessageFrame(b: seq<byte>): Option<seq<uint16>> {
    if |b| < 4 then None
    else
      var n := BytesToInt32(b[..4]);
      if n < 0 || n % 2 != 0 || 4 + n != |b| then None else Some(Utf16LeUnits(b[4..]))
  }

  /** A text frame is 4 bytes longer than the text's bytes, and the gateway reads the text back. */
  lemma MessageFrameRoundTrip(msg: seq<uint16>)
    requires msg != [] && 2 * |msg| <= INT_MAX
    ensures |MessageFrame(msg)| == 4 + 2 * |msg|
    ensures ParseMessageFrame(MessageFrame(msg)) == Some(msg)
  {
    var f := MessageFrame(msg);
    Utf16LeRoundTrip(msg);
    assert f[..4] == Int32Bytes(2 * |msg|);
    assert f[4..] == Utf16Le(msg);
    Int32RoundTrip(2 * |msg|);
  }

  /**
   * Text frames and image frames share the pipe and are told apart by the
   * second 32-bit word: 0 for an image, the first two code units for a text,
   * which is never 0 when the text starts with a non-NUL unit.
   */
  lemma FramesDistinguishable(s: ImageSend, msg: seq<uint16>)
    requires FieldsFit(s)
    requires |msg| >= 2 && msg[0] != 0
    ensures ImageFrame(s)[4..8] == [0, 0, 0, 0]
    ensures MessageFrame(msg)[4..8] != [0, 0, 0, 0]
  {
    ImageFrameRoundTrip(s);
    var f := MessageFrame(msg);
    assert f[4..] == Utf16Le(msg);
    assert Utf16Le(msg)[0] == msg[0] % 0x100 && Utf16Le(msg)[1] == msg[0] / 0x100;
  }

  /** A wide-string literal of ASCII text: each character is one code unit. */
  function Wide(s: string): (w: seq<uint16>)
    ensures |w| == |s|
  {
    if s == [] then [] else [(s[0] as int) % 0x1_0000] + Wide(s[1..])
  }

  /** `sendMessage(wfc, msg)` as bytes written to the pipe: nothing for an empty text. */
  function MessageBytes(msg: seq<uint16>): seq<byte> {
    if msg == [] then [] else MessageFrame(msg)
  }

  /**
   * The buffer `sendMessage` writes: the 4-byte length built with
   * `int32ToBytes`, then the text's bytes.
   */
  method WriteMessage(msg: seq<uint16>) returns (buffer: array<byte>)
    requires msg != []
    ensures fresh(buffer)
    ensures buffer[..] == MessageFrame(msg)
  {
    var size := 2 * |msg|;
    var header := new byte[4];
    Int32ToBytes(size, 0, header);
    var text := Utf16Le(msg);
    Utf16LeRoundTrip(msg);
    var frame := header[..] + text;
    buffer := new byte[size + 4](i requires 0 <= i < size + 4 => frame[i]);
    assert buffer[..] == frame;
  }

  // --------------------------------------------------------------- clipboard

  /** The most characters of the server clipboard sent to the browser. */
  const CLIPBOARD_MAX_LENGTH_SEND: nat := 1048576

  /** The number of characters in a clipboard buffer of `size` bytes, less its terminator; 0 when there is no character at all. */
  function ClipboardLength(size: nat): nat {
    if size < 2 then 0 else size / 2 - 1
  }

  /** The same count as written, in 64-bit `size_t` arithmetic: `size / 2 - 1` wraps below 2 bytes. */
  function ClipboardLengthAsWritten(size: nat): nat {
    (size / 2 - 1) % 0x1_0000_0000_0000_0000
  }

  /**
   * As written, a clipboard buffer of fewer than 2 bytes counts more than
   * the 1048576 characters kept, so the text is constructed from 1048576
   * units read from a buffer holding none.
   */
  lemma ClipboardUnderflow(size: nat)
    requires size < 2
    ensures ClipboardLengthAsWritten(size) > CLIPBOARD_MAX_LENGTH_SEND
    ensures ClipboardLengthAsWritten(size) > size / 2
  {
  }

  /** With the count guarded, the characters read never exceed the units the buffer holds; from 2 bytes on it is the count as written. */
  lemma ClipboardLengthFits(size: nat)
    ensures ClipboardLength(size) <= size / 2
    ensures ClipboardLength(size) < size / 2 || size < 2
    ensures 2 <= size < 0x1_0000_0000_0000_0000 ==> ClipboardLength(size) == ClipboardLengthAsWritten(size)
  {
  }

  function Min(a: nat, b: nat): nat {
    if a <= b then a else b
  }

  const ClipboardPrefix: seq<uint16> := Wide("clipboard|")
  const TruncatedMarker: seq<uint16> := Wide("--- TRUNCATED ---")

  /**
   * The clipboard text as the `std::wstring` built from at most 1048576
   * characters of the buffer, read through `c_str()`: it stops at the first NUL.
   */
  function ClipboardText(data: seq<byte>): (text: seq<uint16>)
    ensures |text| <= CLIPBOARD_MAX_LENGTH_SEND
    ensures |text| <= ClipboardLength(|data|)
    ensures text <= Utf16LeUnits(data)
    ensures 0 !in text
  {
    var n := ClipboardLength(|data|);
    UntilFirst(Utf16LeUnits(data)[..Min(n, CLIPBOARD_MAX_LENGTH_SEND)], 0)
  }

  /**
   * The message `wf_myrtille_send_server_clipboard` sends for a clipboard
   * buffer: the prefix, the text, and the marker when characters were cut.
   */
  function ClipboardMessage(data: seq<byte>): seq<uint16> {
    ClipboardPrefix + ClipboardText(data) +
      (if ClipboardLength(|data|) > CLIPBOARD_MAX_LENGTH_SEND then TruncatedMarker else [])
  }

  /**
   * The clipboard message starts with the prefix and is never longer than
   * the prefix, 1048576 characters and the marker; the marker ends it when
   * the clipboard held more characters than that, and is absent otherwise.
   */
  lemma ClipboardMessageShape(data: seq<byte>)
    ensures var m := ClipboardMessage(data);
      var n := ClipboardLength(|data|);
      |m| >= |ClipboardPrefix| && m[..|ClipboardPrefix|] == ClipboardPrefix &&
      |m| <= |ClipboardPrefix| + CLIPBOARD_MAX_LENGTH_SEND + |TruncatedMarker| &&
      (n > CLIPBOARD_MAX_LENGTH_SEND ==> m[|m| - |TruncatedMarker|..] == TruncatedMarker) &&
      (n <= CLIPBOARD_MAX_LENGTH_SEND ==> |m| <= |ClipboardPrefix| + n) &&
      (n <= CLIPBOARD_MAX_LENGTH_SEND ==> m == ClipboardPrefix + ClipboardText(data))
  {
    var marker := if ClipboardLength(|data|) > CLIPBOARD_MAX_LENGTH_SEND then TruncatedMarker else [];
    Affixes(ClipboardPrefix, ClipboardText(data), marker);
  }

  /** The parts of a concatenation are found back at its ends. */
  lemma Affixes<T>(prefix: seq<T>, middle: seq<T>, suffix: seq<T>)
    ensures (prefix + middle + suffix)[..|prefix|] == prefix
    ensures (prefix + middle + suffix)[|prefix + middle|..] == suffix
  {
  }

  /**
   * A clipboard over the limit, without NUL in its first 1048576 characters,
   * is sent as those characters between the prefix and the marker.
   */
  lemma {:induction false} ClipboardTruncated(data: seq<byte>)
    requires ClipboardLength(|data|) > CLIPBOARD_MAX_LENGTH_SEND
    requires 0 !in Utf16LeUnits(data)[..CLIPBOARD_MAX_LENGTH_SEND]
    ensures ClipboardMessage(data) == ClipboardPrefix + Utf16LeUnits(data)[..CLIPBOARD_MAX_LENGTH_SEND] + TruncatedMarker
  {
    var n := ClipboardLength(|data|);
    assert Min(n, CLIPBOARD_MAX_LENGTH_SEND) == CLIPBOARD_MAX_LENGTH_SEND;
    UntilFirstWhole(Utf16LeUnits(data)[..CLIPBOARD_MAX_LENGTH_SEND], 0);
  }

  /** A clipboard within the limit and without NUL is sent whole, after the prefix. */
  lemma {:induction false} ClipboardSentWhole(data: seq<byte>)
    requires ClipboardLength(|data|) <= CLIPBOARD_MAX_LENGTH_SEND
    requires 0 !in Utf16LeUnits(data)[..ClipboardLength(|data|)]
    ensures ClipboardMessage(data) == ClipboardPrefix + Utf16LeUnits(data)[..ClipboardLength(|data|)]
  {
    var n := ClipboardLength(|data|);
    assert Min(n, CLIPBOARD_MAX_LENGTH_SEND) == n;
    UntilFirstWhole(Utf16LeUnits(data)[..n], 0);
  }
}
