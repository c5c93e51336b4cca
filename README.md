# Myrtille FreeRDP bridge

A Dafny model of the bridge between the FreeRDP Windows client and the
Myrtille gateway, `client/Windows/wf_myrtille.cpp`. The bridge turns what
the remote session draws into framed images on an *updates* pipe. It reads
the browser's commands from an *inputs* pipe and replays them into the RDP
session.

Each module covers one part of the bridge:

- `Native` (native.dfy): C `int` arithmetic. This covers 32-bit wrap-around, `DWORD` conversion and truncating division.
- `Wire` (wire.dfy): `int32ToBytes` / `bytesToInt32` and the UTF-16LE layout of `std::wstring` text.
- `Text` (text.dfy): the string helpers the dispatcher uses: `c_str()`, `find` / `strchr`, the `std::getline`-based `split`, `stoi` and `atoi`.
- `Commands` (commands.dfy): the 31 commands, their three-letter tags and the `commandMap`. Looking up an unknown tag with `operator[]` inserts it as `SEND_SERVER_ADDRESS`.
- `Regulator` (regulator.dfy): the region regulator of `wf_myrtille_send_region`. It checks each region, counts updates, consolidates regions into `imageBuffer` and samples them, then scales them to the browser's size.
- `Encoder` (encoder.dfy): the format and quality choice of `processImage`, the `imageIdx` counter and the cursor send step.
- `Framing` (framing.dfy): the frames `sendImage` and `sendMessage` write, and the server clipboard message.
- `Input` (input.dfy): the arguments of the input commands: the server address, key events, pointer events and the browser's resolution.
- `Cursor` (cursor.dfy): the transparency pass over the cursor bitmap, as a nested loop over an `array2`.
- `State` (state.dfy): the session as a value, with one function per operation. These are the `switch` of `processInputsPipe` and the reader loop around it, plus the send paths.
- `Bridge` (bridge.dfy): the same operations on a `Client` object whose fields are updated in place. Each method is proved to leave the object in the state that the `State` function of the same name computes.

Each of these is a parameter of the model:

- the encoders' output;
- the bytes left on the inputs pipe;
- whether the updates pipe is open;
- whether the clipboard channel exists.

Calls into FreeRDP and into the screen capture are recorded as `State.Effect` values, in order.

## Model

| member | source | states |
|---|---|---|
| Native.ToInt32 | client/Windows/wf_myrtille.cpp:1980-1988 | The `int` a 32-bit pattern is read as: congruent to the input modulo 2^32, within `INT_MIN..INT_MAX`, and the identity on values that already fit |
| Native.ToDword | client/Windows/wf_myrtille.cpp:1112-1115 | The `DWORD` the decoded payload length becomes: below 2^32 and congruent to the `int` |
| Native.CDiv | client/Windows/wf_myrtille.cpp:616-619 | C division truncates toward zero and agrees with Dafny's division for non-negative operands |
| Wire.Unsigned32 | client/Windows/wf_myrtille.cpp:1980-1988 | The four bytes, OR-ed at their shifts, form a value below 2^32 |
| Wire.BytesToInt32 | client/Windows/wf_myrtille.cpp:1980-1988 | The decoded value fits an `int` and is negative exactly when the top byte has its high bit set |
| Wire.LowBits | client/Windows/wf_myrtille.cpp:1971-1978 | The four bytes `int32ToBytes` writes hold the value modulo 2^32 |
| Wire.Int32RoundTrip | client/Windows/wf_myrtille.cpp:1971-1988 | `bytesToInt32` of what `int32ToBytes` wrote gives back every 32-bit value |
| Wire.BytesRoundTrip | client/Windows/wf_myrtille.cpp:1971-1988 | Every 4-byte sequence is what `int32ToBytes` writes for the value it decodes to |
| Wire.Int32BytesWraps | client/Windows/wf_myrtille.cpp:1565-1567 | Passing a wider value, such as a `size_t` length, writes its low 32 bits |
| Wire.Int32ToBytes | client/Windows/wf_myrtille.cpp:1971-1978 | Writing into the array puts the 4 little-endian bytes at the offset and leaves every other byte as it was |
| Wire.Utf16Le | client/Windows/wf_myrtille.cpp:1570-1573 | A wide string in memory takes two bytes per code unit |
| Wire.Utf16LeUnits | client/Windows/wf_myrtille.cpp:830-837 | A byte buffer read as `wchar_t` holds half as many units as bytes |
| Wire.Utf16LeRoundTrip | client/Windows/wf_myrtille.cpp:1570-1573 | Reading back the UTF-16LE bytes of a text gives the text |
| Text.UntilFirst | client/Windows/wf_myrtille.cpp:1163-1183 | What `c_str()` exposes is a prefix of the string with no NUL, ending where the first NUL was |
| Text.UntilFirstWhole | client/Windows/wf_myrtille.cpp:1183 | A string without NUL is seen whole through `c_str()` |
| Text.IndexOf | client/Windows/wf_myrtille.cpp:1163-1188 | `find` / `strchr` give an index holding the character, or none when the character is absent |
| Text.IndexOfFirst | client/Windows/wf_myrtille.cpp:1163-1188 | The index found is the first occurrence |
| Text.IndexOfPrefixFree | client/Windows/wf_myrtille.cpp:1168-1177 | Nothing before the index found is the searched character |
| Text.SplitNoDelimiter | client/Windows/wf_myrtille.cpp:1041-1055 | No field of `split` contains the delimiter |
| Text.SplitJoin | client/Windows/wf_myrtille.cpp:1041-1055 | Joining the fields of `split` with the delimiter rebuilds the text, less one final delimiter |
| Text.SplitEmpty | client/Windows/wf_myrtille.cpp:1041-1055 | `split` gives no field exactly when the text is empty |
| Text.JoinSplit | client/Windows/wf_myrtille.cpp:1041-1055 | Splitting delimiter-free fields, joined with the delimiter and with a non-empty last field, gives the fields back |
| Text.SplitTwo | client/Windows/wf_myrtille.cpp:1041-1055 | `a|b` with a non-empty `b` splits into exactly `[a, b]` |
| Text.SplitThree | client/Windows/wf_myrtille.cpp:1041-1055 | `a|b|c` with a non-empty `c` splits into exactly `[a, b, c]` |
| Text.TrailingEmptyFieldDropped | client/Windows/wf_myrtille.cpp:1041-1055 | A trailing delimiter does not make an empty last field: `getline` fails on it and nothing is pushed |
| Text.IndexOfAfterPrefix | client/Windows/wf_myrtille.cpp:1163-1188 | The character is found right after a prefix that does not contain it |
| Text.SplitFields | client/Windows/wf_myrtille.cpp:1041-1055 | The `getline` loop pushes exactly the fields of `Split`, through its loop invariants |
| Text.GetlineItemsSplit | client/Windows/wf_myrtille.cpp:1041-1055 | From any point of the loop, the items still to come and the items pushed so far add up to `Split` of the text |
| Text.DigitCount | client/Windows/wf_myrtille.cpp:1368 | The count covers the leading digits and stops at the first non-digit |
| Text.SkipSpaces | client/Windows/wf_myrtille.cpp:1368 | Leading white space is skipped: the result starts with no space, and text that does not start with a space is kept |
| Text.Stoi | client/Windows/wf_myrtille.cpp:1368-1402 | A value `stoi` returns instead of throwing fits an `int` |
| Text.Atoi | client/Windows/wf_myrtille.cpp:1173 | `atoi` always returns an `int`, saturating when out of range |
| Text.DecimalString | client/Windows/wf_myrtille.cpp:1368 | A natural number is written as a non-empty string of digits |
| Text.DecimalValueOfString | client/Windows/wf_myrtille.cpp:1368 | Reading the digits of a written number gives the number back |
| Text.ParseLongOfIntString | client/Windows/wf_myrtille.cpp:1368 | `strtol` reads back every integer written in decimal, its sign included |
| Text.StoiOfDecimal | client/Windows/wf_myrtille.cpp:1368-1402 | `stoi` and `atoi` read back every 32-bit value written in decimal |
| Text.IntStringChars | client/Windows/wf_myrtille.cpp:1285-1303 | The decimal text of an integer is digits after an optional leading minus sign, and has no sign when the integer is not negative |
| Commands.Ordinal | client/Windows/wf_myrtille.cpp:78-120 | Each command has its `enum class COMMAND` value, below 31 |
| Commands.Tag | client/Windows/wf_myrtille.cpp:250-280 | Each command's tag has 3 characters |
| Commands.TableCoversEveryCommand | client/Windows/wf_myrtille.cpp:250-280 | Every one of the 31 commands has its tag in `commandMap`, mapped back to it |
| Commands.TableKeysAreTags | client/Windows/wf_myrtille.cpp:250-280 | The table holds nothing but the 31 tags, each mapped to its own command |
| Commands.LookupCommand | client/Windows/wf_myrtille.cpp:1118-1121 | After `commandMap[tag]` the tag is in the map and maps to the command returned; no entry already present changes |
| Commands.TableConsistent | client/Windows/wf_myrtille.cpp:250-280 | The map as `wf_myrtille_start` fills it satisfies the map invariant |
| Commands.LookupResolves | client/Windows/wf_myrtille.cpp:1118-1121 | On a consistent map, a lookup yields the table's command, or the default for an unknown tag, and keeps the map consistent |
| Commands.UnknownTagIsServerAddress | client/Windows/wf_myrtille.cpp:1118-1121 | An unknown tag is dispatched as `SEND_SERVER_ADDRESS`, on every lookup |
| Regulator.NextCountInRange | client/Windows/wf_myrtille.cpp:523-528 | The counter reset at `INT_MAX` then incremented stays in `1..INT_MAX` and never overflows |
| Regulator.Union | client/Windows/wf_myrtille.cpp:530-566 | The bounding box contains both rectangles and takes each side from one of them |
| Regulator.FoldIsUnion | client/Windows/wf_myrtille.cpp:536-558 | Updating the buffer side by side with the -1 sentinels gives the region when the buffer is empty and the bounding box otherwise, still inside the desktop |
| Regulator.Period | client/Windows/wf_myrtille.cpp:530-566 | A sampling quantity consolidates between 2 and 20 updates |
| Regulator.InvalidRegionDropped | client/Windows/wf_myrtille.cpp:514-517 | A region is dropped exactly when it fails the consistency check, and then the counter and buffer are untouched |
| Regulator.PassThrough | client/Windows/wf_myrtille.cpp:523-530 | Outside the sampling quantities a valid region is forwarded unchanged and the buffer is untouched |
| Regulator.SamplingStep | client/Windows/wf_myrtille.cpp:530-566 | With sampling, a region is held back exactly when the new count is not a multiple of the period; otherwise the consolidated box is forwarded and the buffer emptied |
| Regulator.RegulatePreserves | client/Windows/wf_myrtille.cpp:514-566 | The counter stays in `0..INT_MAX` and the buffer stays empty or inside the desktop |
| Regulator.HeldBack | client/Windows/wf_myrtille.cpp:530-566 | From a period boundary and away from the `INT_MAX` reset, fewer than a period of valid regions are all held back, and the buffer holds their bounding box |
| Regulator.Cadence | client/Windows/wf_myrtille.cpp:530-566 | From a period boundary and away from the `INT_MAX` reset, a full period of regions gives held-back updates and then one forwarded update of their bounding box, and the buffer ends empty |
| Regulator.SplitLast | client/Windows/wf_myrtille.cpp:514-566 | Regulating a list is regulating all but the last region, then the last one |
| Regulator.UnionAllInDesktop | client/Windows/wf_myrtille.cpp:530-566 | The bounding box of desktop regions lies inside the desktop |
| Regulator.ScaleCoordBounds | client/Windows/wf_myrtille.cpp:616-619 | `v * c / d` of a coordinate within the desktop lies between 0 and the client size, in order |
| Regulator.ScaledRegionInClient | client/Windows/wf_myrtille.cpp:579-620 | A desktop region, scaled to the browser's size, is a region of the client area with its sides in order |
| Encoder.SelectImageCases | client/Windows/wf_myrtille.cpp:1631-1701 | PNG exactly when asked for, or in AUTO mode when it is no larger than the JPEG; JPEG otherwise; WEBP when asked for; no stream for an unknown encoding; and the quality of each |
| Encoder.AutoPicksSmaller | client/Windows/wf_myrtille.cpp:1660-1687 | AUTO sends the smaller of the PNG and JPEG streams, the PNG on a tie |
| Encoder.ProcessImageSpec | client/Windows/wf_myrtille.cpp:1705-1727 | An image is sent exactly when the chosen stream is non-empty, numbered with the next index in `1..INT_MAX`, at the region's position and size |
| Encoder.ScreenRect | client/Windows/wf_myrtille.cpp:459-488 | The screen update covers the client size when scaling and the desktop otherwise, from the origin |
| Encoder.ProcessCursorSpec | client/Windows/wf_myrtille.cpp:727-763 | A cursor is sent exactly when it has a mask pixel, a visible pixel and a non-empty stream, as a lossless `CUR` image at its hotspot; otherwise the index stays put |
| Framing.Fields32 | client/Windows/wf_myrtille.cpp:1804-1818 | A list of 32-bit fields takes 4 bytes each |
| Framing.Fields32At | client/Windows/wf_myrtille.cpp:1804-1818 | Field `k` of the header sits at bytes `4k..4k+4` |
| Framing.Field | client/Windows/wf_myrtille.cpp:1980-1988 | A header field decodes to an `int` |
| Framing.FieldOfFrame | client/Windows/wf_myrtille.cpp:1804-1818 | Each header field of an image frame decodes to the value written there |
| Framing.ImageTag | client/Windows/wf_myrtille.cpp:1806 | The tag word of an image frame is four zero bytes |
| Framing.ImageFrameRoundTrip | client/Windows/wf_myrtille.cpp:1804-1873 | An image frame is 40 bytes longer than its stream, and its length prefix counts the bytes after it; the gateway reads back every field and the stream |
| Framing.PutField | client/Windows/wf_myrtille.cpp:1804-1818 | Each `int32ToBytes` call extends the header written so far by one field |
| Framing.WriteField | client/Windows/wf_myrtille.cpp:1804-1818 | One `int32ToBytes` call of `sendImage` extends the header by field `k` |
| Framing.WriteImageHeader | client/Windows/wf_myrtille.cpp:1804-1818 | The 40-byte buffer written field by field is the encoded header |
| Framing.MessageFrameRoundTrip | client/Windows/wf_myrtille.cpp:1553-1617 | A text frame is 4 bytes longer than the text's bytes, and the gateway reads the text back |
| Framing.FramesDistinguishable | client/Windows/wf_myrtille.cpp:1804-1818 | An image frame has 0 in its second word and a text starting with a non-NUL unit does not, so the two share the pipe unambiguously |
| Framing.Wide | client/Windows/wf_myrtille.cpp:840-845 | A wide literal has one code unit per character |
| Framing.WriteMessage | client/Windows/wf_myrtille.cpp:1553-1573 | The buffer `sendMessage` fills is the length header followed by the text's bytes |
| Framing.ClipboardUnderflow | client/Windows/wf_myrtille.cpp:830-838 | As written, a buffer of fewer than 2 bytes counts more characters than the limit and than the buffer holds |
| Framing.ClipboardLengthFits | client/Windows/wf_myrtille.cpp:830-838 | The guarded count never exceeds the units in the buffer, and from 2 bytes on equals the count as written |
| Framing.ClipboardText | client/Windows/wf_myrtille.cpp:837-840 | The text sent is a NUL-free prefix of the buffer's units, of at most 1048576 characters and never more than the buffer holds |
| Framing.ClipboardMessageShape | client/Windows/wf_myrtille.cpp:837-847 | The message starts with `clipboard|` and is bounded by the prefix, 1048576 characters and the marker; the marker is appended exactly when the clipboard holds more than 1048576 characters: a message over the limit ends with it, and one within the limit is the prefix and the text alone |
| Framing.ClipboardTruncated | client/Windows/wf_myrtille.cpp:837-847 | A clipboard over the limit, with no NUL in its first 1048576 characters, is sent as the prefix, those characters and the marker |
| Framing.ClipboardSentWhole | client/Windows/wf_myrtille.cpp:837-847 | A clipboard within the limit and without NUL is sent whole after the prefix |
| Input.ToUint16 | client/Windows/wf_myrtille.cpp:1533-1547 | A coordinate or key code passed as `UINT16` keeps its low 16 bits and is unchanged when it fits |
| Input.HostAndPort | client/Windows/wf_myrtille.cpp:1161-1183 | `host:port` sets that host name and that port, stored in the `UINT32` setting modulo 2^32 |
| Input.HostOnly | client/Windows/wf_myrtille.cpp:1161-1183 | A host name alone sets the host name and keeps the port |
| Input.BracketedAndPort | client/Windows/wf_myrtille.cpp:1185-1205 | `[addr]:port` sets the bracketed address and the port, stored in the `UINT32` setting modulo 2^32 |
| Input.BracketedOnly | client/Windows/wf_myrtille.cpp:1185-1205 | `[addr]` alone sets the address and keeps the port |
| Input.Bracketed | client/Windows/wf_myrtille.cpp:1185-1195 | `strchr` finds `[` at the start and `]` right after the address |
| Input.UnclosedBracket | client/Windows/wf_myrtille.cpp:1185-1205 | An unclosed `[` leaves no host name at all and keeps the port |
| Input.NoNulInDecimal | client/Windows/wf_myrtille.cpp:1173 | A written port has no NUL or bracket in it |
| Input.KeyFlags | client/Windows/wf_myrtille.cpp:1285-1303 | A key event is sent unless there are fewer than two fields, or a scancode has other than three; it is a press exactly when the second field is `1`, and extended exactly when the third is |
| Input.ScancodeRoundTrip | client/Windows/wf_myrtille.cpp:1298-1303 | The scancode key the gateway writes as `code-pressed-extended` is read back with its flags |
| Input.TrailingSeparatorDropped | client/Windows/wf_myrtille.cpp:1285-1303 | A trailing `-` gives no empty third field, so such a scancode is ignored and such a Unicode key is sent as if the `-` were absent |
| Input.MouseInput | client/Windows/wf_myrtille.cpp:1513-1551 | A pointer event carries the command's flags |
| Input.PointerAt | client/Windows/wf_myrtille.cpp:1531-1549 | The event for a valid position carries the command's flags |
| Input.PositionRead | client/Windows/wf_myrtille.cpp:1513-1551 | The position the gateway writes as `x-y` reaches the event as written |
| Input.PositionSplits | client/Windows/wf_myrtille.cpp:1517-1523 | `find` splits `x-y` at the `-` into the two numbers |
| Input.MouseUnscaled | client/Windows/wf_myrtille.cpp:1531-1540 | Without scaling, the position is sent as written, in its low 16 bits |
| Input.MouseScaled | client/Windows/wf_myrtille.cpp:1541-1549 | With scaling, a position inside the client area lands inside the desktop |
| Input.MouseZeroClient | client/Windows/wf_myrtille.cpp:1541-1549 | With scaling and a client width of 0, every valid position divides by zero |
| Input.MouseNegative | client/Windows/wf_myrtille.cpp:1517-1525 | A negative coordinate gives no event |
| Input.ButtonFlags | client/Windows/wf_myrtille.cpp:1311-1326 | A button event carries the button bit, and the down bit exactly when the first character is not `0`; empty arguments throw |
| Input.WheelRotation | client/Windows/wf_myrtille.cpp:1329-1334 | The wheel flags encode a rotation of 120 up, and of -120 down as a 9-bit two's complement value |
| Input.ResizeRoundTrip | client/Windows/wf_myrtille.cpp:1477-1511 | The `WIDTHxHEIGHT` the gateway writes is read back as that client size, or as the aspect-keeping resize |
| Cursor.MaskPixelSpec | client/Windows/wf_myrtille.cpp:690-721 | A mask pixel becomes transparent, yellow becomes opaque black, and any other pixel is kept; a second pass changes nothing |
| Cursor.MaskCursor | client/Windows/wf_myrtille.cpp:690-727 | Every pixel ends as its masked value; the flags say exactly whether a mask pixel and a non-mask pixel were seen |
| Cursor.MaskColumn | client/Windows/wf_myrtille.cpp:692-721 | One column is masked, the other columns are left alone, and the column's flags are reported |
| State.Initial | client/Windows/wf_myrtille.cpp:283-312 | The start-up defaults: the loop running, AUTO encoding at quality 50 and quantity 100, an empty buffer, the client size equal to the desktop, scaling off |
| State.InitialValid | client/Windows/wf_myrtille.cpp:250-312 | The session `wf_myrtille_start` sets up satisfies the session invariant |
| State.SendMessage | client/Windows/wf_myrtille.cpp:1553-1617 | Sending a message never touches the screen counters or the command map |
| State.Chars | client/Windows/wf_myrtille.cpp:1118-1121 | The payload becomes a string with one character per byte, of the same value |
| State.Dispatch | client/Windows/wf_myrtille.cpp:1152-1455 | No command changes the region counter, the region buffer, the desktop or the command map; only `SCN` and `FSU`, which send the screen at once, move the image index, and it stays within `int` |
| State.ApplyResize | client/Windows/wf_myrtille.cpp:1477-1511 | A resize changes neither the screen counters nor what was sent |
| State.Header | client/Windows/wf_myrtille.cpp:1070-1073 | The header buffer keeps the bytes read and is 4 bytes long |
| State.HandleMessagePreservesValid | client/Windows/wf_myrtille.cpp:1118-1455 | Handling any payload keeps the session invariant and leaves the region counter, the buffer and the desktop as they were; only the image index may move |
| State.KnownCommand | client/Windows/wf_myrtille.cpp:1118-1152 | A payload starting with one of the 31 tags runs that command on the rest of the payload, and the map is unchanged |
| State.UnknownCommand | client/Windows/wf_myrtille.cpp:1118-1206 | A payload with an unknown tag runs as `SEND_SERVER_ADDRESS`, after the tag was added to the map |
| State.ShortMessageAborts | client/Windows/wf_myrtille.cpp:1118-1121 | A payload of fewer than 3 characters makes `substr` throw and the process end, after the tag was inserted |
| State.CloseStops | client/Windows/wf_myrtille.cpp:1452-1454 | `CLO` stops the input loop cleanly, with `aborted` false |
| State.EncodingResetsQuality | client/Windows/wf_myrtille.cpp:1367-1370 | `ECD` stores the encoding sent and resets the quality to 50 |
| State.NumberSettingRejected | client/Windows/wf_myrtille.cpp:1367-1394 | An encoding, quality, quantity, audio format or bitrate that `stoi` cannot read ends the process and changes nothing else |
| State.ImageSettingRejected | client/Windows/wf_myrtille.cpp:1367-1382 | An image setting that `stoi` cannot read ends the process and changes nothing else |
| State.AudioSettingRejected | client/Windows/wf_myrtille.cpp:1387-1394 | An audio setting that `stoi` cannot read ends the process and changes nothing else |
| State.MouseMoveSent | client/Windows/wf_myrtille.cpp:1308-1310 | A move to a position written by the gateway is sent to FreeRDP as that move when scaling is off |
| State.ScreenshotConfigRead | client/Windows/wf_myrtille.cpp:1397-1405 | `interval|format|path` as the gateway writes it sets all three screenshot settings |
| State.ScreenshotArgsSplit | client/Windows/wf_myrtille.cpp:1397-1400 | The screenshot arguments split into their three fields |
| State.ScreenshotFieldsRead | client/Windows/wf_myrtille.cpp:1400-1404 | Three readable fields set the interval, the format and the path |
| State.ScaleDisplayOff | client/Windows/wf_myrtille.cpp:1338-1349 | `SCA0` turns scaling off and writes the `reload` message |
| State.LocalClipboardRead | client/Windows/wf_myrtille.cpp:1426-1448 | The browser's clipboard is stored, and offered to the server only when the clipboard channel exists |
| State.KeySent | client/Windows/wf_myrtille.cpp:1282-1305 | A key event that parses is sent, only then, and nothing else changes |
| State.ScreenshotFormatRejected | client/Windows/wf_myrtille.cpp:1400-1404 | A format `stoi` cannot read ends the process after the interval was already stored, leaving the format as it was |
| State.ResizeRequestRoundTrip | client/Windows/wf_myrtille.cpp:1264-1274 | `keepAspect|WIDTHxHEIGHT` as the gateway writes it is read as the resize it asks for |
| State.ResizeArgsSplit | client/Windows/wf_myrtille.cpp:1264-1268 | The resize arguments split into the flag and the resolution |
| State.SendMessageSpec | client/Windows/wf_myrtille.cpp:1553-1617 | An empty text writes nothing; otherwise exactly its frame is appended, or the loop stops when the pipe is broken |
| State.ServerClipboardSent | client/Windows/wf_myrtille.cpp:824-848 | The server clipboard is written as one text frame of the clipboard message |
| State.ScreenshotOnFullscreen | client/Windows/wf_myrtille.cpp:1881-1885 | A pending screenshot is taken with the first full-screen image, once, and the image frame is written whenever the updates pipe is open |
| State.ProcessImagePreservesValid | client/Windows/wf_myrtille.cpp:1705-1727 | Processing an image keeps the session invariant and leaves the regulator's counter and buffer alone |
| State.SendRegionSpec | client/Windows/wf_myrtille.cpp:502-641 | A region update keeps the invariant; a region held back or dropped writes nothing; a forwarded one is processed as a non-adaptive, non-full-screen image at the scaled rectangle, at the region itself when scaling does not apply, and a scaling that divides by zero ends the process |
| State.RegionSent | client/Windows/wf_myrtille.cpp:502-641 | A forwarded region with a non-empty stream and an open pipe writes exactly one image frame: the next index, the scaled position and size, the chosen stream |
| State.ScreenshotRequested | client/Windows/wf_myrtille.cpp:1415-1418 | `SCN` sends the screen at once: when a stream is sent the screenshot is taken and the request cleared, otherwise the request stays pending and nothing is written |
| State.FullscreenUpdateSent | client/Windows/wf_myrtille.cpp:1421-1423 | `FSU` writes one full-screen image frame with the next index, of the client size when scaling and of the desktop size otherwise |
| State.LogonRead | client/Windows/wf_myrtille.cpp:1219-1252 | The domain, password and start program are stored as sent; the user name too when a domain is set, otherwise it goes to `freerdp_parse_username` and the model changes nothing else |
| State.SendCursorPreservesValid | client/Windows/wf_myrtille.cpp:643-796 | A cursor update keeps the invariant; a cursor without both a mask pixel and a visible pixel changes nothing |
| State.ReadStepPreservesValid | client/Windows/wf_myrtille.cpp:1068-1458 | One turn of the reader keeps the session invariant |
| State.RunPreservesValid | client/Windows/wf_myrtille.cpp:1068-1474 | Any number of turns of the loop keeps the session invariant |
| State.HeaderRead | client/Windows/wf_myrtille.cpp:1070-1115 | The first turn on a frame reads the 4-byte length and switches to the payload |
| State.PayloadRead | client/Windows/wf_myrtille.cpp:1116-1458 | The second turn handles the payload as one message and switches back to a header |
| State.FrameRead | client/Windows/wf_myrtille.cpp:1068-1458 | A frame the gateway writes is read in two turns as one message, leaving the reader at the next header |
| State.ClosedPipeStops | client/Windows/wf_myrtille.cpp:1078-1109 | With the gateway's end closed the read fails and the loop stops |
| State.ZeroLengthStalls | client/Windows/wf_myrtille.cpp:1110-1121 | A payload length of 0 leaves the reader stuck: every turn reads nothing and no later message is handled |
| Bridge.RegulatorStep | client/Windows/wf_myrtille.cpp:514-566 | The in-place updates of `imageCount` and `imageBuffer` compute the regulator's step |
| Bridge.Client.constructor | client/Windows/wf_myrtille.cpp:283-312 | The object starts as the initial session, which is valid |
| Bridge.Client.SendMessage | client/Windows/wf_myrtille.cpp:1553-1617 | The fields end as `State.SendMessage` of the old session |
| Bridge.Client.SendImage | client/Windows/wf_myrtille.cpp:1794-1896 | The fields end as `State.SendImage` of the old session |
| Bridge.Client.ProcessImage | client/Windows/wf_myrtille.cpp:1619-1748 | The fields end as `State.ProcessImage` of the old session |
| Bridge.Client.SendRegion | client/Windows/wf_myrtille.cpp:502-641 | The fields end as `State.SendRegion` of the old session |
| Bridge.Client.SendScreen | client/Windows/wf_myrtille.cpp:448-500 | The fields end as `State.SendScreen` of the old session |
| Bridge.Client.SendCursor | client/Windows/wf_myrtille.cpp:643-796 | The bitmap is masked pixel by pixel, and the fields end as `State.SendCursor` of the old session |
| Bridge.Client.SendServerClipboard | client/Windows/wf_myrtille.cpp:824-848 | The fields end as `State.SendServerClipboard` of the old session |
| Bridge.Client.ProcessInputsPipe | client/Windows/wf_myrtille.cpp:1057-1475 | The loop leaves the fields and the reader as `State.Run` of the old session computes |
| Bridge.Client.ReadTurn | client/Windows/wf_myrtille.cpp:1068-1458 | One turn leaves the fields and the reader as `State.ReadStep` computes |
| Bridge.Client.HandleMessage | client/Windows/wf_myrtille.cpp:1118-1455 | The fields end as `State.HandleMessage` of the old session |
| Bridge.Client.Dispatch | client/Windows/wf_myrtille.cpp:1152-1455 | The fields end as `State.Dispatch` of the old session, including the screen that `SCN` and `FSU` send at once |
| Bridge.Client.Connect | client/Windows/wf_myrtille.cpp:1155-1261 | The fields end as `State.Connect` of the old session |
| Bridge.Client.Logon | client/Windows/wf_myrtille.cpp:1219-1252 | The fields end as `State.Logon` of the old session |
| Bridge.Client.Browser | client/Windows/wf_myrtille.cpp:1264-1305 | The fields end as `State.Browser` of the old session |
| Bridge.Client.MouseCommand | client/Windows/wf_myrtille.cpp:1308-1335 | The fields end as `State.MouseCommand` of the old session |
| Bridge.Client.DisplayCommand | client/Windows/wf_myrtille.cpp:1338-1364 | The fields end as `State.DisplayCommand` of the old session |
| Bridge.Client.ImageCommand | client/Windows/wf_myrtille.cpp:1367-1382 | The fields end as `State.ImageCommand` of the old session |
| Bridge.Client.AudioCommand | client/Windows/wf_myrtille.cpp:1387-1394 | The fields end as `State.AudioCommand` of the old session |
| Bridge.Client.ScreenshotCommand | client/Windows/wf_myrtille.cpp:1397-1423 | The fields end as `State.ScreenshotCommand` of the old session, which for `SCN` and `FSU` sends the screen there and then |
| Bridge.Client.SessionCommand | client/Windows/wf_myrtille.cpp:1426-1454 | The fields end as `State.SessionCommand` of the old session |
| Bridge.Client.ResizeAndReload | client/Windows/wf_myrtille.cpp:1264-1274 | The fields end as `State.ResizeAndReload` of the old session |
| Bridge.Client.ApplyResize | client/Windows/wf_myrtille.cpp:1477-1511 | The fields end as `State.ApplyResize` of the old session |
| Bridge.Client.KeyStroke | client/Windows/wf_myrtille.cpp:1282-1305 | The fields end as `State.KeyStroke` of the old session |
| Bridge.Client.PointerInput | client/Windows/wf_myrtille.cpp:1513-1551 | The fields end as `State.PointerInput` of the old session |
| Bridge.Client.ScreenshotConfig | client/Windows/wf_myrtille.cpp:1397-1405 | The fields end as `State.ScreenshotConfig` of the old session |
| Bridge.Client.ScreenshotFormat | client/Windows/wf_myrtille.cpp:1402-1403 | The fields end as `State.ScreenshotFormat` of the old session |

## Left out

- Screen and cursor capture: the GDI blits, `GetCursorInfo` and the GDI+ bitmaps are left out. What the encoders produce for a captured region is a parameter; for the full screen that `SCN` and `FSU` send, it is the session's `screenImage` field, which the model does not change between captures.
- The encoders and `saveImage` / `takeScreenshot` are left out. PNG, JPEG and WEBP are parameters; an encoder that fails is an empty stream. Taking a screenshot is the `TakeScreenshot` effect.
- `Input.ResizeInput`: the aspect-keeping branch of `processResizeDisplay` works in `float`. It is recorded as the `KeepAspectResize` effect with the size read, not computed.
- `freerdp_parse_username` is recorded as the `ParseUsername` effect, with the user name it is passed. The FreeRDP input callbacks, `cliprdr->MonitorReady` and `CreateThread` are recorded as effects too.
- `State.Logon`: after the `ParseUsername` effect the model leaves `username` and `domain` as they were, where the source frees `Username` and lets `freerdp_parse_username` set `Username` and perhaps `Domain`. So after a `USR` of `DOM\user` with no domain set, a later `USR` is modelled as parsed again, where the source, with `Domain` then set, stores the name directly.
- `Regulator.ScaleRegion`: the products `left * clientWidth` and `x * dw` are exact, not wrapped at 32 bits; the browser's sizes keep them far below the limit.
- `Framing.ImageFrameRoundTrip` requires that every header field fits an `int`, and so applies only to streams under 2 GiB; a larger stream wraps its length field.
- `State.ReadStep`: the header buffer `new byte[4]` is not initialised, so the bytes a short read does not fill are indeterminate; the model picks 0 for them. Pipe reads are modelled as taking the bytes available, up to the size asked for; a read fails only once the gateway's end is closed and empty.
- `State.Run` and `Bridge.Client.ProcessInputsPipe` run the `while (processInputs)` loop for at most `fuel` turns, because the pipe can stall the loop forever.
- The exit path of `processInputsPipe` is the `aborted` flag or the cleared `processInputs`. This covers the pipe and handle clean-up, `wf_client_stop` and the process exit on an uncaught exception or a division by zero.
- The guards on `MyrtilleSessionId` and on the FreeRDP callbacks being non-null are left out: the bridge is modelled as always attached.
- `State.SessionCommand`: the browser's clipboard goes through `ConvertToUnicode` from UTF-8, which is not modelled. Each byte up to the first NUL becomes one code unit.
- Logging, the print job channel, the audio pipe and its encoding, and the threads around the pipes are left out. So is the atomicity of the counters between the capture thread and the input thread.
- `Cursor.MaskCursor` works on the bitmap's pixels as an `array2` indexed by row and column. The locked 32-bit bitmap has a stride of 4 bytes per pixel, so this is the same memory as the flat `bmpBits` array.

## Findings

| source | as written | input that shows it | evidently intended | confidence | as-written member | corrected member |
|---|---|---|---|---|---|---|
| client/Windows/wf_myrtille.cpp:830-838 | `clipboardLength = size / 2 - 1` in `size_t`, then a `std::wstring` of `min(clipboardLength, 1048576)` characters is read from `data` | a clipboard buffer of 0 or 1 bytes: the count wraps to 2^64 - 1, and 1048576 characters are read from a buffer holding none | no characters when the buffer holds no terminated text | not executed | Framing.ClipboardUnderflow | Framing.ClipboardLengthFits |
