/**
 * The session as a value: the FreeRDP settings the commands write, the
 * `wf_myrtille` fields, the command map, what has been written to the
 * updates pipe and the calls made into FreeRDP. Each function here is one
 * operation of `wf_myrtille.cpp` on that value; the `Client` class of module
 * `Bridge` performs the same operations by updating its fields in place.
 */
module State {
  import opened Native
  import opened Wire
  import opened Text
  import opened Commands
  import opened Regulator
  import opened Encoder
  import opened Framing
  import opened Input

  /** The FreeRDP settings the bridge reads or the commands write. */
  datatype Settings = Settings(
    hostname: Option<string>, port: uint32,
    vmConnectMode: bool, negotiateSecurityLayer: bool, sendPreconnectionPdu: bool, preconnectionBlob: Option<string>,
    domain: Option<string>, username: Option<string>, password: Option<string>, alternateShell: Option<string>)

  /** The remote desktop's size, and the region regulator's counter and buffer and the image counter that refer to it. */
  datatype Screen = Screen(desktopWidth: int, desktopHeight: int, imageCount: int, imageBuffer: Rect, imageIdx: int)

  /** A call out of the bridge whose own work is not modelled. */
  datatype Effect =
    | StartClientThread                        // `CreateThread(wf_client_thread)`
    | ParseUsername(user: string)              // `freerdp_parse_username`
    | Key(key: KeyEvent)                       // `UnicodeKeyboardEvent` / `KeyboardEvent`
    | Mouse(flags: bv16, x: uint16, y: uint16) // `MouseEvent`
    | KeepAspectResize(width: int, height: int) // the floating-point branch of `processResizeDisplay`
    | ClipboardMonitorReady                    // `cliprdr->MonitorReady`
    | TakeScreenshot                           // `takeScreenshot`

  datatype Session = Session(
    settings: Settings,
    processInputs: bool,
    imageEncoding: int, imageQuality: int, imageQuantity: int,
    screen: Screen,
    scaleDisplay: bool, clientWidth: int, clientHeight: int,
    audioFormat: int, audioBitrate: int,
    screenshotIntervalSecs: int, screenshotFormat: int, screenshotPath: string, screenshotEnabled: bool,
    clipboardText: seq<uint16>,
    commandMap: map<string, Command>,
    updatesOpen: bool, updates: seq<byte>,
    hasClipboardChannel: bool,
    screenImage: Encoded,
    effects: seq<Effect>,
    aborted: bool)

  const AUDIO_FORMAT_MP3: int := 2

  /**
   * The session as `wf_myrtille_start` sets it up for a desktop and pipes.
   * `screenImage` is what the encoders make of a capture of the desktop: the
   * capture itself is not modelled, so the screen's content is given.
   */
  function Initial(settings: Settings, desktopWidth: int, desktopHeight: int, updatesOpen: bool, hasClipboardChannel: bool,
                   screenImage: Encoded): (s: Session)
    ensures s.processInputs && !s.aborted && s.screen.imageBuffer == EmptyBuffer
    ensures s.imageEncoding == ENCODING_AUTO && s.imageQuality == QUALITY_HIGH && s.imageQuantity == 100
    ensures s.clientWidth == desktopWidth && s.clientHeight == desktopHeight && !s.scaleDisplay
  {
    Session(settings, true, ENCODING_AUTO, QUALITY_HIGH, 100, Screen(desktopWidth, desktopHeight, 0, EmptyBuffer, 0),
            false, desktopWidth, desktopHeight, AUDIO_FORMAT_MP3, 128,
            60, FORMAT_PNG, "", false, [], CommandTable, updatesOpen, [], hasClipboardChannel, screenImage, [], false)
  }

  /**
   * What holds of the session between operations: both counters in
   * `0..INT_MAX`, the region buffer empty or inside the desktop, and the
   * command map the table plus defaulted unknown tags.
   */
  predicate Valid(s: Session) {
    0 <= s.screen.imageCount <= INT_MAX && 0 <= s.screen.imageIdx <= INT_MAX &&
    BufferWellFormed(s.screen.imageBuffer, s.screen.desktopWidth, s.screen.desktopHeight) &&
    MapConsistent(s.commandMap)
  }

  lemma InitialValid(settings: Settings, desktopWidth: int, desktopHeight: int, updatesOpen: bool, hasClipboardChannel: bool,
                     screenImage: Encoded)
    ensures Valid(Initial(settings, desktopWidth, desktopHeight, updatesOpen, hasClipboardChannel, screenImage))
  {
    TableConsistent();
  }

  function Emit(s: Session, e: Effect): Session {
    s.(effects := s.effects + [e])
  }

  /** An exception the thread does not catch, or a division by zero: the process ends. */
  function Abort(s: Session): Session {
    s.(aborted := true)
  }

  // ------------------------------------------------------------------ sending

  /** `sendMessage`: nothing for an empty text; a failed write stops the input loop. */
  function SendMessage(s: Session, msg: seq<uint16>): (t: Session)
    ensures t.screen == s.screen && t.commandMap == s.commandMap
  {
    if msg == [] then s
    else if s.updatesOpen then s.(updates := s.updates + MessageFrame(msg))
    else s.(processInputs := false)
  }

  /** `sendImage`: the frame is written, and a pending screenshot is taken on the next full-screen image. */
  function SendImage(s: Session, img: ImageSend): Session {
    var s1 := if s.updatesOpen then s.(updates := s.updates + ImageFrame(img)) else s.(processInputs := false);
    if s1.screenshotEnabled && img.fullscreen then Emit(s1.(screenshotEnabled := false), Effect.TakeScreenshot) else s1
  }

  /** `processImage` once the encoders produced their streams. */
  function ProcessImage(s: Session, left: int, top: int, right: int, bottom: int, fullscreen: bool, adaptive: bool, e: Encoded): (t: Session)
    ensures t.screen == s.screen.(imageIdx := t.screen.imageIdx) && t.commandMap == s.commandMap
    ensures 0 <= s.screen.imageIdx <= INT_MAX ==> 0 <= t.screen.imageIdx <= INT_MAX
  {
    var (idx, sent) := Encoder.ProcessImage(s.screen.imageIdx, s.imageEncoding, s.imageQuality, left, top, right, bottom, fullscreen, adaptive, e);
    var s1 := s.(screen := s.screen.(imageIdx := idx));
    if sent.Some? then SendImage(s1, sent.value) else s1
  }

  /** `wf_myrtille_send_region`: the regulator, the scaling, then the image. */
  function SendRegion(s: Session, r: Rect, e: Encoded): Session {
    var dw, dh := s.screen.desktopWidth, s.screen.desktopHeight;
    var (reg, decision) := Regulate(RegulatorState(s.screen.imageCount, s.screen.imageBuffer), s.imageQuantity, dw, dh, r);
    var s1 := s.(screen := s.screen.(imageCount := reg.count, imageBuffer := reg.buffer));
    match decision
    case Forwarded(fr) =>
      (match ScaleRegion(fr, s.scaleDisplay, s.clientWidth, s.clientHeight, dw, dh)
       case Some(sr) => ProcessImage(s1, sr.left, sr.top, sr.right, sr.bottom, false, false, e)
       case None => Abort(s1))
    case _ => s1
  }

  /** `wf_myrtille_send_screen`: the whole screen, at the client size when scaling. */
  function SendScreen(s: Session, adaptive: bool, e: Encoded): (t: Session)
    ensures t.screen == s.screen.(imageIdx := t.screen.imageIdx) && t.commandMap == s.commandMap
    ensures 0 <= s.screen.imageIdx <= INT_MAX ==> 0 <= t.screen.imageIdx <= INT_MAX
  {
    var r := ScreenRect(s.scaleDisplay, s.clientWidth, s.clientHeight, s.screen.desktopWidth, s.screen.desktopHeight);
    ProcessImage(s, r.left, r.top, r.right, r.bottom, true, adaptive, e)
  }

  /** The send step of `wf_myrtille_send_cursor`, after the transparency pass. */
  function SendCursor(s: Session, transparent: bool, color: bool, png: seq<byte>, hotX: int, hotY: int, width: int, height: int): Session {
    var (idx, sent) := ProcessCursor(s.screen.imageIdx, transparent, color, png, hotX, hotY, width, height);
    var s1 := s.(screen := s.screen.(imageIdx := idx));
    if sent.Some? then SendImage(s1, sent.value) else s1
  }

  /** `wf_myrtille_send_server_clipboard`. */
  function SendServerClipboard(s: Session, data: seq<byte>): Session {
    SendMessage(s, ClipboardMessage(data))
  }

  // ----------------------------------------------------------------- dispatch

  const Reload: seq<uint16> := Wide("reload")

  /** The text of a payload: one character per byte, as `std::string(buffer, bytesRead)`. */
  function Chars(b: seq<byte>): (s: string)
    ensures |s| == |b|
    ensures forall i :: 0 <= i < |b| ==> s[i] as int == b[i]
  {
    if b == [] then [] else [b[0] as char] + Chars(b[1..])
  }

  /** A payload: `commandMap[message.substr(0, 3)]`, then `message.substr(3)`, which throws on fewer than 3 characters. */
  function HandleMessage(s: Session, msg: string): Session {
    var tag := msg[..if |msg| < 3 then |msg| else 3];
    var (command, m) := LookupCommand(s.commandMap, tag);
    var s1 := s.(commandMap := m);
    if |msg| < 3 then Abort(s1) else Dispatch(s1, command, msg[3..])
  }

  /** The cases of the `switch`, in groups of related commands. */
  datatype Group =
    | ConnectionCommands | LogonCommands | BrowserCommands | MouseCommands
    | DisplayCommands | ImageCommands | AudioCommands | ScreenshotCommands | SessionCommands

  function GroupOf(command: Command): Group {
    match command
    case SendServerAddress | SendVmGuid | ConnectClient => ConnectionCommands
    case SendUserDomain | SendUserName | SendUserPassword | SendStartProgram => LogonCommands
    case SendBrowserResize | SendBrowserPulse | SendKeyUnicode | SendKeyScancode => BrowserCommands
    case SendMouseMove | SendMouseLeftButton | SendMouseMiddleButton | SendMouseRightButton | SendMouseWheelUp | SendMouseWheelDown => MouseCommands
    case SetScaleDisplay | SetReconnectSession => DisplayCommands
    case SetImageEncoding | SetImageQuality | SetImageQuantity => ImageCommands
    case SetAudioFormat | SetAudioBitrate => AudioCommands
    case SetScreenshotConfig | StartTakingScreenshots | StopTakingScreenshots | TakeScreenshot | RequestFullscreenUpdate => ScreenshotCommands
    case SendLocalClipboard | CloseClient => SessionCommands
  }

  /**
   * The `switch` of `processInputsPipe`, by group of commands. No command
   * touches the map, the desktop or the region regulator; only the two that
   * send the screen move the image index, and keep it in range.
   */
  function Dispatch(s: Session, command: Command, args: string): (t: Session)
    ensures t.screen == s.screen.(imageIdx := t.screen.imageIdx) && t.commandMap == s.commandMap
    ensures 0 <= s.screen.imageIdx <= INT_MAX ==> 0 <= t.screen.imageIdx <= INT_MAX
    ensures !command.TakeScreenshot? && !command.RequestFullscreenUpdate? ==> t.screen == s.screen
  {
    match GroupOf(command)
    case ConnectionCommands => Connect(s, command, args)
    case LogonCommands => Logon(s, command, args)
    case BrowserCommands => Browser(s, command, args)
    case MouseCommands => MouseCommand(s, command, args)
    case DisplayCommands => DisplayCommand(s, command, args)
    case ImageCommands => ImageCommand(s, command, args)
    case AudioCommands => AudioCommand(s, command, args)
    case ScreenshotCommands => ScreenshotCommand(s, command, args)
    case SessionCommands => SessionCommand(s, command, args)
  }

  /** The server to connect to, a Hyper-V guest, and the connection itself. */
  function Connect(s: Session, command: Command, args: string): (t: Session)
    ensures t.screen == s.screen && t.commandMap == s.commandMap
  {
    if command.SendServerAddress? then
      var a := ServerAddress(args, s.settings.port);
      s.(settings := s.settings.(hostname := a.hostname, port := a.port))
    else if command.SendVmGuid? then
      s.(settings := s.settings.(vmConnectMode := true, port := 2179, negotiateSecurityLayer := false,
                                 sendPreconnectionPdu := true, preconnectionBlob := Some(CStr(args))))
    else if command.ConnectClient? then Emit(s, StartClientThread)
    else s
  }

  /** The credentials and the program to start. */
  function Logon(s: Session, command: Command, args: string): (t: Session)
    ensures t.screen == s.screen && t.commandMap == s.commandMap
  {
    if command.SendUserDomain? then s.(settings := s.settings.(domain := Some(CStr(args))))
    else if command.SendUserName? then
      if s.settings.domain.None? then Emit(s, ParseUsername(CStr(args)))
      else s.(settings := s.settings.(username := Some(CStr(args))))
    else if command.SendUserPassword? then s.(settings := s.settings.(password := Some(CStr(args))))
    else if command.SendStartProgram? then s.(settings := s.settings.(alternateShell := Some(CStr(args))))
    else s
  }

  /** The browser's size and pulse, and the keyboard. */
  function Browser(s: Session, command: Command, args: string): (t: Session)
    ensures t.screen == s.screen && t.commandMap == s.commandMap
  {
    if command.SendBrowserResize? then (if s.scaleDisplay then ResizeAndReload(s, ResizeRequest(args)) else s)
    else if command.SendKeyUnicode? then KeyStroke(s, KeyInput(true, args))
    else if command.SendKeyScancode? then KeyStroke(s, KeyInput(false, args))
    else s
  }

  /** The mouse: a move, the three buttons and the wheel. */
  function MouseCommand(s: Session, command: Command, args: string): (t: Session)
    ensures t.screen == s.screen && t.commandMap == s.commandMap
  {
    var (sd, cw, ch, dw, dh) := (s.scaleDisplay, s.clientWidth, s.clientHeight, s.screen.desktopWidth, s.screen.desktopHeight);
    if command.SendMouseMove? then PointerInput(s, MouseInput(args, PTR_FLAGS_MOVE, sd, cw, ch, dw, dh))
    else if command.SendMouseLeftButton? then PointerInput(s, ButtonInput(args, PTR_FLAGS_BUTTON1, sd, cw, ch, dw, dh))
    else if command.SendMouseMiddleButton? then PointerInput(s, ButtonInput(args, PTR_FLAGS_BUTTON3, sd, cw, ch, dw, dh))
    else if command.SendMouseRightButton? then PointerInput(s, ButtonInput(args, PTR_FLAGS_BUTTON2, sd, cw, ch, dw, dh))
    else if command.SendMouseWheelUp? then PointerInput(s, MouseInput(args, WHEEL_UP, sd, cw, ch, dw, dh))
    else if command.SendMouseWheelDown? then PointerInput(s, MouseInput(args, WHEEL_DOWN, sd, cw, ch, dw, dh))
    else s
  }

  /** Scaling on or off, and the browser's reconnection. */
  function DisplayCommand(s: Session, command: Command, args: string): (t: Session)
    ensures t.screen == s.screen && t.commandMap == s.commandMap
  {
    if command.SetScaleDisplay? then
      var s1 := s.(scaleDisplay := args != "0");
      if s1.scaleDisplay then ResizeAndReload(s1, ResizeRequest(args)) else SendMessage(s1, Reload)
    else if command.SetReconnectSession? then
      var fields := Split(args, '|');
      if |fields| == 2 && fields[1] == "1" then SendMessage(s, Reload) else s
    else s
  }

  /** The image encoding, quality and quantity; a value that is not a decimal number throws. */
  function ImageCommand(s: Session, command: Command, args: string): (t: Session)
    ensures t.screen == s.screen && t.commandMap == s.commandMap
  {
    if command.SetImageEncoding? then
      (match Stoi(args) case Some(v) => s.(imageEncoding := v, imageQuality := QUALITY_HIGH) case None => Abort(s))
    else if command.SetImageQuality? then
      (match Stoi(args) case Some(v) => s.(imageQuality := v) case None => Abort(s))
    else if command.SetImageQuantity? then
      (match Stoi(args) case Some(v) => s.(imageQuantity := v) case None => Abort(s))
    else s
  }

  /** The audio format and bitrate; a value that is not a decimal number throws. */
  function AudioCommand(s: Session, command: Command, args: string): (t: Session)
    ensures t.screen == s.screen && t.commandMap == s.commandMap
  {
    if command.SetAudioFormat? then
      (match Stoi(args) case Some(v) => s.(audioFormat := v) case None => Abort(s))
    else if command.SetAudioBitrate? then
      (match Stoi(args) case Some(v) => s.(audioBitrate := v) case None => Abort(s))
    else s
  }

  /**
   * The screenshot settings, a screenshot, and a full-screen update. The
   * last two send the screen there and then: a screenshot is requested, then
   * taken by the full-screen image that follows.
   */
  function ScreenshotCommand(s: Session, command: Command, args: string): (t: Session)
    ensures t.screen == s.screen.(imageIdx := t.screen.imageIdx) && t.commandMap == s.commandMap
    ensures 0 <= s.screen.imageIdx <= INT_MAX ==> 0 <= t.screen.imageIdx <= INT_MAX
    ensures !command.TakeScreenshot? && !command.RequestFullscreenUpdate? ==> t.screen == s.screen
  {
    if command.SetScreenshotConfig? then ScreenshotConfig(s, Split(args, '|'))
    else if command.TakeScreenshot? then SendScreen(s.(screenshotEnabled := true), true, s.screenImage)
    else if command.RequestFullscreenUpdate? then SendScreen(s, args == "adaptive", s.screenImage)
    else s
  }

  /** The browser's clipboard, and closing the client. */
  function SessionCommand(s: Session, command: Command, args: string): (t: Session)
    ensures t.screen == s.screen && t.commandMap == s.commandMap
  {
    if command.SendLocalClipboard? then
      var s1 := s.(clipboardText := Wide(CStr(args)));
      if s.hasClipboardChannel then Emit(s1, ClipboardMonitorReady) else s1
    else if command.CloseClient? then s.(processInputs := false)
    else s
  }

  /** `processResizeDisplay` on a parsed resolution. */
  function ApplyResize(s: Session, r: Resize): (t: Session)
    ensures t.screen == s.screen && t.commandMap == s.commandMap && t.updates == s.updates
  {
    match r
    case ClientSize(w, h) => s.(clientWidth := w, clientHeight := h)
    case KeepAspect(w, h) => Emit(s, KeepAspectResize(w, h))
    case _ => s
  }

  /** `keepAspect|WIDTHxHEIGHT`: a resize when there are two fields. */
  function ResizeRequest(args: string): Resize {
    var fields := Split(args, '|');
    if |fields| == 2 then ResizeInput(fields[0] == "1", fields[1]) else NoResize
  }

  /** `processResizeDisplay`, then the browser is told to reload; a size that does not parse throws. */
  function ResizeAndReload(s: Session, r: Resize): (t: Session)
    ensures t.screen == s.screen && t.commandMap == s.commandMap
  {
    if r.ResizeFault? then Abort(s) else SendMessage(ApplyResize(s, r), Reload)
  }

  function KeyStroke(s: Session, k: KeyEvent): (t: Session)
    ensures t.screen == s.screen && t.commandMap == s.commandMap
  {
    if k.NoKey? then s else Emit(s, Key(k))
  }

  function PointerInput(s: Session, p: PointerEvent): (t: Session)
    ensures t.screen == s.screen && t.commandMap == s.commandMap
  {
    match p
    case NoEvent => s
    case Pointer(flags, x, y) => Emit(s, Mouse(flags, x, y))
    case Fault => Abort(s)
  }

  /** `interval|format|path`: the fields are read in order, so a bad format throws after the interval is set. */
  function ScreenshotConfig(s: Session, fields: seq<string>): (t: Session)
    ensures t.screen == s.screen && t.commandMap == s.commandMap
  {
    if |fields| != 3 then s
    else match Stoi(fields[0])
      case None => Abort(s)
      case Some(interval) => ScreenshotFormat(s.(screenshotIntervalSecs := interval), fields[1], fields[2])
  }

  /** The format and the path, read after the interval. */
  function ScreenshotFormat(s: Session, format: string, path: string): (t: Session)
    ensures t.screen == s.screen && t.commandMap == s.commandMap
  {
    match Stoi(format)
    case None => Abort(s)
    case Some(f) => s.(screenshotFormat := f, screenshotPath := path)
  }

  // ------------------------------------------------------------------- reader

  /** The locals of `processInputsPipe` and what is left to read on the inputs pipe. */
  datatype Reader = Reader(sizeHeader: bool, bytesToRead: uint32, inputs: seq<byte>)

  /** The reader at the start of the loop. */
  function Start(inputs: seq<byte>): Reader {
    Reader(true, 4, inputs)
  }

  /** The 4-byte header buffer: bytes a short read did not fill are taken as 0. */
  function Header(chunk: seq<byte>): (h: seq<byte>)
    requires |chunk| <= 4
    ensures |h| == 4 && h[..|chunk|] == chunk
  {
    chunk + seq(4 - |chunk|, _ => 0)
  }

  /**
   * One turn of the loop: a read of the header or of the payload. A read
   * that asks for bytes when the gateway has closed its end fails and stops
   * the loop; a read of 0 bytes succeeds and changes nothing, so the reader
   * stays where it is.
   */
  function ReadStep(s: Session, rd: Reader): (Session, Reader) {
    var want: uint32 := if rd.sizeHeader then 4 else rd.bytesToRead;
    if want > 0 && rd.inputs == [] then (s.(processInputs := false), rd.(bytesToRead := want))
    else
      var n := if want <= |rd.inputs| then want else |rd.inputs|;
      var chunk, rest := rd.inputs[..n], rd.inputs[n..];
      if n == 0 then (s, Reader(rd.sizeHeader, want, rest))
      else if rd.sizeHeader then (s, Reader(false, ToDword(BytesToInt32(Header(chunk))), rest))
      else (HandleMessage(s, Chars(chunk)), Reader(true, want, rest))
  }

  /** `while (processInputs)`, for at most `fuel` turns; a terminated process runs no further. */
  function Run(s: Session, rd: Reader, fuel: nat): (Session, Reader)
    decreases fuel
  {
    if fuel == 0 || !s.processInputs || s.aborted then (s, rd)
    else
      var (s1, rd1) := ReadStep(s, rd);
      Run(s1, rd1, fuel - 1)
  }

  // ----------------------------------------------------------------- lemmas

  /** Handling a payload keeps the session valid, and leaves the counters, the buffer and the desktop as they were. */
  lemma HandleMessagePreservesValid(s: Session, msg: string)
    requires Valid(s)
    ensures Valid(HandleMessage(s, msg))
    ensures HandleMessage(s, msg).screen == s.screen.(imageIdx := HandleMessage(s, msg).screen.imageIdx)
  {
    var tag := msg[..if |msg| < 3 then |msg| else 3];
    LookupResolves(s.commandMap, tag);
  }

  /** A payload whose tag is one of the 31 is dispatched as that command, on the rest of the payload, and the map is unchanged. */
  lemma KnownCommand(s: Session, c: Command, args: string)
    requires MapConsistent(s.commandMap)
    ensures HandleMessage(s, Tag(c) + args) == Dispatch(s, c, args)
  {
    var msg := Tag(c) + args;
    assert msg[..3] == Tag(c) && msg[3..] == args;
    TableCoversEveryCommand(c);
    assert s.(commandMap := s.commandMap) == s;
  }

  /** A payload with an unknown tag is dispatched as `SEND_SERVER_ADDRESS`, and the tag is added to the map. */
  lemma UnknownCommand(s: Session, tag: string, args: string)
    requires MapConsistent(s.commandMap) && |tag| == 3 && tag !in CommandTable
    ensures HandleMessage(s, tag + args) ==
      Dispatch(s.(commandMap := s.commandMap[tag := SendServerAddress]), SendServerAddress, args)
  {
    var msg := tag + args;
    assert msg[..3] == tag && msg[3..] == args;
    if tag in s.commandMap {
      assert s.commandMap[tag := SendServerAddress] == s.commandMap;
    }
  }

  /** A payload of fewer than 3 characters makes `substr` throw: the process ends, after the tag was inserted in the map. */
  lemma ShortMessageAborts(s: Session, msg: string)
    requires |msg| < 3
    ensures HandleMessage(s, msg).aborted
    ensures msg in HandleMessage(s, msg).commandMap
  {
    assert msg[..|msg|] == msg;
  }

  /** `CLO` stops the input loop, whatever its arguments. */
  lemma CloseStops(s: Session, args: string)
    ensures !Dispatch(s, CloseClient, args).processInputs
    ensures Dispatch(s, CloseClient, args).aborted == s.aborted
  {
  }

  /** `ECD` sets the encoding the gateway sent and resets the quality to 50. */
  lemma EncodingResetsQuality(s: Session, encoding: int)
    requires IsInt32(encoding)
    ensures Dispatch(s, SetImageEncoding, IntString(encoding)).imageEncoding == encoding
    ensures Dispatch(s, SetImageEncoding, IntString(encoding)).imageQuality == QUALITY_HIGH
  {
    var a := IntString(encoding);
    StoiOfDecimal(encoding);
    assert Dispatch(s, SetImageEncoding, a) == ImageCommand(s, SetImageEncoding, a);
  }

  /** An image encoding, quality or quantity, an audio format or a bitrate that is not a number throws. */
  lemma NumberSettingRejected(s: Session, c: Command, args: string)
    requires Stoi(args).None?
    requires c in {SetImageEncoding, SetImageQuality, SetImageQuantity, SetAudioFormat, SetAudioBitrate}
    ensures Dispatch(s, c, args) == Abort(s)
  {
    if c.SetAudioFormat? || c.SetAudioBitrate? {
      AudioSettingRejected(s, c, args);
    } else {
      ImageSettingRejected(s, c, args);
    }
  }

  lemma ImageSettingRejected(s: Session, c: Command, args: string)
    requires Stoi(args).None?
    requires c.SetImageEncoding? || c.SetImageQuality? || c.SetImageQuantity?
    ensures Dispatch(s, c, args) == Abort(s)
  {
    assert GroupOf(c) == ImageCommands;
  }

  lemma AudioSettingRejected(s: Session, c: Command, args: string)
    requires Stoi(args).None?
    requires c.SetAudioFormat? || c.SetAudioBitrate?
    ensures Dispatch(s, c, args) == Abort(s)
  {
    if c.SetAudioFormat? {
      assert Dispatch(s, SetAudioFormat, args) == AudioCommand(s, SetAudioFormat, args);
    } else {
      assert Dispatch(s, SetAudioBitrate, args) == AudioCommand(s, SetAudioBitrate, args);
    }
  }

  /** The mouse position the gateway writes is sent to the server as a move, unscaled when scaling is off. */
  lemma MouseMoveSent(s: Session, x: nat, y: nat)
    requires x <= INT_MAX && y <= INT_MAX
    requires !Scales(s.scaleDisplay, s.screen.desktopWidth, s.screen.desktopHeight, s.clientWidth, s.clientHeight)
    ensures Dispatch(s, SendMouseMove, Position(x, y)).effects == s.effects + [Mouse(PTR_FLAGS_MOVE, ToUint16(x), ToUint16(y))]
  {
    var a := Position(x, y);
    MouseUnscaled(x, y, PTR_FLAGS_MOVE, s.scaleDisplay, s.clientWidth, s.clientHeight, s.screen.desktopWidth, s.screen.desktopHeight);
    assert Dispatch(s, SendMouseMove, a) == MouseCommand(s, SendMouseMove, a);
  }

  /** `interval|format|path` as the gateway writes it sets all three screenshot settings. */
  lemma {:induction false} ScreenshotConfigRead(s: Session, interval: int, format: int, path: string)
    requires IsInt32(interval) && IsInt32(format)
    requires path != [] && '|' !in path
    ensures var t := ScreenshotConfig(s, Split(IntString(interval) + "|" + IntString(format) + "|" + path, '|'));
      t.screenshotIntervalSecs == interval && t.screenshotFormat == format && t.screenshotPath == path && t.aborted == s.aborted
  {
    ScreenshotArgsSplit(interval, format, path);
    ScreenshotFieldsRead(s, interval, format, path);
  }

  lemma {:induction false} ScreenshotArgsSplit(interval: int, format: int, path: string)
    requires path != [] && '|' !in path
    ensures Split(IntString(interval) + "|" + IntString(format) + "|" + path, '|') == [IntString(interval), IntString(format), path]
  {
    var a, b := IntString(interval), IntString(format);
    IntStringChars(interval);
    IntStringChars(format);
    assert '|' !in a && '|' !in b;
    SplitThree(a, b, path, '|');
    assert a + "|" + b + "|" + path == a + ['|'] + b + ['|'] + path;
  }

  lemma ScreenshotFieldsRead(s: Session, interval: int, format: int, path: string)
    requires IsInt32(interval) && IsInt32(format)
    ensures var t := ScreenshotConfig(s, [IntString(interval), IntString(format), path]);
      t.screenshotIntervalSecs == interval && t.screenshotFormat == format && t.screenshotPath == path && t.aborted == s.aborted
  {
    StoiOfDecimal(interval);
    StoiOfDecimal(format);
  }

  /** `SCA0` turns scaling off and tells the browser to reload. */
  lemma ScaleDisplayOff(s: Session)
    ensures !Dispatch(s, SetScaleDisplay, "0").scaleDisplay
    ensures s.updatesOpen ==> Dispatch(s, SetScaleDisplay, "0").updates == s.updates + MessageFrame(Reload)
  {
    assert |Reload| == 6;
    assert Dispatch(s, SetScaleDisplay, "0") == SendMessage(s.(scaleDisplay := false), Reload);
  }

  /** The browser's clipboard text is kept, and offered to the server when the clipboard channel is up. */
  lemma {:induction false} LocalClipboardRead(s: Session, text: string)
    requires '\0' !in text
    ensures Dispatch(s, SendLocalClipboard, text).clipboardText == Wide(text)
    ensures Dispatch(s, SendLocalClipboard, text).effects == s.effects + (if s.hasClipboardChannel then [ClipboardMonitorReady] else [])
  {
    UntilFirstWhole(text, '\0');
    assert Dispatch(s, SendLocalClipboard, text) == SessionCommand(s, SendLocalClipboard, text);
  }

  /** A key event that parses is sent to the server, and only then; nothing else changes. */
  lemma KeySent(s: Session, unicode: bool, args: string)
    ensures var k := KeyInput(unicode, args);
      Dispatch(s, if unicode then SendKeyUnicode else SendKeyScancode, args) ==
        if k.NoKey? then s else s.(effects := s.effects + [Key(k)])
  {
    if unicode {
      assert Dispatch(s, SendKeyUnicode, args) == Browser(s, SendKeyUnicode, args);
    } else {
      assert Dispatch(s, SendKeyScancode, args) == Browser(s, SendKeyScancode, args);
    }
  }

  /** A screenshot format that is not a number throws after the interval was already set. */
  lemma ScreenshotFormatRejected(s: Session, fields: seq<string>)
    requires |fields| == 3 && Stoi(fields[0]).Some? && Stoi(fields[1]).None?
    ensures ScreenshotConfig(s, fields).aborted
    ensures ScreenshotConfig(s, fields).screenshotIntervalSecs == Stoi(fields[0]).value
    ensures ScreenshotConfig(s, fields).screenshotFormat == s.screenshotFormat
  {
  }

  /** `keepAspect|WIDTHxHEIGHT` as the gateway writes it is read back as the resize it asks for. */
  lemma ResizeRequestRoundTrip(keepAspectRatio: bool, w: int, h: int)
    requires IsInt32(w) && IsInt32(h)
    ensures ResizeRequest((if keepAspectRatio then "1" else "0") + "|" + IntString(w) + "x" + IntString(h)) ==
      if keepAspectRatio then KeepAspect(w, h) else ClientSize(w, h)
  {
    var flag := if keepAspectRatio then "1" else "0";
    ResizeArgsSplit(flag, w, h);
    ResizeRoundTrip(w, h);
  }

  lemma {:induction false} ResizeArgsSplit(flag: string, w: int, h: int)
    requires '|' !in flag
    ensures Split(flag + "|" + IntString(w) + "x" + IntString(h), '|') == [flag, IntString(w) + "x" + IntString(h)]
  {
    var resolution := IntString(w) + "x" + IntString(h);
    IntStringChars(w);
    IntStringChars(h);
    assert '|' !in IntString(w) && '|' !in IntString(h);
    assert '|' !in resolution;
    SplitTwo(flag, resolution, '|');
    assert flag + "|" + IntString(w) + "x" + IntString(h) == flag + ['|'] + resolution;
  }

  /** `sendMessage` appends exactly the frame of a non-empty text, or stops the loop when the pipe is broken. */
  lemma SendMessageSpec(s: Session, msg: seq<uint16>)
    ensures msg == [] ==> SendMessage(s, msg) == s
    ensures msg != [] && s.updatesOpen ==>
      SendMessage(s, msg).updates == s.updates + MessageFrame(msg) && SendMessage(s, msg).processInputs == s.processInputs
    ensures msg != [] && !s.updatesOpen ==>
      SendMessage(s, msg).updates == s.updates && !SendMessage(s, msg).processInputs
  {
  }

  /** The server clipboard always goes out as one text frame, as long as the pipe is open. */
  lemma ServerClipboardSent(s: Session, data: seq<byte>)
    requires s.updatesOpen
    ensures SendServerClipboard(s, data).updates == s.updates + MessageFrame(ClipboardMessage(data))
  {
    assert ClipboardMessage(data) != [] by {
      ClipboardMessageShape(data);
    }
  }

  /** A pending screenshot is taken with the first full-screen image, once. */
  lemma ScreenshotOnFullscreen(s: Session, img: ImageSend)
    ensures img.fullscreen && s.screenshotEnabled ==>
      !SendImage(s, img).screenshotEnabled && SendImage(s, img).effects == s.effects + [Effect.TakeScreenshot]
    ensures !(img.fullscreen && s.screenshotEnabled) ==>
      SendImage(s, img).screenshotEnabled == s.screenshotEnabled && SendImage(s, img).effects == s.effects
    ensures s.updatesOpen ==> SendImage(s, img).updates == s.updates + ImageFrame(img)
  {
  }

  /** An image keeps the session valid and is numbered with the next index. */
  lemma ProcessImagePreservesValid(s: Session, left: int, top: int, right: int, bottom: int, fullscreen: bool, adaptive: bool, e: Encoded)
    requires Valid(s)
    ensures Valid(ProcessImage(s, left, top, right, bottom, fullscreen, adaptive, e))
    ensures ProcessImage(s, left, top, right, bottom, fullscreen, adaptive, e).screen.imageCount == s.screen.imageCount
    ensures ProcessImage(s, left, top, right, bottom, fullscreen, adaptive, e).screen.imageBuffer == s.screen.imageBuffer
  {
    ProcessImageSpec(s.screen.imageIdx, s.imageEncoding, s.imageQuality, left, top, right, bottom, fullscreen, adaptive, e);
  }

  /**
   * A region update keeps the session valid; a region the regulator holds
   * back or drops writes nothing, and a forwarded region is processed as an
   * image at the region's position, scaled to the client when scaling
   * applies; a scaling that divides by zero ends the process.
   */
  lemma SendRegionSpec(s: Session, r: Rect, e: Encoded)
    requires Valid(s)
    ensures Valid(SendRegion(s, r, e))
    ensures var d := Regulate(RegulatorState(s.screen.imageCount, s.screen.imageBuffer), s.imageQuantity, s.screen.desktopWidth, s.screen.desktopHeight, r).1;
      !d.Forwarded? ==> SendRegion(s, r, e).updates == s.updates && SendRegion(s, r, e).screen.imageIdx == s.screen.imageIdx
    ensures var (reg, d) := Regulate(RegulatorState(s.screen.imageCount, s.screen.imageBuffer), s.imageQuantity, s.screen.desktopWidth, s.screen.desktopHeight, r);
      var s1 := s.(screen := s.screen.(imageCount := reg.count, imageBuffer := reg.buffer));
      d.Forwarded? ==>
        var sr := ScaleRegion(d.region, s.scaleDisplay, s.clientWidth, s.clientHeight, s.screen.desktopWidth, s.screen.desktopHeight);
        (sr.Some? ==> SendRegion(s, r, e) == ProcessImage(s1, sr.value.left, sr.value.top, sr.value.right, sr.value.bottom, false, false, e)) &&
        (sr.None? ==> SendRegion(s, r, e) == Abort(s1)) &&
        (!Scales(s.scaleDisplay, s.clientWidth, s.clientHeight, s.screen.desktopWidth, s.screen.desktopHeight) ==>
           SendRegion(s, r, e) == ProcessImage(s1, d.region.left, d.region.top, d.region.right, d.region.bottom, false, false, e))
  {
    var dw, dh := s.screen.desktopWidth, s.screen.desktopHeight;
    var st := RegulatorState(s.screen.imageCount, s.screen.imageBuffer);
    RegulatePreserves(st, s.imageQuantity, dw, dh, r);
    var (reg, decision) := Regulate(st, s.imageQuantity, dw, dh, r);
    var s1 := s.(screen := s.screen.(imageCount := reg.count, imageBuffer := reg.buffer));
    assert Valid(s1);
    if decision.Forwarded? {
      var sr := ScaleRegion(decision.region, s.scaleDisplay, s.clientWidth, s.clientHeight, dw, dh);
      if sr.Some? {
        ProcessImagePreservesValid(s1, sr.value.left, sr.value.top, sr.value.right, sr.value.bottom, false, false, e);
      }
    }
  }

  /**
   * A region forwarded and scaled, with a non-empty stream and an open pipe,
   * writes one image frame: the next index, the scaled rectangle's position
   * and size, the chosen stream, not full screen.
   */
  lemma RegionSent(s: Session, r: Rect, e: Encoded)
    requires Valid(s) && s.updatesOpen
    requires var d := Regulate(RegulatorState(s.screen.imageCount, s.screen.imageBuffer), s.imageQuantity, s.screen.desktopWidth, s.screen.desktopHeight, r).1;
      d.Forwarded? && ScaleRegion(d.region, s.scaleDisplay, s.clientWidth, s.clientHeight, s.screen.desktopWidth, s.screen.desktopHeight).Some?
    requires var c := SelectImage(s.imageEncoding, s.imageQuality, false, false, e);
      c.Some? && |c.value.data| > 0
    ensures var d := Regulate(RegulatorState(s.screen.imageCount, s.screen.imageBuffer), s.imageQuantity, s.screen.desktopWidth, s.screen.desktopHeight, r).1;
      var sr := ScaleRegion(d.region, s.scaleDisplay, s.clientWidth, s.clientHeight, s.screen.desktopWidth, s.screen.desktopHeight).value;
      var c := SelectImage(s.imageEncoding, s.imageQuality, false, false, e).value;
      var idx := NextCount(s.screen.imageIdx);
      SendRegion(s, r, e).screen.imageIdx == idx &&
      SendRegion(s, r, e).updates ==
        s.updates + ImageFrame(ImageSend(idx, sr.left, sr.top, sr.right - sr.left, sr.bottom - sr.top, c.format, c.quality, c.data, false))
  {
    var (reg, d) := Regulate(RegulatorState(s.screen.imageCount, s.screen.imageBuffer), s.imageQuantity, s.screen.desktopWidth, s.screen.desktopHeight, r);
    var sr := ScaleRegion(d.region, s.scaleDisplay, s.clientWidth, s.clientHeight, s.screen.desktopWidth, s.screen.desktopHeight).value;
    SendRegionSpec(s, r, e);
    ProcessImageSpec(s.screen.imageIdx, s.imageEncoding, s.imageQuality, sr.left, sr.top, sr.right, sr.bottom, false, false, e);
  }

  /**
   * `SCN` asks for a screenshot and sends the screen at once: when the
   * screen image is sent, it takes the screenshot and clears the request;
   * when there is nothing to send, the request stays pending.
   */
  lemma ScreenshotRequested(s: Session, args: string)
    requires 0 <= s.screen.imageIdx <= INT_MAX
    ensures var c := SelectImage(s.imageEncoding, s.imageQuality, true, true, s.screenImage);
      var t := Dispatch(s, Command.TakeScreenshot, args);
      (c.Some? && |c.value.data| > 0 ==>
         !t.screenshotEnabled && t.effects == s.effects + [Effect.TakeScreenshot] &&
         t.screen.imageIdx == NextCount(s.screen.imageIdx)) &&
      (!(c.Some? && |c.value.data| > 0) ==>
         t.screenshotEnabled && t.effects == s.effects && t.updates == s.updates)
  {
    var r := ScreenRect(s.scaleDisplay, s.clientWidth, s.clientHeight, s.screen.desktopWidth, s.screen.desktopHeight);
    ProcessImageSpec(s.screen.imageIdx, s.imageEncoding, s.imageQuality, r.left, r.top, r.right, r.bottom, true, true, s.screenImage);
  }

  /**
   * `FSU` sends the screen at once: with an open pipe and a non-empty
   * stream, one full-screen image of the client area when scaling, of the
   * desktop otherwise, numbered with the next index.
   */
  lemma FullscreenUpdateSent(s: Session, args: string)
    requires 0 <= s.screen.imageIdx <= INT_MAX && s.updatesOpen
    requires var c := SelectImage(s.imageEncoding, s.imageQuality, true, args == "adaptive", s.screenImage);
      c.Some? && |c.value.data| > 0
    ensures var c := SelectImage(s.imageEncoding, s.imageQuality, true, args == "adaptive", s.screenImage).value;
      var (w, h) := if s.scaleDisplay then (s.clientWidth, s.clientHeight) else (s.screen.desktopWidth, s.screen.desktopHeight);
      var idx := NextCount(s.screen.imageIdx);
      var t := Dispatch(s, RequestFullscreenUpdate, args);
      t.screen.imageIdx == idx &&
      t.updates == s.updates + ImageFrame(ImageSend(idx, 0, 0, w, h, c.format, c.quality, c.data, true))
  {
    var r := ScreenRect(s.scaleDisplay, s.clientWidth, s.clientHeight, s.screen.desktopWidth, s.screen.desktopHeight);
    ProcessImageSpec(s.screen.imageIdx, s.imageEncoding, s.imageQuality, r.left, r.top, r.right, r.bottom, true, args == "adaptive", s.screenImage);
  }

  /**
   * The logon settings are stored as the text the gateway sent, up to any
   * NUL; a user name with no domain set is handed to
   * `freerdp_parse_username` instead, which may split a domain off it.
   */
  lemma LogonRead(s: Session, text: string)
    requires '\0' !in text
    ensures Dispatch(s, SendUserDomain, text).settings == s.settings.(domain := Some(text))
    ensures Dispatch(s, SendUserPassword, text).settings == s.settings.(password := Some(text))
    ensures Dispatch(s, SendStartProgram, text).settings == s.settings.(alternateShell := Some(text))
    ensures s.settings.domain.Some? ==> Dispatch(s, SendUserName, text).settings == s.settings.(username := Some(text))
    ensures s.settings.domain.None? ==> Dispatch(s, SendUserName, text) == s.(effects := s.effects + [ParseUsername(text)])
  {
    UntilFirstWhole(text, '\0');
  }

  /** A cursor update keeps the session valid; a cursor without both a mask and a visible pixel sends nothing and keeps the index. */
  lemma SendCursorPreservesValid(s: Session, transparent: bool, color: bool, png: seq<byte>, hotX: int, hotY: int, width: int, height: int)
    requires Valid(s)
    ensures Valid(SendCursor(s, transparent, color, png, hotX, hotY, width, height))
    ensures !(transparent && color) ==> SendCursor(s, transparent, color, png, hotX, hotY, width, height) == s
  {
    ProcessCursorSpec(s.screen.imageIdx, transparent, color, png, hotX, hotY, width, height);
  }

  /** A turn of the reader keeps the session valid. */
  lemma ReadStepPreservesValid(s: Session, rd: Reader)
    requires Valid(s)
    ensures Valid(ReadStep(s, rd).0)
  {
    var want: uint32 := if rd.sizeHeader then 4 else rd.bytesToRead;
    if !(want > 0 && rd.inputs == []) {
      var n := if want <= |rd.inputs| then want else |rd.inputs|;
      if n != 0 && !rd.sizeHeader {
        HandleMessagePreservesValid(s, Chars(rd.inputs[..n]));
      }
    }
  }

  lemma {:induction false} RunPreservesValid(s: Session, rd: Reader, fuel: nat)
    requires Valid(s)
    ensures Valid(Run(s, rd, fuel).0)
    decreases fuel
  {
    if fuel > 0 && s.processInputs && !s.aborted {
      ReadStepPreservesValid(s, rd);
      var (s1, rd1) := ReadStep(s, rd);
      RunPreservesValid(s1, rd1, fuel - 1);
    }
  }

  /** The first turn on a frame: the header sets the payload length and consumes 4 bytes. */
  lemma HeaderRead(s: Session, payload: seq<byte>, rest: seq<byte>)
    requires 0 < |payload| <= INT_MAX
    ensures ReadStep(s, Start(Int32Bytes(|payload|) + payload + rest)) == (s, Reader(false, |payload|, payload + rest))
  {
    var inputs := Int32Bytes(|payload|) + payload + rest;
    assert inputs[..4] == Int32Bytes(|payload|);
    assert inputs[4..] == payload + rest;
    assert Header(inputs[..4]) == inputs[..4];
    Int32RoundTrip(|payload|);
  }

  /** The second turn: the payload is handled as one message and the reader is back at a header. */
  lemma {:induction false} PayloadRead(s: Session, payload: seq<byte>, rest: seq<byte>)
    requires 0 < |payload| <= INT_MAX
    ensures ReadStep(s, Reader(false, |payload|, payload + rest)) == (HandleMessage(s, Chars(payload)), Reader(true, |payload|, rest))
  {
    var more := payload + rest;
    assert more[..|payload|] == payload && more[|payload|..] == rest;
  }

  /**
   * A frame the gateway writes — the payload length, then the payload — is
   * read in two turns of the loop: the payload is handled as one message,
   * and the reader is back at a header with the rest of the pipe.
   */
  lemma {:induction false} FrameRead(s: Session, payload: seq<byte>, rest: seq<byte>)
    requires 0 < |payload| <= INT_MAX && s.processInputs && !s.aborted
    ensures Run(s, Start(Int32Bytes(|payload|) + payload + rest), 2) == (HandleMessage(s, Chars(payload)), Reader(true, |payload|, rest))
  {
    HeaderRead(s, payload, rest);
    PayloadRead(s, payload, rest);
  }

  /** With the gateway's end closed, the next read fails and the loop stops. */
  lemma {:induction false} ClosedPipeStops(s: Session, rd: Reader)
    requires rd.inputs == [] && (rd.sizeHeader || rd.bytesToRead > 0)
    ensures !ReadStep(s, rd).0.processInputs
    ensures Run(s, rd, 2).0 == Run(s, rd, 1).0
  {
  }

  /**
   * A payload length of 0 leaves the reader waiting for a payload it asks 0
   * bytes for: every turn reads nothing and the header state never flips, so
   * no later message is ever handled.
   */
  lemma {:induction false} ZeroLengthStalls(s: Session, inputs: seq<byte>, fuel: nat)
    ensures Run(s, Reader(false, 0, inputs), fuel) == (s, Reader(false, 0, inputs))
    decreases fuel
  {
    if fuel > 0 && s.processInputs && !s.aborted {
      assert inputs[0..] == inputs;
      assert ReadStep(s, Reader(false, 0, inputs)) == (s, Reader(false, 0, inputs));
      ZeroLengthStalls(s, inputs, fuel - 1);
    }
  }
}
