/**
 * The bridge as the source runs it: `wfMyrtille` and the settings it writes
 * are the fields of a `Client`, and each operation updates them in place.
 * Every method is proved to leave the object in the session that the
 * function of the same name in module `State` computes from the old one.
 */
module Bridge {
  import opened Native
  import opened Wire
  import opened Text
  import opened Commands
  import opened Regulator
  import opened Encoder
  import opened Framing
  import opened Input
  import opened Cursor
  import State

  /**
   * The regulator steps of `wf_myrtille_send_region` on `imageCount` and
   * `imageBuffer`: the consistency check, the counter, the consolidation of
   * the region into the buffer, and the sampling cadence.
   */
  method RegulatorStep(count: int, buffer: Rect, quantity: int, dw: int, dh: int, r: Rect)
    returns (count': int, buffer': Rect, decision: Decision)
    ensures (RegulatorState(count', buffer'), decision) == Regulate(RegulatorState(count, buffer), quantity, dw, dh, r)
  {
    count', buffer' := count, buffer;
    if !InDesktop(r, dw, dh) {
      return count', buffer', Dropped;
    }
    if count' == INT_MAX {
      count' := 0;
    }
    count' := count' + 1;
    if !IsSamplingQuantity(quantity) {
      return count', buffer', Forwarded(r);
    }
    if buffer'.top == -1 || r.top < buffer'.top {
      buffer' := buffer'.(top := r.top);
    }
    if buffer'.left == -1 || r.left < buffer'.left {
      buffer' := buffer'.(left := r.left);
    }
    if buffer'.bottom == -1 || r.bottom > buffer'.bottom {
      buffer' := buffer'.(bottom := r.bottom);
    }
    if buffer'.right == -1 || r.right > buffer'.right {
      buffer' := buffer'.(right := r.right);
    }
    if count' % Period(quantity) != 0 {
      return count', buffer', Suppressed;
    }
    decision := Forwarded(r);
    if buffer'.top != -1 && buffer'.left != -1 && buffer'.bottom != -1 && buffer'.right != -1 {
      decision := Forwarded(buffer');
    }
    buffer' := EmptyBuffer;
  }

  class Client {
    var settings: State.Settings
    var processInputs: bool
    var imageEncoding: int
    var imageQuality: int
    var imageQuantity: int
    var desktopWidth: int
    var desktopHeight: int
    var imageCount: int
    var imageBuffer: Rect
    var imageIdx: int
    var scaleDisplay: bool
    var clientWidth: int
    var clientHeight: int
    var audioFormat: int
    var audioBitrate: int
    var screenshotIntervalSecs: int
    var screenshotFormat: int
    var screenshotPath: string
    var screenshotEnabled: bool
    var clipboardText: seq<uint16>
    var commandMap: map<string, Command>
    var updatesOpen: bool
    var updates: seq<byte>
    var hasClipboardChannel: bool
    var screenImage: Encoded
    var effects: seq<State.Effect>
    var aborted: bool

    /** The session this object holds. */
    function Model(): State.Session
      reads this
    {
      State.Session(settings, processInputs, imageEncoding, imageQuality, imageQuantity,
                    State.Screen(desktopWidth, desktopHeight, imageCount, imageBuffer, imageIdx),
                    scaleDisplay, clientWidth, clientHeight, audioFormat, audioBitrate,
                    screenshotIntervalSecs, screenshotFormat, screenshotPath, screenshotEnabled,
                    clipboardText, commandMap, updatesOpen, updates, hasClipboardChannel, screenImage, effects, aborted)
    }

    /** `wf_myrtille_start`: the defaults, the command table, and the pipes as they were opened. */
    constructor (settings: State.Settings, desktopWidth: int, desktopHeight: int, updatesOpen: bool, hasClipboardChannel: bool,
                 screenImage: Encoded)
      ensures Model() == State.Initial(settings, desktopWidth, desktopHeight, updatesOpen, hasClipboardChannel, screenImage)
      ensures State.Valid(Model())
    {
      this.settings := settings;
      processInputs := true;
      imageEncoding := ENCODING_AUTO;
      imageQuality := QUALITY_HIGH;
      imageQuantity := 100;
      this.desktopWidth := desktopWidth;
      this.desktopHeight := desktopHeight;
      imageCount := 0;
      imageBuffer := EmptyBuffer;
      imageIdx := 0;
      scaleDisplay := false;
      clientWidth := desktopWidth;
      clientHeight := desktopHeight;
      audioFormat := State.AUDIO_FORMAT_MP3;
      audioBitrate := 128;
      screenshotIntervalSecs := 60;
      screenshotFormat := FORMAT_PNG;
      screenshotPath := "";
      screenshotEnabled := false;
      clipboardText := [];
      commandMap := CommandTable;
      this.updatesOpen := updatesOpen;
      updates := [];
      this.hasClipboardChannel := hasClipboardChannel;
      this.screenImage := screenImage;
      effects := [];
      aborted := false;
      new;
      State.InitialValid(settings, desktopWidth, desktopHeight, updatesOpen, hasClipboardChannel, screenImage);
    }

    // ---------------------------------------------------------------- sending

    /** `sendMessage`: the frame is built in a buffer and written to the updates pipe. */
    method SendMessage(msg: seq<uint16>)
      modifies this
      ensures Model() == State.SendMessage(old(Model()), msg)
    {
      if |msg| == 0 {
        return;
      }
      var buffer := WriteMessage(msg);
      if updatesOpen {
        updates := updates + buffer[..];
      } else {
        processInputs := false;
      }
    }

    /** `sendImage`: the 40-byte header, then the image data, in one write. */
    method SendImage(img: ImageSend)
      modifies this
      ensures Model() == State.SendImage(old(Model()), img)
    {
      var header := WriteImageHeader(img);
      if updatesOpen {
        updates := updates + (header[..] + img.data);
      } else {
        processInputs := false;
      }
      ghost var s1 := Model();
      if screenshotEnabled && img.fullscreen {
        screenshotEnabled := false;
        effects := effects + [State.Effect.TakeScreenshot];
        assert Model() == State.Emit(s1.(screenshotEnabled := false), State.Effect.TakeScreenshot);
      }
    }

    /** `processImage`, given the streams the encoders produced. */
    method ProcessImage(left: int, top: int, right: int, bottom: int, fullscreen: bool, adaptive: bool, e: Encoded)
      modifies this
      ensures Model() == State.ProcessImage(old(Model()), left, top, right, bottom, fullscreen, adaptive, e)
    {
      var (idx, sent) := Encoder.ProcessImage(imageIdx, imageEncoding, imageQuality, left, top, right, bottom, fullscreen, adaptive, e);
      imageIdx := idx;
      ghost var s1 := Model();
      assert s1 == old(Model()).(screen := old(Model()).screen.(imageIdx := idx));
      if sent.Some? {
        SendImage(sent.value);
      }
    }

    /** `wf_myrtille_send_region`: the consistency check, the regulator, the scaling, then the image. */
    method SendRegion(r: Rect, e: Encoded)
      modifies this
      ensures Model() == State.SendRegion(old(Model()), r, e)
    {
      var count, buffer, decision := RegulatorStep(imageCount, imageBuffer, imageQuantity, desktopWidth, desktopHeight, r);
      imageCount, imageBuffer := count, buffer;
      ghost var s1 := Model();
      assert s1 == old(Model()).(screen := old(Model()).screen.(imageCount := count, imageBuffer := buffer));
      if !decision.Forwarded? {
        return;
      }
      var scaled := ScaleRegion(decision.region, scaleDisplay, clientWidth, clientHeight, desktopWidth, desktopHeight);
      if scaled.None? {
        aborted := true;
        return;
      }
      var sr := scaled.value;
      ProcessImage(sr.left, sr.top, sr.right, sr.bottom, false, false, e);
    }

    /** `wf_myrtille_send_screen`. */
    method SendScreen(adaptive: bool, e: Encoded)
      modifies this
      ensures Model() == State.SendScreen(old(Model()), adaptive, e)
    {
      var r := ScreenRect(scaleDisplay, clientWidth, clientHeight, desktopWidth, desktopHeight);
      ProcessImage(r.left, r.top, r.right, r.bottom, true, adaptive, e);
    }

    /**
     * `wf_myrtille_send_cursor`: the transparency pass over the cursor's
     * bitmap, then the cursor is sent when it has both a mask and a visible
     * pixel; `png` is the encoder's output for the bitmap after the pass.
     */
    method SendCursor(bits: array2<uint32>, png: seq<byte>, hotX: int, hotY: int) returns (transparent: bool, color: bool)
      modifies this, bits
      ensures forall y, x :: 0 <= y < bits.Length0 && 0 <= x < bits.Length1 ==> bits[y, x] == MaskPixel(old(bits[y, x]))
      ensures transparent <==> exists y, x :: 0 <= y < bits.Length0 && 0 <= x < bits.Length1 && IsMask(old(bits[y, x]))
      ensures color <==> exists y, x :: 0 <= y < bits.Length0 && 0 <= x < bits.Length1 && !IsMask(old(bits[y, x]))
      ensures Model() == State.SendCursor(old(Model()), transparent, color, png, hotX, hotY, bits.Length1, bits.Length0)
    {
      transparent, color := MaskCursor(bits);
      var (idx, sent) := ProcessCursor(imageIdx, transparent, color, png, hotX, hotY, bits.Length1, bits.Length0);
      imageIdx := idx;
      ghost var s1 := Model();
      assert s1 == old(Model()).(screen := old(Model()).screen.(imageIdx := idx));
      if sent.Some? {
        SendImage(sent.value);
      }
    }

    /** `wf_myrtille_send_server_clipboard`. */
    method SendServerClipboard(data: seq<byte>)
      modifies this
      ensures Model() == State.SendServerClipboard(old(Model()), data)
    {
      SendMessage(ClipboardMessage(data));
    }

    // ------------------------------------------------------------ the reader

    /** `processInputsPipe`, for at most `fuel` turns of its loop; the reader's state at the end is returned. */
    method ProcessInputsPipe(inputs: seq<byte>, fuel: nat) returns (rd: State.Reader)
      modifies this
      ensures (Model(), rd) == State.Run(old(Model()), State.Start(inputs), fuel)
    {
      var sizeHeader := true;
      var bytesToRead: uint32 := 4;
      var pipe := inputs;
      var turns := 0;
      while turns < fuel && processInputs && !aborted
        invariant turns <= fuel
        invariant State.Run(Model(), State.Reader(sizeHeader, bytesToRead, pipe), fuel - turns) ==
                  State.Run(old(Model()), State.Start(inputs), fuel)
        decreases fuel - turns
      {
        var next := ReadTurn(State.Reader(sizeHeader, bytesToRead, pipe));
        sizeHeader, bytesToRead, pipe := next.sizeHeader, next.bytesToRead, next.inputs;
        turns := turns + 1;
      }
      rd := State.Reader(sizeHeader, bytesToRead, pipe);
    }

    /** One turn of the loop: a read of the size header or of the payload, and the payload's dispatch. */
    method ReadTurn(rd: State.Reader) returns (next: State.Reader)
      modifies this
      ensures (Model(), next) == State.ReadStep(old(Model()), rd)
    {
      var bytesToRead: uint32 := if rd.sizeHeader then 4 else rd.bytesToRead;
      if bytesToRead > 0 && rd.inputs == [] {
        processInputs := false;
        return rd.(bytesToRead := bytesToRead);
      }
      var bytesRead := if bytesToRead <= |rd.inputs| then bytesToRead else |rd.inputs|;
      var buffer, rest := rd.inputs[..bytesRead], rd.inputs[bytesRead..];
      if bytesRead == 0 {
        next := State.Reader(rd.sizeHeader, bytesToRead, rest);
      } else if rd.sizeHeader {
        next := State.Reader(false, ToDword(BytesToInt32(State.Header(buffer))), rest);
      } else {
        HandleMessage(State.Chars(buffer));
        next := State.Reader(true, bytesToRead, rest);
      }
    }

    // --------------------------------------------------------------- dispatch

    /** A payload: the tag looked up in `commandMap`, then the command run on the rest. */
    method HandleMessage(message: string)
      modifies this
      ensures Model() == State.HandleMessage(old(Model()), message)
    {
      var tag := message[..if |message| < 3 then |message| else 3];
      var (command, m) := LookupCommand(commandMap, tag);
      commandMap := m;
      ghost var s1 := Model();
      assert s1 == old(Model()).(commandMap := m);
      if |message| < 3 {
        aborted := true;
        return;
      }
      Dispatch(command, message[3..]);
    }

    /** The `switch` on the command, by group of commands. */
    method Dispatch(command: Command, args: string)
      modifies this
      ensures Model() == State.Dispatch(old(Model()), command, args)
    {
      match State.GroupOf(command)
      case ConnectionCommands => Connect(command, args);
      case LogonCommands => Logon(command, args);
      case BrowserCommands => Browser(command, args);
      case MouseCommands => MouseCommand(command, args);
      case DisplayCommands => DisplayCommand(command, args);
      case ImageCommands => ImageCommand(command, args);
      case AudioCommands => AudioCommand(command, args);
      case ScreenshotCommands => ScreenshotCommand(command, args);
      case SessionCommands => SessionCommand(command, args);
    }

    method Connect(command: Command, args: string)
      modifies this
      ensures Model() == State.Connect(old(Model()), command, args)
    {
      if command.SendServerAddress? {
        var address := ServerAddress(args, settings.port);
        settings := settings.(hostname := address.hostname, port := address.port);
      } else if command.SendVmGuid? {
        settings := settings.(vmConnectMode := true, port := 2179, negotiateSecurityLayer := false,
                              sendPreconnectionPdu := true, preconnectionBlob := Some(CStr(args)));
      } else if command.ConnectClient? {
        effects := effects + [State.StartClientThread];
      }
    }

    method Logon(command: Command, args: string)
      modifies this
      ensures Model() == State.Logon(old(Model()), command, args)
    {
      if command.SendUserDomain? {
        settings := settings.(domain := Some(CStr(args)));
      } else if command.SendUserName? {
        if settings.domain.None? {
          effects := effects + [State.ParseUsername(CStr(args))];
        } else {
          settings := settings.(username := Some(CStr(args)));
        }
      } else if command.SendUserPassword? {
        settings := settings.(password := Some(CStr(args)));
      } else if command.SendStartProgram? {
        settings := settings.(alternateShell := Some(CStr(args)));
      }
    }

    method Browser(command: Command, args: string)
      modifies this
      ensures Model() == State.Browser(old(Model()), command, args)
    {
      if command.SendBrowserResize? {
        if scaleDisplay {
          ResizeAndReload(State.ResizeRequest(args));
        }
      } else if command.SendKeyUnicode? {
        KeyStroke(KeyInput(true, args));
      } else if command.SendKeyScancode? {
        KeyStroke(KeyInput(false, args));
      }
    }

    method MouseCommand(command: Command, args: string)
      modifies this
      ensures Model() == State.MouseCommand(old(Model()), command, args)
    {
      var (sd, cw, ch, dw, dh) := (scaleDisplay, clientWidth, clientHeight, desktopWidth, desktopHeight);
      if command.SendMouseMove? {
        PointerInput(MouseInput(args, PTR_FLAGS_MOVE, sd, cw, ch, dw, dh));
      } else if command.SendMouseLeftButton? {
        PointerInput(ButtonInput(args, PTR_FLAGS_BUTTON1, sd, cw, ch, dw, dh));
      } else if command.SendMouseMiddleButton? {
        PointerInput(ButtonInput(args, PTR_FLAGS_BUTTON3, sd, cw, ch, dw, dh));
      } else if command.SendMouseRightButton? {
        PointerInput(ButtonInput(args, PTR_FLAGS_BUTTON2, sd, cw, ch, dw, dh));
      } else if command.SendMouseWheelUp? {
        PointerInput(MouseInput(args, WHEEL_UP, sd, cw, ch, dw, dh));
      } else if command.SendMouseWheelDown? {
        PointerInput(MouseInput(args, WHEEL_DOWN, sd, cw, ch, dw, dh));
      }
    }

    method DisplayCommand(command: Command, args: string)
      modifies this
      ensures Model() == State.DisplayCommand(old(Model()), command, args)
    {
      if command.SetScaleDisplay? {
        scaleDisplay := args != "0";
        ghost var s1 := Model();
        assert s1 == old(Model()).(scaleDisplay := args != "0");
        if scaleDisplay {
          ResizeAndReload(State.ResizeRequest(args));
        } else {
          SendMessage(State.Reload);
        }
      } else if command.SetReconnectSession? {
        var fields := Split(args, '|');
        if |fields| == 2 && fields[1] == "1" {
          SendMessage(State.Reload);
        }
      }
    }

    method ImageCommand(command: Command, args: string)
      modifies this
      ensures Model() == State.ImageCommand(old(Model()), command, args)
    {
      if command.SetImageEncoding? || command.SetImageQuality? || command.SetImageQuantity? {
        var v := Stoi(args);
        if v.None? {
          aborted := true;
        } else if command.SetImageEncoding? {
          imageEncoding, imageQuality := v.value, QUALITY_HIGH;
        } else if command.SetImageQuality? {
          imageQuality := v.value;
        } else {
          imageQuantity := v.value;
        }
      }
    }

    method AudioCommand(command: Command, args: string)
      modifies this
      ensures Model() == State.AudioCommand(old(Model()), command, args)
    {
      if command.SetAudioFormat? || command.SetAudioBitrate? {
        var v := Stoi(args);
        if v.None? {
          aborted := true;
        } else if command.SetAudioFormat? {
          audioFormat := v.value;
        } else {
          audioBitrate := v.value;
        }
      }
    }

    method ScreenshotCommand(command: Command, args: string)
      modifies this
      ensures Model() == State.ScreenshotCommand(old(Model()), command, args)
    {
      if command.SetScreenshotConfig? {
        ScreenshotConfig(Split(args, '|'));
      } else if command.TakeScreenshot? {
        screenshotEnabled := true;
        SendScreen(true, screenImage);
      } else if command.RequestFullscreenUpdate? {
        SendScreen(args == "adaptive", screenImage);
      }
    }

    method SessionCommand(command: Command, args: string)
      modifies this
      ensures Model() == State.SessionCommand(old(Model()), command, args)
    {
      if command.SendLocalClipboard? {
        clipboardText := Wide(CStr(args));
        if hasClipboardChannel {
          effects := effects + [State.ClipboardMonitorReady];
        }
      } else if command.CloseClient? {
        processInputs := false;
      }
    }

    /** `processResizeDisplay` on the parsed size, then the reload message. */
    method ResizeAndReload(r: Resize)
      modifies this
      ensures Model() == State.ResizeAndReload(old(Model()), r)
    {
      if r.ResizeFault? {
        aborted := true;
        return;
      }
      ApplyResize(r);
      SendMessage(State.Reload);
    }

    /** `processResizeDisplay`: the client size, or the aspect-keeping resize. */
    method ApplyResize(r: Resize)
      modifies this
      ensures Model() == State.ApplyResize(old(Model()), r)
    {
      match r {
        case ClientSize(w, h) =>
          clientWidth, clientHeight := w, h;
        case KeepAspect(w, h) =>
          effects := effects + [State.KeepAspectResize(w, h)];
        case NoResize =>
        case ResizeFault =>
      }
    }

    method KeyStroke(k: KeyEvent)
      modifies this
      ensures Model() == State.KeyStroke(old(Model()), k)
    {
      if !k.NoKey? {
        effects := effects + [State.Key(k)];
      }
    }

    method PointerInput(p: PointerEvent)
      modifies this
      ensures Model() == State.PointerInput(old(Model()), p)
    {
      match p
      case NoEvent =>
      case Pointer(flags, x, y) =>
        effects := effects + [State.Mouse(flags, x, y)];
      case Fault =>
        aborted := true;
    }

    /** `interval|format|path`, read in order: a bad format throws after the interval was stored. */
    method ScreenshotConfig(fields: seq<string>)
      modifies this
      ensures Model() == State.ScreenshotConfig(old(Model()), fields)
    {
      if |fields| != 3 {
        return;
      }
      var interval := Stoi(fields[0]);
      if interval.None? {
        aborted := true;
        return;
      }
      screenshotIntervalSecs := interval.value;
      ScreenshotFormat(fields[1], fields[2]);
    }

    method ScreenshotFormat(format: string, path: string)
      modifies this
      ensures Model() == State.ScreenshotFormat(old(Model()), format, path)
    {
      var f := Stoi(format);
      if f.None? {
        aborted := true;
        return;
      }
      screenshotFormat, screenshotPath := f.value, path;
    }
  }
}
