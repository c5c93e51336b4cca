/**
 * The arguments of the inbound input commands: the server address of
 * `SEND_SERVER_ADDRESS`, the key events of `SEND_KEY_UNICODE` and
 * `SEND_KEY_SCANCODE`, the pointer events of `processMouseInput`, and the
 * resolution of `processResizeDisplay`. The FreeRDP input callbacks are not
 * called here: an event is the flags and values they would be passed.
 */
module Input {
  import opened Native
  import opened Text
  import opened Regulator

  // Pointer event flags (section 2.2.8.1.1.3.1.1.3 of MS-RDPBCGR)
  const PTR_FLAGS_WHEEL_NEGATIVE: bv16 := 0x0100
  const PTR_FLAGS_WHEEL: bv16 := 0x0200
  const PTR_FLAGS_MOVE: bv16 := 0x0800
  const PTR_FLAGS_DOWN: bv16 := 0x8000
  const PTR_FLAGS_BUTTON1: bv16 := 0x1000
  const PTR_FLAGS_BUTTON2: bv16 := 0x2000
  const PTR_FLAGS_BUTTON3: bv16 := 0x4000

  // Keyboard event flags (section 2.2.8.1.1.3.1.1.1 of MS-RDPBCGR)
  const KBD_FLAGS_EXTENDED: bv16 := 0x0100
  const KBD_FLAGS_DOWN: bv16 := 0x4000
  const KBD_FLAGS_RELEASE: bv16 := 0x8000

  /** The low 16 bits of an `int` passed as a `UINT16` argument. */
  function ToUint16(v: int): (r: uint16)
    ensures (r - v) % 0x1_0000 == 0
    ensures 0 <= v < 0x1_0000 ==> r == v
  {
    v % 0x1_0000
  }

  // ---------------------------------------------------------- server address

  /** The server settings `SEND_SERVER_ADDRESS` leaves: the host name (`NULL` as `None`) and the `UINT32` port. */
  datatype Address = Address(hostname: Option<string>, port: uint32)

  /**
   * The address arguments read through `c_str()`: without `[`, a host name
   * and an optional `:port`; with `[`, the text up to the first `]` and an
   * optional `:port` right after it. The host name is cleared first and
   * stays `NULL` when there is no `]`, or when it comes before the `[`
   * (`calloc` of a negative length fails). The port is kept unless one is
   * given; the `int` that `atoi` reads is stored into the `UINT32` setting,
   * so a negative port wraps.
   */
  function ServerAddress(args: string, port: uint32): Address {
    var a := CStr(args);
    match IndexOf(a, '[')
    case None =>
      (match IndexOf(a, ':')
       case Some(i) => Address(Some(a[..i]), ToDword(Atoi(a[i + 1..])))
       case None => Address(Some(a), port))
    case Some(p) =>
      (match IndexOf(a, ']')
       case None => Address(None, port)
       case Some(p2) =>
         if p2 < p then Address(None, port)
         else Address(Some(a[p + 1..p2]), if p2 + 1 < |a| && a[p2 + 1] == ':' then ToDword(Atoi(a[p2 + 2..])) else port))
  }

  /** No `c`, `[` or NUL: a host name or bracketed address written as is. */
  predicate PlainText(s: string, c: char) {
    c !in s && '[' !in s && '\0' !in s
  }

  /** `host:port` sets both, for every host name without `:`, `[` or NUL and every 32-bit port; a negative port is stored modulo 2^32. */
  lemma HostAndPort(host: string, port: int, oldPort: uint32)
    requires PlainText(host, ':') && IsInt32(port)
    ensures ServerAddress(host + ":" + IntString(port), oldPort) == Address(Some(host), ToDword(port))
  {
    var a := host + ":" + IntString(port);
    NoNulInDecimal(port);
    assert '\0' !in a && '[' !in a;
    UntilFirstWhole(a, '\0');
    IndexOfAfterPrefix(host, ":" + IntString(port), ':');
    assert a == host + (":" + IntString(port));
    assert a[..|host|] == host && a[|host| + 1..] == IntString(port);
    StoiOfDecimal(port);
  }

  /** A host name alone sets the host name and keeps the port. */
  lemma HostOnly(host: string, oldPort: uint32)
    requires PlainText(host, ':')
    ensures ServerAddress(host, oldPort) == Address(Some(host), oldPort)
  {
    UntilFirstWhole(host, '\0');
  }

  /** `[addr]:port` sets the address between the brackets, `:` included, and the port, modulo 2^32. */
  lemma BracketedAndPort(addr: string, port: int, oldPort: uint32)
    requires PlainText(addr, ']') && IsInt32(port)
    ensures ServerAddress("[" + addr + "]:" + IntString(port), oldPort) == Address(Some(addr), ToDword(port))
  {
    var rest := "]:" + IntString(port);
    NoNulInDecimal(port);
    Bracketed(addr, rest);
    assert "[" + addr + "]:" + IntString(port) == "[" + addr + rest;
    assert rest[2..] == IntString(port);
    StoiOfDecimal(port);
  }

  /** `[addr]` alone sets the address and keeps the port. */
  lemma BracketedOnly(addr: string, oldPort: uint32)
    requires PlainText(addr, ']')
    ensures ServerAddress("[" + addr + "]", oldPort) == Address(Some(addr), oldPort)
  {
    Bracketed(addr, "]");
  }

  /** Where `strchr` finds the brackets of `[addr]...`. */
  lemma {:induction false} Bracketed(addr: string, rest: string)
    requires PlainText(addr, ']') && rest != [] && rest[0] == ']' && '\0' !in rest
    ensures var a := "[" + addr + rest;
      CStr(a) == a && IndexOf(a, '[') == Some(0) && IndexOf(a, ']') == Some(|addr| + 1) &&
      a[1..|addr| + 1] == addr && a[|addr| + 1..] == rest
  {
    var a := "[" + addr + rest;
    assert '\0' !in a;
    UntilFirstWhole(a, '\0');
    IndexOfAfterPrefix([], a, '[');
    IndexOfAfterPrefix("[" + addr, rest, ']');
  }

  /** An opening bracket that is never closed leaves no host name at all. */
  lemma UnclosedBracket(args: string, oldPort: uint32)
    requires '[' in CStr(args) && ']' !in CStr(args)
    ensures ServerAddress(args, oldPort) == Address(None, oldPort)
  {
  }

  /** The decimal text of an integer has no NUL in it. */
  lemma NoNulInDecimal(v: int)
    ensures '\0' !in IntString(v) && '[' !in IntString(v)
  {
    IntStringChars(v);
  }

  // --------------------------------------------------------------------- keys

  /** What the keystroke commands send: nothing, a Unicode key event or a scancode key event. */
  datatype KeyEvent = NoKey | UnicodeKey(flags: bv16, code: uint16) | ScancodeKey(flags: bv16, code: uint16)

  function PressFlags(pressed: string): bv16 {
    if pressed == "1" then KBD_FLAGS_DOWN else KBD_FLAGS_RELEASE
  }

  /**
   * `code-pressed` for a Unicode key, `code-pressed-extended` for a scancode:
   * fewer than two `-`-separated fields are ignored; a scancode needs exactly three.
   */
  function KeyInput(unicode: bool, args: string): KeyEvent {
    var fields := Split(args, '-');
    if |fields| < 2 then NoKey
    else if unicode then UnicodeKey(PressFlags(fields[1]), ToUint16(Atoi(fields[0])))
    else if |fields| == 3 then
      ScancodeKey((if fields[2] == "1" then KBD_FLAGS_EXTENDED else 0) | PressFlags(fields[1]), ToUint16(Atoi(fields[0])))
    else NoKey
  }

  /** A key event is a press exactly when its second field is `1`, a release otherwise; the extended flag follows the third field. */
  lemma {:induction false} KeyFlags(unicode: bool, args: string)
    ensures var fields := Split(args, '-');
      var e := KeyInput(unicode, args);
      (e.NoKey? <==> |fields| < 2 || (!unicode && |fields| != 3)) &&
      (!e.NoKey? ==> (e.flags & KBD_FLAGS_DOWN != 0 <==> fields[1] == "1") &&
                     (e.flags & KBD_FLAGS_RELEASE != 0 <==> fields[1] != "1")) &&
      (e.ScancodeKey? ==> (e.flags & KBD_FLAGS_EXTENDED != 0 <==> fields[2] == "1"))
  {
  }

  /** The scancode key the gateway writes as `code-pressed-extended` is read back. */
  lemma ScancodeRoundTrip(code: uint16, pressed: bool, extended: bool)
    ensures var args := IntString(code) + "-" + (if pressed then "1" else "0") + "-" + (if extended then "1" else "0");
      KeyInput(false, args) ==
        ScancodeKey((if extended then KBD_FLAGS_EXTENDED else 0) | (if pressed then KBD_FLAGS_DOWN else KBD_FLAGS_RELEASE), code)
  {
    var p := if pressed then "1" else "0";
    var x := if extended then "1" else "0";
    IntStringChars(code);
    assert '-' !in IntString(code);
    SplitThree(IntString(code), p, x, '-');
    StoiOfDecimal(code);
  }

  /**
   * A trailing `-` does not make an empty extended field: a scancode written
   * `code-pressed-` has two fields and is ignored, while a Unicode key written
   * so is sent as if the `-` were not there.
   */
  lemma {:induction false} TrailingSeparatorDropped(unicode: bool, fields: seq<string>)
    requires NoDelimiter(fields, '-') && |fields| == 2
    ensures Split(Join(fields + [[]], '-'), '-') == fields
    ensures !unicode ==> KeyInput(unicode, Join(fields + [[]], '-')) == NoKey
    ensures unicode && fields[1] != [] ==> KeyInput(unicode, Join(fields + [[]], '-')) == KeyInput(unicode, Join(fields, '-'))
  {
    TrailingEmptyFieldDropped(fields, '-');
    if fields[1] != [] {
      JoinSplit(fields, '-');
    }
  }

  // ------------------------------------------------------------------ pointer

  /** What `processMouseInput` does: no event, a pointer event, or a fault (`stoi` throws, or a division by zero). */
  datatype PointerEvent = NoEvent | Pointer(flags: bv16, x: uint16, y: uint16) | Fault

  /**
   * `processMouseInput`: `x-y` with both parts non-empty and non-negative
   * gives an event, in the order the guard tests them (a part `stoi` cannot
   * read throws when it is reached).
   */
  function MouseInput(input: string, flags: bv16, scaleDisplay: bool, cw: int, ch: int, dw: int, dh: int): (e: PointerEvent)
    ensures e.Pointer? ==> e.flags == flags
  {
    match IndexOf(input, '-')
    case None => NoEvent
    case Some(i) =>
      var mX, mY := input[..i], input[i + 1..];
      if mX == [] then NoEvent
      else match Stoi(mX)
        case None => Fault
        case Some(x) =>
          if x < 0 || mY == [] then NoEvent
          else match Stoi(mY)
            case None => Fault
            case Some(y) => if y < 0 then NoEvent else PointerAt(x, y, flags, scaleDisplay, cw, ch, dw, dh)
  }

  /**
   * The event for a valid position: passed on as is, or scaled from the
   * client to the desktop size when the display is scaled; the coordinates
   * are passed as `UINT16`.
   */
  function PointerAt(x: nat, y: nat, flags: bv16, scaleDisplay: bool, cw: int, ch: int, dw: int, dh: int): (e: PointerEvent)
    ensures e.Pointer? ==> e.flags == flags
  {
    if !Scales(scaleDisplay, dw, dh, cw, ch) then Pointer(flags, ToUint16(x), ToUint16(y))
    else match (ScaleCoord(x, dw, cw), ScaleCoord(y, dh, ch))
      case (Some(sx), Some(sy)) => Pointer(flags, ToUint16(sx), ToUint16(sy))
      case _ => Fault
  }

  /** The position text the gateway writes, `x-y`. */
  function Position(x: nat, y: nat): string {
    IntString(x) + "-" + IntString(y)
  }

  /** A position the gateway writes reaches the event as written. */
  lemma PositionRead(x: nat, y: nat, flags: bv16, scaleDisplay: bool, cw: int, ch: int, dw: int, dh: int)
    requires x <= INT_MAX && y <= INT_MAX
    ensures MouseInput(Position(x, y), flags, scaleDisplay, cw, ch, dw, dh) == PointerAt(x, y, flags, scaleDisplay, cw, ch, dw, dh)
  {
    PositionSplits(x, y);
    StoiOfDecimal(x);
    StoiOfDecimal(y);
    IntStringChars(y);
  }

  /** Where `find` splits a position the gateway writes. */
  lemma {:induction false} PositionSplits(x: nat, y: nat)
    ensures IndexOf(Position(x, y), '-') == Some(|IntString(x)|)
    ensures Position(x, y)[..|IntString(x)|] == IntString(x)
    ensures Position(x, y)[|IntString(x)| + 1..] == IntString(y)
  {
    var a := Position(x, y);
    IntStringChars(x);
    assert a == IntString(x) + ("-" + IntString(y));
    IndexOfAfterPrefix(IntString(x), "-" + IntString(y), '-');
  }

  /** Without scaling, a position is passed on as it was written, in its low 16 bits. */
  lemma MouseUnscaled(x: nat, y: nat, flags: bv16, scaleDisplay: bool, cw: int, ch: int, dw: int, dh: int)
    requires x <= INT_MAX && y <= INT_MAX
    requires !Scales(scaleDisplay, dw, dh, cw, ch)
    ensures MouseInput(Position(x, y), flags, scaleDisplay, cw, ch, dw, dh) == Pointer(flags, ToUint16(x), ToUint16(y))
  {
    PositionRead(x, y, flags, scaleDisplay, cw, ch, dw, dh);
  }

  /**
   * With scaling, a position inside the client area lands inside the
   * desktop: `x * dw / cw` is between 0 and `dw`.
   */
  lemma MouseScaled(x: nat, y: nat, flags: bv16, cw: int, ch: int, dw: int, dh: int)
    requires x <= cw && y <= ch && cw <= INT_MAX && ch <= INT_MAX
    requires 0 < cw && 0 < ch && 0 <= dw && 0 <= dh
    requires Scales(true, dw, dh, cw, ch)
    ensures var e := MouseInput(Position(x, y), flags, true, cw, ch, dw, dh);
      e.Pointer? && e.flags == flags &&
      0 <= CDiv(x * dw, cw) <= dw && 0 <= CDiv(y * dh, ch) <= dh &&
      e.x == ToUint16(CDiv(x * dw, cw)) && e.y == ToUint16(CDiv(y * dh, ch))
  {
    PositionRead(x, y, flags, true, cw, ch, dw, dh);
    ScaleCoordBounds(x, cw, dw, cw);
    ScaleCoordBounds(y, ch, dh, ch);
  }

  /** A scaled display whose client size is 0 makes every valid position a division by zero. */
  lemma MouseZeroClient(x: nat, y: nat, flags: bv16, ch: int, dw: int, dh: int)
    requires x <= INT_MAX && y <= INT_MAX
    requires Scales(true, dw, dh, 0, ch)
    ensures MouseInput(Position(x, y), flags, true, 0, ch, dw, dh) == Fault
  {
    PositionRead(x, y, flags, true, 0, ch, dw, dh);
  }

  /** A negative coordinate gives no event, whatever the other one is. */
  lemma MouseNegative(x: int, y: nat, flags: bv16, scaleDisplay: bool, cw: int, ch: int, dw: int, dh: int)
    requires INT_MIN <= x < 0
    ensures MouseInput(IntString(x) + "-" + IntString(y), flags, scaleDisplay, cw, ch, dw, dh) == NoEvent
  {
    var a := IntString(x) + "-" + IntString(y);
    IntStringChars(x);
    assert IntString(x) == "-" + DecimalString(-x);
    assert a[0] == '-';
    assert IndexOf(a, '-') == Some(0);
  }

  /** The button commands: the first character says press (`0` is a release), the rest is the position; empty arguments make `substr` throw. */
  function ButtonInput(args: string, button: bv16, scaleDisplay: bool, cw: int, ch: int, dw: int, dh: int): PointerEvent {
    if args == [] then Fault
    else MouseInput(args[1..], if args[..1] == "0" then button else PTR_FLAGS_DOWN | button, scaleDisplay, cw, ch, dw, dh)
  }

  /** A button event carries the button bit, and the down bit exactly when the first character is not `0`. */
  lemma ButtonFlags(args: string, button: bv16, scaleDisplay: bool, cw: int, ch: int, dw: int, dh: int)
    requires button == PTR_FLAGS_BUTTON1 || button == PTR_FLAGS_BUTTON2 || button == PTR_FLAGS_BUTTON3
    ensures var e := ButtonInput(args, button, scaleDisplay, cw, ch, dw, dh);
      (args == [] ==> e == Fault) &&
      (e.Pointer? ==> e.flags & button == button &&
                      (e.flags & PTR_FLAGS_DOWN != 0 <==> args[0] != '0') &&
                      e.flags & PTR_FLAGS_MOVE == 0)
  {
    var e := ButtonInput(args, button, scaleDisplay, cw, ch, dw, dh);
    if args != [] {
      assert args[..1] == "0" <==> args[0] == '0';
      var f := if args[0] == '0' then button else PTR_FLAGS_DOWN | button;
      assert e.Pointer? ==> e.flags == f;
      assert f & button == button && (f & PTR_FLAGS_DOWN != 0 <==> args[0] != '0') && f & PTR_FLAGS_MOVE == 0;
    }
  }

  /** The wheel flags: a rotation of 120 up, and of -120 down as a 9-bit two's complement value with the sign bit. */
  const WHEEL_UP: bv16 := PTR_FLAGS_WHEEL | 0x0078
  const WHEEL_DOWN: bv16 := PTR_FLAGS_WHEEL | PTR_FLAGS_WHEEL_NEGATIVE | 0x0088

  lemma WheelRotation()
    ensures WHEEL_UP & PTR_FLAGS_WHEEL != 0 && WHEEL_DOWN & PTR_FLAGS_WHEEL != 0
    ensures WHEEL_UP & PTR_FLAGS_WHEEL_NEGATIVE == 0 && (WHEEL_UP & 0xFF) as int == 120
    ensures WHEEL_DOWN & PTR_FLAGS_WHEEL_NEGATIVE != 0 && (WHEEL_DOWN & 0x1FF) as int == 0x200 - 120
  {
  }

  // --------------------------------------------------------------- resolution

  /** What `processResizeDisplay` does: nothing, a client size, the aspect-keeping resize, or a fault (`stoi` throws). */
  datatype Resize = NoResize | ClientSize(width: int, height: int) | KeepAspect(width: int, height: int) | ResizeFault

  /** `WIDTHxHEIGHT`: no `x` leaves the size; both parts are read with `stoi`, the width first. */
  function ResizeInput(keepAspectRatio: bool, resolution: string): Resize {
    match IndexOf(resolution, 'x')
    case None => NoResize
    case Some(i) =>
      match (Stoi(resolution[..i]), Stoi(resolution[i + 1..]))
      case (Some(w), Some(h)) => if keepAspectRatio then KeepAspect(w, h) else ClientSize(w, h)
      case _ => ResizeFault
  }

  /** The resolution the gateway writes is read back as the client size. */
  lemma ResizeRoundTrip(w: int, h: int)
    requires IsInt32(w) && IsInt32(h)
    ensures ResizeInput(false, IntString(w) + "x" + IntString(h)) == ClientSize(w, h)
    ensures ResizeInput(true, IntString(w) + "x" + IntString(h)) == KeepAspect(w, h)
  {
    var r := IntString(w) + "x" + IntString(h);
    IntStringChars(w);
    assert 'x' !in IntString(w);
    assert r == IntString(w) + ("x" + IntString(h));
    IndexOfAfterPrefix(IntString(w), "x" + IntString(h), 'x');
    assert r[..|IntString(w)|] == IntString(w) && r[|IntString(w)| + 1..] == IntString(h);
    StoiOfDecimal(w);
    StoiOfDecimal(h);
  }
}
