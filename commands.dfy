/**
 * The inbound command set: the 31 commands the gateway sends, their
 * three-character tags, and the `std::map` that resolves a tag. A tag missing
 * from the map is looked up with `operator[]`, which inserts it with the
 * default-constructed command, value 0: `SEND_SERVER_ADDRESS`.
 */
module Commands {
  import opened Native

  datatype Command =
    | SendServerAddress | SendVmGuid | SendUserDomain | SendUserName | SendUserPassword
    | SendStartProgram | ConnectClient
    | SendBrowserResize | SendBrowserPulse
    | SendKeyUnicode | SendKeyScancode
    | SendMouseMove | SendMouseLeftButton | SendMouseMiddleButton | SendMouseRightButton
    | SendMouseWheelUp | SendMouseWheelDown
    | SetScaleDisplay | SetReconnectSession | SetImageEncoding | SetImageQuality | SetImageQuantity
    | SetAudioFormat | SetAudioBitrate | SetScreenshotConfig | StartTakingScreenshots
    | StopTakingScreenshots | TakeScreenshot | RequestFullscreenUpdate | SendLocalClipboard | CloseClient

  /** The value of the command in `enum class COMMAND`. */
  function Ordinal(c: Command): (n: nat)
    ensures n < 31
  {
    match c
    case SendServerAddress => 0
    case SendVmGuid => 1
    case SendUserDomain => 2
    case SendUserName => 3
    case SendUserPassword => 4
    case SendStartProgram => 5
    case ConnectClient => 6
    case SendBrowserResize => 7
    case SendBrowserPulse => 8
    case SendKeyUnicode => 9
    case SendKeyScancode => 10
    case SendMouseMove => 11
    case SendMouseLeftButton => 12
    case SendMouseMiddleButton => 13
    case SendMouseRightButton => 14
    case SendMouseWheelUp => 15
    case SendMouseWheelDown => 16
    case SetScaleDisplay => 17
    case SetReconnectSession => 18
    case SetImageEncoding => 19
    case SetImageQuality => 20
    case SetImageQuantity => 21
    case SetAudioFormat => 22
    case SetAudioBitrate => 23
    case SetScreenshotConfig => 24
    case StartTakingScreenshots => 25
    case StopTakingScreenshots => 26
    case TakeScreenshot => 27
    case RequestFullscreenUpdate => 28
    case SendLocalClipboard => 29
    case CloseClient => 30
  }

  /** The value-initialised `COMMAND` that `operator[]` stores for a missing key. */
  const DefaultCommand: Command := SendServerAddress

  /** The tag the gateway uses for each command. */
  function Tag(c: Command): (t: string)
    ensures |t| == 3
  {
    match c
    case SendServerAddress => "SRV"
    case SendVmGuid => "VMG"
    case SendUserDomain => "DOM"
    case SendUserName => "USR"
    case SendUserPassword => "PWD"
    case SendStartProgram => "PRG"
    case ConnectClient => "CON"
    case SendBrowserResize => "RSZ"
    case SendBrowserPulse => "PLS"
    case SendKeyUnicode => "KUC"
    case SendKeyScancode => "KSC"
    case SendMouseMove => "MMO"
    case SendMouseLeftButton => "MLB"
    case SendMouseMiddleButton => "MMB"
    case SendMouseRightButton => "MRB"
    case SendMouseWheelUp => "MWU"
    case SendMouseWheelDown => "MWD"
    case SetScaleDisplay => "SCA"
    case SetReconnectSession => "RCN"
    case SetImageEncoding => "ECD"
    case SetImageQuality => "QLT"
    case SetImageQuantity => "QNT"
    case SetAudioFormat => "AUD"
    case SetAudioBitrate => "BIT"
    case SetScreenshotConfig => "SSC"
    case StartTakingScreenshots => "SS1"
    case StopTakingScreenshots => "SS0"
    case TakeScreenshot => "SCN"
    case RequestFullscreenUpdate => "FSU"
    case SendLocalClipboard => "CLP"
    case CloseClient => "CLO"
  }

  /** `commandMap` as `wf_myrtille_start` fills it. */
  const CommandTable: map<string, Command> := map[
    "SRV" := SendServerAddress, "VMG" := SendVmGuid, "DOM" := SendUserDomain,
    "USR" := SendUserName, "PWD" := SendUserPassword, "PRG" := SendStartProgram,
    "CON" := ConnectClient, "RSZ" := SendBrowserResize, "PLS" := SendBrowserPulse,
    "KUC" := SendKeyUnicode, "KSC" := SendKeyScancode, "MMO" := SendMouseMove,
    "MLB" := SendMouseLeftButton, "MMB" := SendMouseMiddleButton, "MRB" := SendMouseRightButton,
    "MWU" := SendMouseWheelUp, "MWD" := SendMouseWheelDown, "SCA" := SetScaleDisplay,
    "RCN" := SetReconnectSession, "ECD" := SetImageEncoding, "QLT" := SetImageQuality,
    "QNT" := SetImageQuantity, "AUD" := SetAudioFormat, "BIT" := SetAudioBitrate,
    "SSC" := SetScreenshotConfig, "SS1" := StartTakingScreenshots, "SS0" := StopTakingScreenshots,
    "SCN" := TakeScreenshot, "FSU" := RequestFullscreenUpdate, "CLP" := SendLocalClipboard,
    "CLO" := CloseClient]

  /** Every command is reachable: its tag is in the table and maps back to it. */
  lemma TableCoversEveryCommand(c: Command)
    ensures Tag(c) in CommandTable && CommandTable[Tag(c)] == c
  {
    var n := Ordinal(c);
    if n < 4 {
      ConnectionEntries(c);
    } else if n < 7 {
      LogonEntries(c);
    } else if n < 11 {
      BrowserAndKeyboardEntries(c);
    } else if n < 17 {
      MouseEntries(c);
    } else {
      ControlEntries(c);
    }
  }

  /** The table entries of the connection commands (values 0 to 3). */
  lemma ConnectionEntries(c: Command)
    requires Ordinal(c) < 4
    ensures Tag(c) in CommandTable && CommandTable[Tag(c)] == c
  {
    match c
    case SendServerAddress =>
    case SendVmGuid =>
    case SendUserDomain =>
    case SendUserName =>
    case _ =>
  }

  /** The table entries of the connection commands (values 4 to 6). */
  lemma LogonEntries(c: Command)
    requires 4 <= Ordinal(c) < 7
    ensures Tag(c) in CommandTable && CommandTable[Tag(c)] == c
  {
    match c
    case SendUserPassword =>
    case SendStartProgram =>
    case ConnectClient =>
    case _ =>
  }

  /** The table entries of the browser and keyboard commands. */
  lemma BrowserAndKeyboardEntries(c: Command)
    requires 7 <= Ordinal(c) < 11
    ensures Tag(c) in CommandTable && CommandTable[Tag(c)] == c
  {
    match c
    case SendBrowserResize =>
    case SendBrowserPulse =>
    case SendKeyUnicode =>
    case SendKeyScancode =>
    case _ =>
  }

  /** The table entries of the mouse commands. */
  lemma MouseEntries(c: Command)
    requires 11 <= Ordinal(c) < 17
    ensures Tag(c) in CommandTable && CommandTable[Tag(c)] == c
  {
    match c
    case SendMouseMove =>
    case SendMouseLeftButton =>
    case SendMouseMiddleButton =>
    case SendMouseRightButton =>
    case SendMouseWheelUp =>
    case SendMouseWheelDown =>
    case _ =>
  }

  /** The table entries of the control commands. */
  lemma ControlEntries(c: Command)
    requires 17 <= Ordinal(c) < 31
    ensures Tag(c) in CommandTable && CommandTable[Tag(c)] == c
  {
    match c
    case SetScaleDisplay =>
    case SetReconnectSession =>
    case SetImageEncoding =>
    case SetImageQuality =>
    case SetImageQuantity =>
    case SetAudioFormat =>
    case SetAudioBitrate =>
    case SetScreenshotConfig =>
    case StartTakingScreenshots =>
    case StopTakingScreenshots =>
    case TakeScreenshot =>
    case RequestFullscreenUpdate =>
    case SendLocalClipboard =>
    case CloseClient =>
    case _ =>
  }

  /** The table holds nothing but the 31 tags: each key is the tag of the command it maps to. */
  lemma TableKeysAreTags(t: string)
    requires t in CommandTable
    ensures Tag(CommandTable[t]) == t
  {
  }

  /** The command a tag stands for: the table's entry, or the default for an unknown tag. */
  function Resolve(tag: string): Command {
    if tag in CommandTable then CommandTable[tag] else DefaultCommand
  }

  /** `commandMap[tag]`: the mapped command, and the map after `operator[]` inserted a missing key. */
  function LookupCommand(m: map<string, Command>, tag: string): (r: (Command, map<string, Command>))
    ensures tag in r.1 && r.1[tag] == r.0
    ensures r.1.Keys == m.Keys + {tag}
    ensures forall t :: t in m ==> r.1[t] == m[t]
  {
    if tag in m then (m[tag], m) else (DefaultCommand, m[tag := DefaultCommand])
  }

  /**
   * What lookups leave in `commandMap`: the 31 table entries, untouched, plus
   * any unknown tag that was looked up, each mapped to the default command.
   */
  predicate MapConsistent(m: map<string, Command>) {
    (forall t :: t in CommandTable ==> t in m && m[t] == CommandTable[t]) &&
    (forall t :: t in m && t !in CommandTable ==> m[t] == DefaultCommand)
  }

  lemma TableConsistent()
    ensures MapConsistent(CommandTable)
  {
  }

  /** On a consistent map, a lookup finds the command `Resolve` names and keeps the map consistent. */
  lemma LookupResolves(m: map<string, Command>, tag: string)
    requires MapConsistent(m)
    ensures LookupCommand(m, tag).0 == Resolve(tag)
    ensures MapConsistent(LookupCommand(m, tag).1)
  {
  }

  /** An unknown tag is dispatched as `SEND_SERVER_ADDRESS`, however many times it is looked up. */
  lemma UnknownTagIsServerAddress(m: map<string, Command>, tag: string)
    requires MapConsistent(m)
    requires tag !in CommandTable
    ensures LookupCommand(m, tag).0 == SendServerAddress
  {
    LookupResolves(m, tag);
  }
}
