/** The closed enumerations of the iOS bridge: the names of the buffer
    commands, the stable error codes surfaced to JavaScript, and the
    discovery port type with its raw-value initialiser. A Swift
    `enum E: String` gives each case a raw value; `E(rawValue:)` is the
    case with that raw value, or nil. */
module IosUtils {
  import opened Base

  // ---------------------------------------------------------------------
  // Commands: the raw value of each case is its own case name.

  datatype Command =
    | AddText | AddNewLine | AddTextStyle | AddTextSize | AddAlign
    | AddImageBase64 | AddImageAsset | AddCut | AddData | AddImage
    | AddTextSmooth | AddBarcode | AddQrCode | AddPulse

  /** The cases in declaration order. */
  const AllCommands: seq<Command> :=
    [AddText, AddNewLine, AddTextStyle, AddTextSize, AddAlign,
     AddImageBase64, AddImageAsset, AddCut, AddData, AddImage,
     AddTextSmooth, AddBarcode, AddQrCode, AddPulse]

  function CommandRawValue(c: Command): string {
    match c
    case AddText => "addText"
    case AddNewLine => "addNewLine"
    case AddTextStyle => "addTextStyle"
    case AddTextSize => "addTextSize"
    case AddAlign => "addAlign"
    case AddImageBase64 => "addImageBase64"
    case AddImageAsset => "addImageAsset"
    case AddCut => "addCut"
    case AddData => "addData"
    case AddImage => "addImage"
    case AddTextSmooth => "addTextSmooth"
    case AddBarcode => "addBarcode"
    case AddQrCode => "addQrCode"
    case AddPulse => "addPulse"
  }

  /** Position of `c` in the declaration order. */
  function CommandIndex(c: Command): (i: nat)
    ensures i < |AllCommands| && AllCommands[i] == c
  {
    match c
    case AddText => 0
    case AddNewLine => 1
    case AddTextStyle => 2
    case AddTextSize => 3
    case AddAlign => 4
    case AddImageBase64 => 5
    case AddImageAsset => 6
    case AddCut => 7
    case AddData => 8
    case AddImage => 9
    case AddTextSmooth => 10
    case AddBarcode => 11
    case AddQrCode => 12
    case AddPulse => 13
  }

  /** `Commands(rawValue: s)`: the case, searched in declaration order, whose raw value is `s`. */
  function CommandFromRawValue(s: string): (c: Option<Command>)
    ensures c.Some? ==> CommandRawValue(c.value) == s
    ensures c.None? ==> forall d :: CommandRawValue(d) != s
  {
    var r := FindCommand(AllCommands, s);
    assert r.None? ==> forall d :: CommandRawValue(AllCommands[CommandIndex(d)]) != s;
    r
  }

  /** The first command of `cs` whose raw value is `s`. */
  function FindCommand(cs: seq<Command>, s: string): (c: Option<Command>)
    ensures c.Some? ==> c.value in cs && CommandRawValue(c.value) == s
    ensures c.None? ==> forall d :: d in cs ==> CommandRawValue(d) != s
  {
    if cs == [] then None
    else if CommandRawValue(cs[0]) == s then Some(cs[0])
    else FindCommand(cs[1..], s)
  }

  lemma CommandRawValuesDistinctAt(i: nat, j: nat)
    requires i < j < |AllCommands|
    ensures CommandRawValue(AllCommands[i]) != CommandRawValue(AllCommands[j])
  {
  }

  /** There are fourteen commands, each listed once, with pairwise distinct raw values. */
  lemma CommandsEnumerated()
    ensures |AllCommands| == 14
    ensures forall c :: c in AllCommands
    ensures forall i, j :: 0 <= i < j < |AllCommands| ==> AllCommands[i] != AllCommands[j]
    ensures forall c, d :: CommandRawValue(c) == CommandRawValue(d) ==> c == d
  {
    forall c ensures c in AllCommands {
      assert AllCommands[CommandIndex(c)] == c;
    }
    forall c, d | CommandRawValue(c) == CommandRawValue(d) ensures c == d {
      var i, j := CommandIndex(c), CommandIndex(d);
      if i < j {
        CommandRawValuesDistinctAt(i, j);
      } else if j < i {
        CommandRawValuesDistinctAt(j, i);
      }
    }
  }

  /** `Commands(rawValue: c.rawValue) == c`. */
  lemma CommandRawValueRoundTrip(c: Command)
    ensures CommandFromRawValue(CommandRawValue(c)) == Some(c)
  {
    CommandsEnumerated();
  }

  // ---------------------------------------------------------------------
  // PrinterError: the stable string codes a rejected promise carries.

  datatype PrinterError =
    | ConnectPrinter | DisconnectPrinter | StartDiscovery | NotFound
    | NotValidImage | PrintImage | ConnectBluetooth | StartBluetooth
    | MissingTarget | CmdAddCut | CmdAddFeedLine | CmdAddImage | CmdAddText
    | CmdAddTextAlign | CmdAddTextSize | CmdClearBuffer
    | CmdBeginTransaction | CmdEndTransaction | CmdSendData | CmdConnect
    | CmdDisconnect

  function ErrorRawValue(e: PrinterError): string {
    match e
    case ConnectPrinter => "ERROR_CONNECT_PRINTER"
    case DisconnectPrinter => "ERROR_DISCONNECT_PRINTER"
    case StartDiscovery => "ERROR_START_DISCOVERY"
    case NotFound => "ERROR_PRINTER_NOT_FOUND"
    case NotValidImage => "ERROR_IMAGE_NOT_VALID"
    case PrintImage => "ERROR_PRINT_IMAGE"
    case ConnectBluetooth => "ERROR_CONNECT_BLUETOOTH"
    case StartBluetooth => "ERROR_START_BLUETOOTH"
    case MissingTarget => "ERROR_MISSING_TARGET"
    case CmdAddCut => "ERROR_COMMAND_ADD_CUT"
    case CmdAddFeedLine => "ERROR_COMMAND_ADD_FEED_LINE"
    case CmdAddImage => "ERROR_COMMAND_ADD_IMAGE"
    case CmdAddText => "ERROR_COMMAND_ADD_TEXT"
    case CmdAddTextAlign => "ERROR_COMMAND_ADD_TEXT_ALIGN"
    case CmdAddTextSize => "ERROR_COMMAND_ADD_TEXT_SIZE"
    case CmdClearBuffer => "ERROR_COMMAND_CLEAR_BUFFER"
    case CmdBeginTransaction => "ERROR_COMMAND_BEGIN_TRANSACTION"
    case CmdEndTransaction => "ERROR_COMMAND_END_TRANSACTION"
    case CmdSendData => "ERROR_COMMAND_SEND_DATA"
    case CmdConnect => "ERROR_COMMAND_CONNECT"
    case CmdDisconnect => "ERROR_COMMAND_DISCONNECT"
  }

  /** The cases in declaration order. */
  const AllErrors: seq<PrinterError> :=
    [ConnectPrinter, DisconnectPrinter, StartDiscovery, NotFound,
     NotValidImage, PrintImage, ConnectBluetooth, StartBluetooth,
     MissingTarget, CmdAddCut, CmdAddFeedLine, CmdAddImage, CmdAddText,
     CmdAddTextAlign, CmdAddTextSize, CmdClearBuffer,
     CmdBeginTransaction, CmdEndTransaction, CmdSendData, CmdConnect,
     CmdDisconnect]

  /** Position of `e` in the declaration order. */
  function ErrorIndex(e: PrinterError): (i: nat)
    ensures i < |AllErrors| && AllErrors[i] == e
  {
    match e
    case ConnectPrinter => 0
    case DisconnectPrinter => 1
    case StartDiscovery => 2
    case NotFound => 3
    case NotValidImage => 4
    case PrintImage => 5
    case ConnectBluetooth => 6
    case StartBluetooth => 7
    case MissingTarget => 8
    case CmdAddCut => 9
    case CmdAddFeedLine => 10
    case CmdAddImage => 11
    case CmdAddText => 12
    case CmdAddTextAlign => 13
    case CmdAddTextSize => 14
    case CmdClearBuffer => 15
    case CmdBeginTransaction => 16
    case CmdEndTransaction => 17
    case CmdSendData => 18
    case CmdConnect => 19
    case CmdDisconnect => 20
  }

  /** `PrinterError(rawValue: s)`. */
  function ErrorFromRawValue(s: string): (e: Option<PrinterError>)
    ensures e.Some? ==> ErrorRawValue(e.value) == s
    ensures e.None? ==> forall f :: ErrorRawValue(f) != s
  {
    var r := FindError(AllErrors, s);
    assert r.None? ==> forall f :: ErrorRawValue(AllErrors[ErrorIndex(f)]) != s;
    r
  }

  /** The first code of `es` whose raw value is `s`. */
  function FindError(es: seq<PrinterError>, s: string): (e: Option<PrinterError>)
    ensures e.Some? ==> e.value in es && ErrorRawValue(e.value) == s
    ensures e.None? ==> forall f :: f in es ==> ErrorRawValue(f) != s
  {
    if es == [] then None
    else if ErrorRawValue(es[0]) == s then Some(es[0])
    else FindError(es[1..], s)
  }

  lemma ErrorRawValuesDistinctAt(i: nat, j: nat)
    requires i < j < |AllErrors|
    ensures ErrorRawValue(AllErrors[i]) != ErrorRawValue(AllErrors[j])
  {
  }

  /** Every code is an `ERROR_` string, and no two codes coincide. */
  lemma ErrorCodesWellFormed()
    ensures forall e :: "ERROR_" <= ErrorRawValue(e)
    ensures forall e, f :: ErrorRawValue(e) == ErrorRawValue(f) ==> e == f
  {
    forall e, f | ErrorRawValue(e) == ErrorRawValue(f) ensures e == f {
      var i, j := ErrorIndex(e), ErrorIndex(f);
      if i < j {
        ErrorRawValuesDistinctAt(i, j);
      } else if j < i {
        ErrorRawValuesDistinctAt(j, i);
      }
    }
  }

  /** `PrinterError(rawValue: e.rawValue) == e`. */
  lemma ErrorRawValueRoundTrip(e: PrinterError)
    ensures ErrorFromRawValue(ErrorRawValue(e)) == Some(e)
  {
    ErrorCodesWellFormed();
  }

  /** The buffer and transport operations whose vendor failure has a code of its own. */
  datatype BufferOperation =
    | OpCut | OpFeedLine | OpImage | OpText | OpTextAlign | OpTextSize
    | OpClearBuffer | OpBeginTransaction | OpEndTransaction | OpSendData
    | OpConnect | OpDisconnect

  /** The `cmd*` code reported when the vendor rejects `op`. */
  function CommandError(op: BufferOperation): (e: PrinterError)
    ensures "ERROR_COMMAND_" <= ErrorRawValue(e)
  {
    match op
    case OpCut => CmdAddCut
    case OpFeedLine => CmdAddFeedLine
    case OpImage => CmdAddImage
    case OpText => CmdAddText
    case OpTextAlign => CmdAddTextAlign
    case OpTextSize => CmdAddTextSize
    case OpClearBuffer => CmdClearBuffer
    case OpBeginTransaction => CmdBeginTransaction
    case OpEndTransaction => CmdEndTransaction
    case OpSendData => CmdSendData
    case OpConnect => CmdConnect
    case OpDisconnect => CmdDisconnect
  }

  /** The operation a `cmd*` code names; none for the other codes. */
  function OperationOf(e: PrinterError): (op: Option<BufferOperation>)
    ensures op.Some? ==> CommandError(op.value) == e
  {
    match e
    case CmdAddCut => Some(OpCut)
    case CmdAddFeedLine => Some(OpFeedLine)
    case CmdAddImage => Some(OpImage)
    case CmdAddText => Some(OpText)
    case CmdAddTextAlign => Some(OpTextAlign)
    case CmdAddTextSize => Some(OpTextSize)
    case CmdClearBuffer => Some(OpClearBuffer)
    case CmdBeginTransaction => Some(OpBeginTransaction)
    case CmdEndTransaction => Some(OpEndTransaction)
    case CmdSendData => Some(OpSendData)
    case CmdConnect => Some(OpConnect)
    case CmdDisconnect => Some(OpDisconnect)
    case _ => None
  }

  /** The codes that name no operation do not start with `ERROR_COMMAND_`:
      each differs from it at index 6 or at index 8. */
  lemma NonCommandCodes(e: PrinterError)
    requires OperationOf(e).None?
    ensures !("ERROR_COMMAND_" <= ErrorRawValue(e))
  {
    var raw := ErrorRawValue(e);
    assert raw[6] != 'C' || raw[8] != 'M';
  }

  /** The `cmd*` codes are in one-to-one correspondence with the operations:
      each operation has its own code and every `ERROR_COMMAND_` code names one. */
  lemma CommandErrorsOnePerOperation()
    ensures forall op, op' :: CommandError(op) == CommandError(op') ==> op == op'
    ensures forall e :: "ERROR_COMMAND_" <= ErrorRawValue(e) ==>
      OperationOf(e).Some? && CommandError(OperationOf(e).value) == e
  {
    forall e | "ERROR_COMMAND_" <= ErrorRawValue(e)
      ensures OperationOf(e).Some? && CommandError(OperationOf(e).value) == e
    {
      if OperationOf(e).None? {
        NonCommandCodes(e);
      }
    }
    forall op, op' | CommandError(op) == CommandError(op') ensures op == op' {
      assert OperationOf(CommandError(op)) == Some(op);
      assert OperationOf(CommandError(op')) == Some(op');
    }
  }

  // ---------------------------------------------------------------------
  // PrinterPortType: the discovery filter named by JavaScript.

  datatype PortType = All | Lan | Bluetooth | Usb

  function PortRawValue(p: PortType): string {
    match p
    case All => "ALL"
    case Lan => "LAN"
    case Bluetooth => "BLUETOOTH"
    case Usb => "USB"
  }

  /** `PrinterPortType(rawValue: s)`; nil for any other string, which the
      discovery entry point then force-unwraps. */
  function PortTypeFromRawValue(s: string): (p: Option<PortType>)
    ensures p.Some? <==> s in {"ALL", "LAN", "BLUETOOTH", "USB"}
    ensures p.Some? ==> PortRawValue(p.value) == s
  {
    match s
    case "ALL" => Some(All)
    case "LAN" => Some(Lan)
    case "BLUETOOTH" => Some(Bluetooth)
    case "USB" => Some(Usb)
    case _ => None
  }

  /** `PrinterPortType(rawValue: p.rawValue) == p`, hence distinct raw values. */
  lemma PortTypeRoundTrip()
    ensures forall p :: PortTypeFromRawValue(PortRawValue(p)) == Some(p)
    ensures forall p, q :: PortRawValue(p) == PortRawValue(q) ==> p == q
  {
    forall p ensures PortTypeFromRawValue(PortRawValue(p)) == Some(p) {
      match p
      case All =>
      case Lan =>
      case Bluetooth =>
      case Usb =>
    }
  }
}
