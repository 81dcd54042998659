/** The Android session manager `EpsonManager`: the vendor printer handle
    (or none), whether the manager believes it is connected, the target
    bound at setup and the timeout, and how `printImage` and `cutPaper`
    drive the handle's command buffer. Every call into the closed vendor SDK
    (the `Printer` constructor, `connect`, `disconnect`, `add*`, `sendData`)
    is modelled by an outcome the caller supplies: it succeeds or it throws. */
module AndroidBridge {
  import opened Base
  import IosUtils

  // -----------------------------------------------------------------------
  // Pure helpers of the manager.

  /** The vendor's discovery port filters (`Discovery.PORTTYPE_*`). */
  datatype PortFilter = PortTypeAll | PortTypeTcp | PortTypeBluetooth | PortTypeUsb

  /** The port filter `startDiscovery` selects for the JavaScript port type. */
  function PortFilterOf(portType: string): (f: PortFilter)
    ensures f == PortTypeTcp <==> portType == "LAN"
    ensures f == PortTypeBluetooth <==> portType == "BLUETOOTH"
    ensures f == PortTypeUsb <==> portType == "USB"
  {
    match portType
    case "LAN" => PortTypeTcp
    case "BLUETOOTH" => PortTypeBluetooth
    case "USB" => PortTypeUsb
    case _ => PortTypeAll
  }

  /** The filter each iOS port type stands for on Android. */
  function FilterFor(p: IosUtils.PortType): PortFilter {
    match p
    case All => PortTypeAll
    case Lan => PortTypeTcp
    case Bluetooth => PortTypeBluetooth
    case Usb => PortTypeUsb
  }

  /** Both platforms read the four port-type names alike; a name the iOS
      initialiser rejects (and iOS then traps on) selects every port on Android. */
  lemma PortFilterAgreesWithIos(portType: string)
    ensures IosUtils.PortTypeFromRawValue(portType).Some? ==>
      PortFilterOf(portType) == FilterFor(IosUtils.PortTypeFromRawValue(portType).value)
    ensures IosUtils.PortTypeFromRawValue(portType).None? ==> PortFilterOf(portType) == PortTypeAll
  {
  }

  /** `getUSBAddress`: the target without its first four characters when
      `"USB:"` occurs anywhere in it, and none otherwise. */
  function UsbAddress(target: string): (r: Option<string>)
    ensures r.Some? <==> Contains(target, "USB:")
    ensures r.Some? ==> 4 <= |target| && |r.value| == |target| - 4 && r.value == target[4..]
  {
    if Contains(target, "USB:") then
      ContainsHasOccurrence(target, "USB:");
      Some(target[4..])
    else None
  }

  /** For the usual `USB:` target the address is what follows the prefix. */
  lemma UsbAddressOfUsbTarget(address: string)
    ensures UsbAddress("USB:" + address) == Some(address)
  {
    PrefixContained("USB:", address);
  }

  /** Fields of a device reported by the vendor discovery callback. */
  datatype DeviceInfo = DeviceInfo(
    deviceName: string, target: string, ipAddress: string, macAddress: string, bdAddress: string)

  /** The record the discovery callback builds for one device. The USB
      serial number is looked up through the OS (`getUsbSerialNumber`),
      given here as a function of the USB address. */
  function DiscoveryItem(info: DeviceInfo, usbManagerAvailable: bool, usbSerialNumber: string -> Option<string>)
    : (item: map<string, string>)
    ensures {"name", "target", "ip", "mac", "bt"} <= item.Keys
    ensures item.Keys <= {"name", "target", "ip", "mac", "bt", "usb", "usbSerialNumber"}
    ensures item["name"] == info.deviceName && item["target"] == info.target && item["ip"] == info.ipAddress
    ensures item["mac"] == info.macAddress && item["bt"] == info.bdAddress
    ensures "usb" in item <==> usbManagerAvailable && UsbAddress(info.target).Some?
    ensures "usb" in item ==> item["usb"] == UsbAddress(info.target).value
    ensures "usbSerialNumber" in item <==> "usb" in item && usbSerialNumber(item["usb"]).Some?
    ensures "usbSerialNumber" in item ==> item["usbSerialNumber"] == usbSerialNumber(item["usb"]).value
  {
    var basic := map["name" := info.deviceName, "target" := info.target, "ip" := info.ipAddress,
                     "mac" := info.macAddress, "bt" := info.bdAddress];
    var usbAddress := UsbAddress(info.target);
    if usbAddress.Some? && usbManagerAvailable then
      var withUsb := basic["usb" := usbAddress.value];
      match usbSerialNumber(usbAddress.value)
      case Some(serial) => withUsb["usbSerialNumber" := serial]
      case None => withUsb
    else basic
  }

  // -----------------------------------------------------------------------
  // The vendor printer handle.

  /** Alignments of `addTextAlign` (`Printer.ALIGN_*`). */
  datatype Alignment = AlignLeft | AlignCenter | AlignRight

  /** Commands the manager appends to the handle's command buffer. Vendor
      parameters that are fixed in the source are left implicit: the pulse
      uses the default drawer and time, the image is monochrome, dithered and
      auto-compressed from offset (0, 0), the cut is `CUT_FEED`. */
  datatype BufferCommand =
    | Pulse
    | TextAlign(align: Alignment)
    | Image(width: int, height: int)
    | CutFeed

  /** Link-level calls issued on a handle. */
  datatype LinkCall = Connect(target: string) | Disconnect

  /** How a vendor call that may fail ends: it returns, it throws an
      `Epos2Exception` with status `ERR_PROCESSING` or another status, or it
      throws some other exception. */
  datatype VendorOutcome = Succeeds | ErrProcessing | ErrOther | OtherException

  /** How a promise handed to a manager method is left. */
  datatype PromiseState = Resolved | Rejected | Unsettled

  /** A vendor `Printer`: its command buffer, the batches `sendData` has
      transmitted, the connect/disconnect calls made on it, and whether a
      receive-event listener is registered. The bridge never registers one;
      it only removes it, in `setupPrinter`, and every other operation
      leaves that field as it was. */
  class PrinterHandle {
    const series: int
    const lang: int
    var buffer: seq<BufferCommand>
    var sent: seq<seq<BufferCommand>>
    var links: seq<LinkCall>
    var hasReceiveListener: bool

    constructor (series: int, lang: int)
      ensures this.series == series && this.lang == lang
      ensures buffer == [] && sent == [] && links == [] && !hasReceiveListener
    {
      this.series := series;
      this.lang := lang;
      buffer := [];
      sent := [];
      links := [];
      hasReceiveListener := false;
    }

    /** `clearCommandBuffer()`. */
    method ClearCommandBuffer()
      modifies this
      ensures buffer == []
      ensures sent == old(sent) && links == old(links) && hasReceiveListener == old(hasReceiveListener)
    {
      buffer := [];
    }

    /** `setReceiveEventListener(null)`. */
    method RemoveReceiveListener()
      modifies this
      ensures !hasReceiveListener
      ensures buffer == old(buffer) && sent == old(sent) && links == old(links)
    {
      hasReceiveListener := false;
    }

    /** One `add*` call: on success the command is appended; on failure it throws. */
    method Add(c: BufferCommand, succeeds: bool) returns (ok: bool)
      modifies this
      ensures ok == succeeds
      ensures buffer == if succeeds then old(buffer) + [c] else old(buffer)
      ensures sent == old(sent) && links == old(links) && hasReceiveListener == old(hasReceiveListener)
    {
      ok := succeeds;
      if ok {
        buffer := buffer + [c];
      }
    }

    /** `sendData`: on success the buffer is transmitted; it stays in the buffer. */
    method SendData(succeeds: bool) returns (ok: bool)
      modifies this
      ensures ok == succeeds
      ensures sent == if succeeds then old(sent) + [old(buffer)] else old(sent)
      ensures buffer == old(buffer) && links == old(links) && hasReceiveListener == old(hasReceiveListener)
    {
      ok := succeeds;
      if ok {
        sent := sent + [buffer];
      }
    }

    /** `connect(target, PARAM_DEFAULT)`. */
    method Connect(target: string, succeeds: bool) returns (ok: bool)
      modifies this
      ensures ok == succeeds
      ensures links == old(links) + [LinkCall.Connect(target)]
      ensures buffer == old(buffer) && sent == old(sent) && hasReceiveListener == old(hasReceiveListener)
    {
      ok := succeeds;
      links := links + [LinkCall.Connect(target)];
    }

    /** `disconnect()`. */
    method Disconnect(outcome: VendorOutcome) returns (ok: bool)
      modifies this
      ensures ok == (outcome == Succeeds)
      ensures links == old(links) + [LinkCall.Disconnect]
      ensures buffer == old(buffer) && sent == old(sent) && hasReceiveListener == old(hasReceiveListener)
    {
      ok := outcome == Succeeds;
      links := links + [LinkCall.Disconnect];
    }
  }

  // -----------------------------------------------------------------------
  // The manager.

  /** `disconnectInterval`: the pause, in milliseconds, of each `Thread.sleep`. */
  const DisconnectIntervalMs: nat := 500

  /** The commands `printImage` appends, in order. */
  function PrintImageJob(width: int, height: int): (job: seq<BufferCommand>)
    ensures |job| == 4 && job[0] == Pulse && job[|job| - 1] == CutFeed
  {
    [Pulse, TextAlign(AlignCenter), Image(width, height), CutFeed]
  }

  /** The vendor call of `printImage` that throws, if any. */
  datatype PrintStep = AtPulse | AtAlign | AtImage | AtCut | AtSend

  class EpsonManager {
    var printer: PrinterHandle?
    var isConnected: bool
    var timeout: int
    var target: Option<string>

    constructor ()
      ensures printer == null && !isConnected && timeout == 5000 && target == None
    {
      printer := null;
      isConnected := false;
      timeout := 5000;
      target := None;
    }

    method SetTimeout(timeout: int)
      modifies this
      ensures this.timeout == timeout
      ensures printer == old(printer) && isConnected == old(isConnected) && target == old(target)
    {
      this.timeout := timeout;
    }

    method PrinterIsSetup() returns (setup: bool)
      ensures setup <==> printer != null
    {
      setup := printer != null;
    }

    method PrinterIsConnected() returns (connected: bool)
      ensures connected <==> isConnected
    {
      connected := isConnected;
    }

    /** `setupPrinter`: an existing handle has its buffer cleared and its
        listener removed before it is dropped; then a new handle is built for
        `series`/`lang` (the constructor may throw) and `target` is bound.
        The connection flag and the timeout are never touched. */
    method SetupPrinter(target: string, series: int, lang: int, constructs: bool) returns (promise: PromiseState)
      modifies this, printer
      ensures old(printer) != null ==>
        && old(printer).buffer == [] && !old(printer).hasReceiveListener
        && old(printer).sent == old(printer.sent) && old(printer).links == old(printer.links)
      ensures constructs ==>
        && promise == Resolved && printer != null && fresh(printer)
        && printer.series == series && printer.lang == lang
        && printer.buffer == [] && printer.sent == [] && printer.links == [] && !printer.hasReceiveListener
        && this.target == Some(target)
      ensures !constructs ==> promise == Rejected && printer == null && this.target == old(this.target)
      ensures isConnected == old(isConnected) && timeout == old(timeout)
    {
      if printer != null {
        printer.ClearCommandBuffer();
        printer.RemoveReceiveListener();
        printer := null;
      }
      if constructs {
        printer := new PrinterHandle(series, lang);
        this.target := Some(target);
        promise := Resolved;
      } else {
        promise := Rejected;
      }
    }

    /** `connectPrinter`: when the manager believes it is connected it first
        calls `disconnect` and ignores how that ends (a missing handle throws
        and is ignored as well); then it connects to the bound target. Without
        a handle or a target the call throws before any vendor call. Only a
        successful connect changes the flag. */
    method ConnectPrinter(disconnectOutcome: VendorOutcome, connects: bool) returns (promise: PromiseState)
      modifies this, printer
      ensures printer == old(printer) && target == old(target) && timeout == old(timeout)
      ensures promise == Resolved <==> printer != null && target.Some? && connects
      ensures promise != Resolved ==> promise == Rejected
      ensures isConnected == (old(isConnected) || promise == Resolved)
      ensures printer != null ==> printer.hasReceiveListener == old(printer.hasReceiveListener)
      ensures printer != null ==>
        printer.links == old(printer.links)
          + (if old(isConnected) then [LinkCall.Disconnect] else [])
          + (if target.Some? then [LinkCall.Connect(target.value)] else [])
      ensures printer != null ==>
        printer.buffer == old(printer.buffer) && printer.sent == old(printer.sent)
    {
      if isConnected && printer != null {
        var ignored := printer.Disconnect(disconnectOutcome);
      }
      if printer == null || target.None? {
        promise := Rejected;
      } else {
        var ok := printer.Connect(target.value, connects);
        if ok {
          isConnected := true;
          promise := Resolved;
        } else {
          promise := Rejected;
        }
      }
    }

    /** `disconnectPrinter`: one `disconnect` call, never retried. Success,
        or having no handle, clears the flag, sleeps one interval and resolves. An
        `ERR_PROCESSING` failure sleeps one interval and rejects; any other failure
        rejects at once; on both the flag is unchanged. */
    method DisconnectPrinter(outcome: VendorOutcome) returns (promise: PromiseState, sleptMs: nat)
      modifies this, printer
      ensures printer == old(printer) && target == old(target) && timeout == old(timeout)
      ensures printer != null ==>
        && printer.links == old(printer.links) + [LinkCall.Disconnect]
        && printer.buffer == old(printer.buffer) && printer.sent == old(printer.sent)
        && printer.hasReceiveListener == old(printer.hasReceiveListener)
      ensures promise == Resolved <==> printer == null || outcome == Succeeds
      ensures promise == Resolved ==> !isConnected && sleptMs == DisconnectIntervalMs
      ensures promise != Resolved ==>
        && promise == Rejected && isConnected == old(isConnected)
        && sleptMs == (if outcome == ErrProcessing then DisconnectIntervalMs else 0)
    {
      var ok := true;
      if printer != null {
        ok := printer.Disconnect(outcome);
      }
      if ok {
        isConnected := false;
        sleptMs := DisconnectIntervalMs;
        promise := Resolved;
      } else if outcome == ErrProcessing {
        sleptMs := DisconnectIntervalMs;
        promise := Rejected;
      } else {
        sleptMs := 0;
        promise := Rejected;
      }
    }

    /** `printImage`: appends pulse, centre alignment, the image and a feed
        cut, sends, clears the buffer and sleeps one interval. If any of these vendor
        calls throws, the buffer is cleared and the promise rejected, so the
        buffer is empty whenever a handle exists. Without a handle it rejects. */
    method PrintImage(width: int, height: int, failure: Option<PrintStep>) returns (promise: PromiseState, sleptMs: nat)
      modifies printer
      ensures printer == old(printer)
      ensures printer == null ==> promise == Rejected && sleptMs == 0
      ensures printer != null ==>
        && printer.buffer == []
        && printer.links == old(printer.links)
        && printer.hasReceiveListener == old(printer.hasReceiveListener)
        && (promise == Resolved <==> failure.None?)
      ensures promise == Resolved ==>
        printer.sent == old(printer.sent) + [old(printer.buffer) + PrintImageJob(width, height)] && sleptMs == DisconnectIntervalMs
      ensures promise != Resolved ==>
        && promise == Rejected && sleptMs == 0
        && (printer != null ==> printer.sent == old(printer.sent))
    {
      if printer == null {
        promise, sleptMs := Rejected, 0;
        return;
      }
      var ok := printer.Add(Pulse, failure != Some(AtPulse));
      if ok {
        ok := printer.Add(TextAlign(AlignCenter), failure != Some(AtAlign));
      }
      if ok {
        ok := printer.Add(Image(width, height), failure != Some(AtImage));
      }
      if ok {
        ok := printer.Add(CutFeed, failure != Some(AtCut));
      }
      if ok {
        assert printer.buffer == old(printer.buffer) + PrintImageJob(width, height);
        ok := printer.SendData(failure != Some(AtSend));
      }
      assert failure.Some? ==> !ok by {
        if failure.Some? {
          match failure.value
          case AtPulse =>
          case AtAlign =>
          case AtImage =>
          case AtCut =>
          case AtSend =>
        }
      }
      if ok {
        printer.ClearCommandBuffer();
        promise, sleptMs := Resolved, DisconnectIntervalMs;
      } else {
        printer.ClearCommandBuffer();
        promise, sleptMs := Rejected, 0;
      }
    }

    /** `cutPaper`: appends a feed cut. When that throws (or there is no
        handle) the buffer is cleared and the promise resolved; when it
        succeeds the promise is never settled. */
    method CutPaper(succeeds: bool) returns (promise: PromiseState)
      modifies printer
      ensures printer == old(printer)
      ensures printer != null && succeeds ==>
        promise == Unsettled && printer.buffer == old(printer.buffer) + [CutFeed]
      ensures printer == null || !succeeds ==> promise == Resolved
      ensures printer != null && !succeeds ==> printer.buffer == []
      ensures printer != null ==> printer.sent == old(printer.sent) && printer.links == old(printer.links)
      ensures printer != null ==> printer.hasReceiveListener == old(printer.hasReceiveListener)
    {
      if printer == null {
        promise := Resolved;
        return;
      }
      var ok := printer.Add(CutFeed, succeeds);
      if ok {
        promise := Unsettled;
      } else {
        printer.ClearCommandBuffer();
        promise := Resolved;
      }
    }
  }

  // -----------------------------------------------------------------------
  // Sessions end to end.

  /** Setting up a printer and connecting with the vendor succeeding leaves
      the manager set up and connected. */
  method SetupThenConnect(target: string, series: int, lang: int) returns (setup: bool, connected: bool)
    ensures setup && connected
  {
    var manager := new EpsonManager();
    var promise := manager.SetupPrinter(target, series, lang, true);
    promise := manager.ConnectPrinter(Succeeds, true);
    setup := manager.PrinterIsSetup();
    connected := manager.PrinterIsConnected();
  }

  /** Connecting before any setup rejects, makes no vendor call (there is no
      handle to call) and leaves the manager disconnected. */
  method ConnectWithoutSetup(connects: bool) returns (promise: PromiseState, connected: bool)
    ensures promise == Rejected && !connected
  {
    var manager := new EpsonManager();
    promise := manager.ConnectPrinter(Succeeds, connects);
    connected := manager.PrinterIsConnected();
  }

  /** Disconnecting when no printer was ever set up resolves. */
  method DisconnectWithoutSetup(outcome: VendorOutcome) returns (promise: PromiseState, connected: bool)
    ensures promise == Resolved && !connected
  {
    var manager := new EpsonManager();
    var sleptMs;
    promise, sleptMs := manager.DisconnectPrinter(outcome);
    connected := manager.PrinterIsConnected();
  }

  /** A failed re-setup of a connected manager drops the handle but keeps
      the connection flag: the manager then reports "connected" while it
      reports "not set up". */
  method FailedSetupWhileConnected(target: string, series: int, lang: int) returns (setup: bool, connected: bool)
    ensures !setup && connected
  {
    var manager := new EpsonManager();
    var promise := manager.SetupPrinter(target, series, lang, true);
    promise := manager.ConnectPrinter(Succeeds, true);
    promise := manager.SetupPrinter(target, series, lang, false);
    setup := manager.PrinterIsSetup();
    connected := manager.PrinterIsConnected();
  }

  /** A connected manager whose printer is busy (`ERR_PROCESSING`) is not
      disconnected: one sleep, a rejection, no retry, and still "connected". */
  method DisconnectBusyPrinter(target: string, series: int, lang: int)
    returns (promise: PromiseState, sleptMs: nat, connected: bool, disconnectCalls: nat)
    ensures promise == Rejected && sleptMs == DisconnectIntervalMs && connected && disconnectCalls == 1
  {
    var manager := new EpsonManager();
    var p := manager.SetupPrinter(target, series, lang, true);
    p := manager.ConnectPrinter(Succeeds, true);
    var before := |manager.printer.links|;
    promise, sleptMs := manager.DisconnectPrinter(ErrProcessing);
    connected := manager.PrinterIsConnected();
    disconnectCalls := |manager.printer.links| - before;
  }

  /** Whatever step of a print job fails, the handle's buffer is empty
      afterwards, and the job is reported as printed only if none failed. */
  method PrintLeavesBufferEmpty(target: string, width: int, height: int, failure: Option<PrintStep>)
    returns (promise: PromiseState, buffered: nat)
    ensures buffered == 0
    ensures promise == Resolved <==> failure.None?
  {
    var manager := new EpsonManager();
    var p := manager.SetupPrinter(target, 0, 0, true);
    var sleptMs;
    promise, sleptMs := manager.PrintImage(width, height, failure);
    buffered := |manager.printer.buffer|;
  }

  /** Reconnecting a connected manager ignores how the preceding disconnect
      ends: a successful connect resolves and the manager stays connected. */
  method ReconnectIgnoresFailedDisconnect(target: string, disconnectOutcome: VendorOutcome)
    returns (promise: PromiseState, connected: bool)
    ensures promise == Resolved && connected
  {
    var manager := new EpsonManager();
    var p := manager.SetupPrinter(target, 0, 0, true);
    p := manager.ConnectPrinter(Succeeds, true);
    promise := manager.ConnectPrinter(disconnectOutcome, true);
    connected := manager.PrinterIsConnected();
  }

  /** A reconnect whose preliminary disconnect succeeds and whose connect
      fails rejects, yet nothing clears the flag: the printer was
      disconnected and not connected again, and the manager still reports
      "connected". */
  method DisconnectedButFlagged(target: string, series: int, lang: int)
    returns (promise: PromiseState, connected: bool, calls: seq<LinkCall>)
    ensures promise == Rejected && connected
    ensures calls == [LinkCall.Disconnect, LinkCall.Connect(target)]
  {
    var manager := new EpsonManager();
    var p := manager.SetupPrinter(target, series, lang, true);
    p := manager.ConnectPrinter(Succeeds, true);
    var before := manager.printer.links;
    promise := manager.ConnectPrinter(Succeeds, false);
    connected := manager.PrinterIsConnected();
    calls := manager.printer.links[|before|..];
  }
}
