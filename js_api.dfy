/** The argument mappings of the JavaScript API in front of the native module:
    the alignment code of `addTextAlign`, the defaults of `setupPrinter`, the
    reason text of a Bluetooth pairing status, and the Android runtime
    permissions requested for Bluetooth printing at each API level. */
module JsApi {
  import opened Base
  import JsUtils

  // -------------------------------------------------------------------------
  // addTextAlign

  /** The vendor alignment codes: left, center, right. */
  const AlignLeft: int := 0
  const AlignCenter: int := 1
  const AlignRight: int := 2

  /** `addTextAlign`: "left" and "right" have their own codes; every other
      string, "center" included, centers. */
  function AlignCode(textAlign: string): (code: int)
    ensures code == AlignLeft <==> textAlign == "left"
    ensures code == AlignRight <==> textAlign == "right"
    ensures code == AlignCenter <==> textAlign != "left" && textAlign != "right"
  {
    if textAlign == "left" then AlignLeft
    else if textAlign == "right" then AlignRight
    else AlignCenter
  }

  /** The three names of the TypeScript signature get three distinct codes. */
  lemma AlignCodesDistinct()
    ensures AlignCode("left") == 0 && AlignCode("center") == 1 && AlignCode("right") == 2
  {
  }

  // -------------------------------------------------------------------------
  // setupPrinter

  /** What `setupPrinter` hands to the native module: the target, the series
      constant (absent when the name is not a key of the series table) and
      the language constant. */
  datatype SetupArguments = SetupArguments(target: string, series: Option<int>, lang: Option<int>)

  function Lookup(table: map<string, int>, key: string): (r: Option<int>)
    ensures r.Some? <==> key in table
    ensures r.Some? ==> r.value == table[key]
  {
    if key in table then Some(table[key]) else None
  }

  /** `setupPrinter({target, seriesName, language})`. */
  function SetupPrinterArguments(
    seriesTable: map<string, int>, languageTable: map<string, int>,
    target: string, seriesName: Option<string>, language: Option<string>): (args: SetupArguments)
    ensures args.target == target
    ensures var key := seriesName.GetOr(JsUtils.DefaultSeries);
      (args.series.Some? <==> key in seriesTable) && (args.series.Some? ==> args.series.value == seriesTable[key])
    ensures args.series.Some? ==> args.series.value in seriesTable.Values
    ensures args.lang == JsUtils.PrinterLanguageCode(languageTable, language.GetOr(JsUtils.DefaultLanguage))
  {
    SetupArguments(
      target,
      Lookup(seriesTable, seriesName.GetOr(JsUtils.DefaultSeries)),
      JsUtils.PrinterLanguageCode(languageTable, language.GetOr(JsUtils.DefaultLanguage)))
  }

  /** Leaving out the series name is passing `SERIES_TM_T20`, and leaving out
      the language is passing `LANG_EN`. */
  lemma SetupDefaults(
    seriesTable: map<string, int>, languageTable: map<string, int>,
    target: string, seriesName: Option<string>, language: Option<string>)
    ensures SetupPrinterArguments(seriesTable, languageTable, target, None, language)
         == SetupPrinterArguments(seriesTable, languageTable, target, Some(JsUtils.DefaultSeries), language)
    ensures SetupPrinterArguments(seriesTable, languageTable, target, seriesName, None)
         == SetupPrinterArguments(seriesTable, languageTable, target, seriesName, Some(JsUtils.DefaultLanguage))
  {
  }

  // -------------------------------------------------------------------------
  // getBluetoothMessage

  /** The pairing statuses, in the order the status type lists them. */
  const BluetoothStatuses: seq<string> := [
    "BLUETOOTH_SUCCESS",
    "BLUETOOTH_ERROR_PARAM",
    "BLUETOOTH_ERROR_CANCEL",
    "BLUETOOTH_ERROR_FAILURE",
    "BLUETOOTH_ERROR_UNSUPPORTED",
    "BLUETOOTH_ERROR_ILLEGAL_DEVICE",
    "BLUETOOTH_ERROR_ALREADY_CONNECT",
    "BLUETOOTH_ERROR_UNKNOWN"
  ]

  const UnsupportedMessage: string := "The function was executed on an unsupported OS."

  /** `getBluetoothMessage`: a reason for every status; the unsupported-OS
      text for `BLUETOOTH_ERROR_UNSUPPORTED` and for any unlisted string. */
  function BluetoothMessage(status: string): (message: string)
    ensures status !in BluetoothStatuses ==> message == UnsupportedMessage
    ensures message == UnsupportedMessage <==> status !in BluetoothStatuses || status == "BLUETOOTH_ERROR_UNSUPPORTED"
  {
    match status
    case "BLUETOOTH_ERROR_ALREADY_CONNECT" => "The function was executed successfully"
    case "BLUETOOTH_ERROR_CANCEL" => "Pairing connection was canceled."
    case "BLUETOOTH_ERROR_FAILURE" => "An unknown error occurred."
    case "BLUETOOTH_ERROR_ILLEGAL_DEVICE" => "An invalid device was selected."
    case "BLUETOOTH_ERROR_PARAM" => "An invalid parameter was passed."
    case "BLUETOOTH_ERROR_UNKNOWN" => "An unexpected error ocurred."
    case "BLUETOOTH_SUCCESS" => "The function was executed successfully."
    case _ => UnsupportedMessage
  }

  lemma BluetoothMessagesDistinctAt(i: nat, j: nat)
    requires i < j < |BluetoothStatuses|
    ensures BluetoothMessage(BluetoothStatuses[i]) != BluetoothMessage(BluetoothStatuses[j])
  {
  }

  /** Distinct statuses get distinct reasons, so the reason identifies the status. */
  lemma BluetoothMessageInjective(s: string, t: string)
    requires s in BluetoothStatuses && t in BluetoothStatuses && s != t
    ensures BluetoothMessage(s) != BluetoothMessage(t)
  {
    var i :| 0 <= i < |BluetoothStatuses| && BluetoothStatuses[i] == s;
    var j :| 0 <= j < |BluetoothStatuses| && BluetoothStatuses[j] == t;
    if i < j {
      BluetoothMessagesDistinctAt(i, j);
    } else {
      BluetoothMessagesDistinctAt(j, i);
    }
  }

  // -------------------------------------------------------------------------
  // The permission list of pairingBluetoothPrinter on Android

  datatype Permission =
    | Bluetooth | BluetoothAdmin | AccessCoarseLocation
    | BluetoothConnect | AccessFineLocation | BluetoothScan

  /** One entry of the list: the permission and the rationale shown with it. */
  datatype PermissionRequest = PermissionRequest(permission: Permission, title: string, message: string)

  predicate Requests(requests: seq<PermissionRequest>, p: Permission) {
    exists k :: 0 <= k < |requests| && requests[k].permission == p
  }

  /** The permissions of a request list, in the order they are asked for. */
  function PermissionOrder(requests: seq<PermissionRequest>): (ps: seq<Permission>)
    ensures |ps| == |requests|
    ensures forall k :: 0 <= k < |ps| ==> ps[k] == requests[k].permission
  {
    seq(|requests|, k requires 0 <= k < |requests| => requests[k].permission)
  }

  /** The permissions asked for on an Android device of API level
      `apiLevel`, in the order they are requested. */
  function PermissionsForApiLevel(apiLevel: int): (requests: seq<PermissionRequest>)
    ensures |requests| == (if apiLevel <= 30 then 3 else 2)
    ensures forall k, l :: 0 <= k < l < |requests| ==> requests[k].permission != requests[l].permission
    ensures Requests(requests, Bluetooth) <==> apiLevel <= 28
    ensures Requests(requests, AccessCoarseLocation) <==> apiLevel <= 28
    ensures Requests(requests, AccessFineLocation) <==> 29 <= apiLevel <= 30
    ensures Requests(requests, BluetoothAdmin) <==> apiLevel <= 30
    ensures Requests(requests, BluetoothConnect) <==> apiLevel >= 29
    ensures Requests(requests, BluetoothScan) <==> apiLevel >= 31
    ensures apiLevel <= 28 ==> PermissionOrder(requests) == [Bluetooth, BluetoothAdmin, AccessCoarseLocation]
    ensures 29 <= apiLevel <= 30 ==> PermissionOrder(requests) == [BluetoothConnect, BluetoothAdmin, AccessFineLocation]
    ensures apiLevel >= 31 ==> PermissionOrder(requests) == [BluetoothScan, BluetoothConnect]
  {
    if apiLevel <= 28 then
      var title, message := "Bluetooth Permission", "The app requires access to your Bluetooth for printing.";
      var r := [PermissionRequest(Bluetooth, title, message),
                PermissionRequest(BluetoothAdmin, title, message),
                PermissionRequest(AccessCoarseLocation, title, message)];
      assert r[0].permission == Bluetooth && r[1].permission == BluetoothAdmin && r[2].permission == AccessCoarseLocation;
      r
    else if apiLevel >= 29 && apiLevel <= 30 then
      var title, message := "Bluetooth Permission", "The app requires access to your Bluetooth for printing.";
      var r := [PermissionRequest(BluetoothConnect, title, message),
                PermissionRequest(BluetoothAdmin, title, message),
                PermissionRequest(AccessFineLocation, title, message)];
      assert r[0].permission == BluetoothConnect && r[1].permission == BluetoothAdmin && r[2].permission == AccessFineLocation;
      r
    else
      var r := [PermissionRequest(BluetoothScan, "Bluetooth Scan Permission",
                  "The app requires access to your Bluetooth for scanning."),
                PermissionRequest(BluetoothConnect, "Bluetooth Connect Permission",
                  "The app requires access to your Bluetooth for connecting to printers.")];
      assert r[0].permission == BluetoothScan && r[1].permission == BluetoothConnect;
      r
  }

  /** Every API level asks for a location permission or for the scan
      permission, never for both. */
  lemma LocationOrScan(apiLevel: int)
    ensures var rs := PermissionsForApiLevel(apiLevel);
      (Requests(rs, AccessCoarseLocation) || Requests(rs, AccessFineLocation)) != Requests(rs, BluetoothScan)
  {
  }
}
