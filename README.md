# react-native-epson-epos, modelled in Dafny

`react-native-epson-epos` is a React Native (Expo) bridge to Epson's closed ePOS
printer SDK. The JavaScript API discovers printers, binds one target, connects,
fills the printer's command buffer and sends it. On Android a single
`EpsonManager` object holds the session: the vendor `Printer` handle (or none),
a connection flag, the bound target and a discovery timeout. On iOS the error
codes, port types and command names are Swift enums.

This project models the logic of the bridge itself, and the vendor SDK only
through the outcome of each call:

- `android_manager.dfy`, module `AndroidBridge`:
  - `EpsonManager` is a class with the four fields of the Kotlin manager.
  - `PrinterHandle` is a class standing for the vendor handle. It records the command buffer, the batches sent, the connect/disconnect calls and the receive listener.
  - Every vendor call whose failure the model follows (setup, connect, disconnect, the `add*` calls and `sendData`) is an outcome parameter: it succeeds, or it throws `ERR_PROCESSING`, another status, or another exception.
  - `clearCommandBuffer` and `setReceiveEventListener(null)` are modelled as calls that always return, although `printImage` calls `clearCommandBuffer` inside its `try`. A failure of theirs is not modelled.
  - The contracts state the flag, target and buffer on every path.
  - The pure helpers are also here: the port-type filter, `getUSBAddress` and the discovery record of one device.
- `js_discovery.dfy`, module `JsDiscovery`:
  - The de-duplication `reduce` of `discoverPrinters` is a loop over the native result.
  - It is proved equal to a fold function, `Dedup`.
  - `Dedup` is characterised independently: first occurrences in input order, each carrying its group's merged target.
- `js_api.dfy`, module `JsApi`: the `addTextAlign` code, the `setupPrinter` defaults, `getBluetoothMessage` and the Android permission list by API level.
- `js_utils.dfy`, module `JsUtils`: `getPrinterLanguage` and `getPrinterSeriesByName`.
- `example_app.dfy`, module `ExampleApp`: the example screen's helpers.
  - the `connectPrinter` retry combinator;
  - the order of calls in `onOpenCashDrawer`;
  - the ESC/POS cash-drawer bytes, with an encoder/decoder for `ESC @` and `ESC p` as the Epson ESC/POS command reference defines them;
  - the `onSendRawData` text-to-numbers parser.
- `ios_utils.dfy`, module `IosUtils`: the enums `Commands`, `PrinterError` and `PrinterPortType`, with their raw-value initialisers.
- `base.dfy`, module `Base`: JavaScript-like string helpers used by the above (`includes`, ASCII `toLowerCase`, single-character `split`).

Where the code and its documentation disagree, the model follows the code:

- A failed `setupPrinter` drops the handle but keeps the connection flag. A manager can then report "connected" and "not set up" together (`FailedSetupWhileConnected`).
- `connectPrinter` never clears the connection flag. When the preliminary disconnect succeeds and the connect then fails, the printer is disconnected but the manager still reports "connected" (`DisconnectedButFlagged`).
- `disconnectPrinter` makes one `disconnect` call. On `ERR_PROCESSING` it sleeps one 500 ms interval and rejects; it does not retry.
- `connectPrinter` passes the vendor default timeout. The `timeout` field is only the discovery window.
- `cutPaper` resolves its promise when `addCut` throws, and also when there is no handle, because `printer!!` throws first. A successful cut leaves the promise pending.
- The comment of `onSendRawData` speaks of hex values, but the parser reads digit runs only: "0x1b" gives [0, 1, 0].

## Model

| member | source | states |
|---|---|---|
| AndroidBridge.PortFilterOf | android/src/main/java/expo/modules/epsonepos/EpsonManager.kt:183-196 | "LAN" selects TCP, "BLUETOOTH" Bluetooth, "USB" USB, each exactly for that string; every other string selects all ports |
| AndroidBridge.PortFilterAgreesWithIos | ios/Utils.swift:42-47 | the four names iOS accepts select the same filter on Android; a name iOS rejects selects all ports on Android |
| AndroidBridge.UsbAddress | android/src/main/java/expo/modules/epsonepos/EpsonManager.kt:339-345 | an address exists exactly when "USB:" occurs anywhere in the target, and it is the target without its first four characters |
| AndroidBridge.UsbAddressOfUsbTarget | android/src/main/java/expo/modules/epsonepos/EpsonManager.kt:339-345 | a "USB:"-prefixed target yields what follows the prefix |
| AndroidBridge.DiscoveryItem | android/src/main/java/expo/modules/epsonepos/EpsonManager.kt:210-226 | the five device fields always; "usb" exactly when a USB address exists and the USB service is available; "usbSerialNumber" exactly when also a serial number is found |
| AndroidBridge.PrintImageJob | android/src/main/java/expo/modules/epsonepos/EpsonManager.kt:302-306 | four commands, the pulse first and the feed cut last |
| AndroidBridge.PrinterHandle.Add | android/src/main/java/expo/modules/epsonepos/EpsonManager.kt:302-306 | an `add*` call appends its command on success and changes nothing on failure |
| AndroidBridge.PrinterHandle.SendData | android/src/main/java/expo/modules/epsonepos/EpsonManager.kt:308 | on success the current buffer is transmitted as one batch and kept in the buffer |
| AndroidBridge.PrinterHandle.RemoveReceiveListener | android/src/main/java/expo/modules/epsonepos/EpsonManager.kt:242 | the handle has no receive listener afterwards; buffer, sent batches and link calls are unchanged |
| AndroidBridge.PrinterHandle.Connect | android/src/main/java/expo/modules/epsonepos/EpsonManager.kt:267 | a connect call to the target is recorded; it succeeds as the vendor outcome says; buffer, sent batches and listener are unchanged |
| AndroidBridge.PrinterHandle.Disconnect | android/src/main/java/expo/modules/epsonepos/EpsonManager.kt:259 | a disconnect call is recorded; it succeeds exactly for the success outcome; buffer, sent batches and listener are unchanged |
| AndroidBridge.PrinterHandle.ClearCommandBuffer | android/src/main/java/expo/modules/epsonepos/EpsonManager.kt:241 | the buffer becomes empty, nothing else changes |
| AndroidBridge.EpsonManager.constructor | android/src/main/java/expo/modules/epsonepos/EpsonManager.kt:38-44 | no handle, not connected, timeout 5000, no target |
| AndroidBridge.EpsonManager.SetTimeout | android/src/main/java/expo/modules/epsonepos/EpsonManager.kt:168-170 | sets the timeout and nothing else |
| AndroidBridge.EpsonManager.PrinterIsSetup | android/src/main/java/expo/modules/epsonepos/EpsonManager.kt:172-174 | true exactly when a handle exists |
| AndroidBridge.EpsonManager.PrinterIsConnected | android/src/main/java/expo/modules/epsonepos/EpsonManager.kt:176-178 | the connection flag |
| AndroidBridge.EpsonManager.SetupPrinter | android/src/main/java/expo/modules/epsonepos/EpsonManager.kt:238-254 | an old handle is cleared and loses its listener; on success there is a fresh empty handle without a listener for the series and language and the target is bound; on failure there is no handle and the target is unchanged; the flag and the timeout never change |
| AndroidBridge.EpsonManager.ConnectPrinter | android/src/main/java/expo/modules/epsonepos/EpsonManager.kt:256-273 | a connected manager first calls disconnect and ignores its outcome; it resolves exactly when a handle and a target exist and connect succeeds; the flag becomes true only then and is otherwise unchanged |
| AndroidBridge.EpsonManager.DisconnectPrinter | android/src/main/java/expo/modules/epsonepos/EpsonManager.kt:275-298 | one disconnect call; it resolves exactly when there is no handle or the call succeeds, clearing the flag after sleeping 500 ms; otherwise it rejects with the flag unchanged, after 500 ms for `ERR_PROCESSING` and no sleep otherwise; the listener is untouched |
| AndroidBridge.EpsonManager.PrintImage | android/src/main/java/expo/modules/epsonepos/EpsonManager.kt:300-319 | it resolves exactly when no step fails, having sent the old buffer plus pulse, centre, image and cut and slept 500 ms; the buffer is empty on every exit; with no handle it rejects; the listener is untouched |
| AndroidBridge.EpsonManager.CutPaper | android/src/main/java/expo/modules/epsonepos/EpsonManager.kt:321-328 | a successful cut is appended and the promise left pending; a failed cut, or no handle, clears the buffer and resolves |
| AndroidBridge.SetupThenConnect | android/src/main/java/expo/modules/epsonepos/EpsonManager.kt:238-273 | after a successful setup and connect, the manager is set up and connected |
| AndroidBridge.ConnectWithoutSetup | android/src/main/java/expo/modules/epsonepos/EpsonManager.kt:265-272 | connecting without a handle rejects and leaves the manager disconnected |
| AndroidBridge.DisconnectWithoutSetup | android/src/main/java/expo/modules/epsonepos/EpsonManager.kt:276-281 | disconnecting without a handle resolves and leaves the manager disconnected |
| AndroidBridge.FailedSetupWhileConnected | android/src/main/java/expo/modules/epsonepos/EpsonManager.kt:238-254 | a failed re-setup of a connected manager leaves it not set up but still connected |
| AndroidBridge.DisconnectedButFlagged | android/src/main/java/expo/modules/epsonepos/EpsonManager.kt:256-273 | a reconnect whose disconnect succeeds and whose connect fails makes exactly those two link calls and rejects, and the manager still reports "connected" |
| AndroidBridge.DisconnectBusyPrinter | android/src/main/java/expo/modules/epsonepos/EpsonManager.kt:282-296 | `ERR_PROCESSING` gives one disconnect call, a 500 ms sleep, a rejection, and the manager still connected |
| AndroidBridge.PrintLeavesBufferEmpty | android/src/main/java/expo/modules/epsonepos/EpsonManager.kt:300-319 | whichever step fails, the buffer ends empty, and the job resolves exactly when no step failed |
| AndroidBridge.ReconnectIgnoresFailedDisconnect | android/src/main/java/expo/modules/epsonepos/EpsonManager.kt:256-269 | whatever the preliminary disconnect does, a successful connect resolves and the manager is connected |
| JsDiscovery.MergeInto | src/index.ts:40-49 | a record whose address is already present adds no entry, and one with a new address is appended; an existing entry changes only when it has the record's address and the record's target starts with `TCPS:`, and then only its target, to that one; when the address is present, its first entry takes the record's target exactly when that target starts with `TCPS:`, and every other entry is kept |
| JsDiscovery.FindByMac | src/index.ts:41 | the index of the first record with that address (undefined matching undefined), or none when no record has it |
| JsDiscovery.DedupPrinters | src/index.ts:40-50 | the loop computes the fold `Dedup` of the input |
| JsDiscovery.DedupUniqueAndComplete | src/index.ts:40-50 | no two output records share an address (so all undefined addresses collapse into one); the output's addresses are exactly the input's; the output is no longer than the input |
| JsDiscovery.DedupKeepsFirstOccurrences | src/index.ts:40-48 | entry k comes from the k-th first occurrence, in input order, and has all its fields except the target |
| JsDiscovery.DedupTarget | src/index.ts:41-45 | an entry's target is the last `TCPS:` target of its group if one exists, otherwise the target of the group's first record; so any `TCPS:` member gives a `TCPS:` result |
| JsDiscovery.MergeStep | src/index.ts:41-48 | one application of the reducer keeps the description: merged records per first occurrence (the new index added only for a new address), unique addresses, and the addresses seen so far |
| JsDiscovery.DedupShape | src/index.ts:40-50 | the output lists, for the first-occurrence indices, each group's merged record, with unique addresses, covering the input's addresses |
| JsDiscovery.DedupOfUnique | src/index.ts:40-50 | a list whose addresses are already distinct is unchanged |
| JsDiscovery.DedupIdempotent | src/index.ts:40-50 | de-duplicating the output again changes nothing |
| JsDiscovery.SecureTargetWinsEitherOrder | src/index.ts:42-47 | of two records of one address, the `TCPS:` target is kept whichever comes first; the other fields come from the first record |
| JsDiscovery.UsbAndSecureTcpMerge | src/index.ts:40-50 | a USB record followed by a `TCPS:` record of the same address merges into the USB record carrying the `TCPS:` target |
| JsApi.AlignCode | src/index.ts:299-304 | "left" gives 0 and "right" gives 2, each exactly for that string; every other string gives 1 |
| JsApi.AlignCodesDistinct | src/index.ts:299-304 | left, center and right map to 0, 1 and 2 |
| JsApi.SetupPrinterArguments | src/index.ts:83-91 | the target is passed unchanged; the series code is the table's entry for the given series name, or for `SERIES_TM_T20` when none is given, and absent exactly when the table lacks that key; the language code is that of `getPrinterLanguage` on the language or `LANG_EN` |
| JsApi.SetupDefaults | src/index.ts:88-89 | omitting the series is passing `SERIES_TM_T20`; omitting the language is passing `LANG_EN` |
| JsApi.BluetoothMessage | src/index.ts:103-123 | every string has a reason; the unsupported-OS text is given exactly for `BLUETOOTH_ERROR_UNSUPPORTED` and unlisted strings |
| JsApi.BluetoothMessageInjective | src/index.ts:103-123 | distinct listed statuses get distinct reasons |
| JsApi.PermissionsForApiLevel | src/index.ts:156-219 | three requests up to level 30 and two above, no permission twice; BLUETOOTH and coarse location exactly up to 28; fine location exactly at 29-30; BLUETOOTH_ADMIN exactly up to 30; BLUETOOTH_CONNECT exactly from 29; BLUETOOTH_SCAN exactly from 31; the order is BLUETOOTH, BLUETOOTH_ADMIN, coarse location (up to 28), BLUETOOTH_CONNECT, BLUETOOTH_ADMIN, fine location (29-30), and BLUETOOTH_SCAN, BLUETOOTH_CONNECT (from 31) |
| JsApi.LocationOrScan | src/index.ts:156-219 | every level asks for a location permission or for the scan permission, never both |
| JsUtils.PrinterLanguageCode | src/utils.ts:11-20 | a known language gives its own code; an unknown one gives the `LANG_EN` code; the result is always a code of the table |
| JsUtils.LanguageFallback | src/utils.ts:11-20 | with `LANG_EN` in the table every name gets a code, and an unknown name gets exactly the `LANG_EN` code |
| JsUtils.ModelToken | src/utils.ts:27-28 | for a key with at least two `_` the token is the third `_`-separated piece, lower-cased; for a shorter key it is the text "undefined"; it never holds `_` or an upper-case letter |
| JsUtils.ShortKeyMatchesUndefined | src/utils.ts:27-28 | a key with fewer than two `_` matches exactly the names whose lower-cased form contains "undefined" |
| JsUtils.FindSeries | src/utils.ts:26-29 | the index of the first key whose token occurs in the lower-cased name, or none when no key matches |
| JsUtils.SeriesByName | src/utils.ts:22-32 | the result is a key or `SERIES_TM_T20`; it is the first matching key, or `SERIES_TM_T20` when no key matches |
| JsUtils.SeriesByNameTokenOccurs | src/utils.ts:27-28 | the chosen key's lower-cased token occurs in the lower-cased name at some position |
| JsUtils.SeriesByNameIgnoresCase | src/utils.ts:28 | names that differ only in letter case select the same series |
| JsUtils.SeriesByNameOfLowerCase | src/utils.ts:28 | a name and its lower-case form select the same series |
| JsUtils.ShadowedKeyNeverChosen | src/utils.ts:26-28 | a key whose token contains an earlier key's token is never chosen |
| JsUtils.M30IIIResolvesToM30 | src/utils.ts:26-31 | with `SERIES_TM_M30` before `SERIES_TM_M30III`, the name "TM-m30III" selects `SERIES_TM_M30` |
| ExampleApp.ConnectWithRetry | example/screens/main/index.tsx:26-37 | at most attempts + 1 connect calls, one wait fewer than calls; every call before the last failed; the run ends with the last call's outcome, rethrowing its error on failure, and only after all allowed calls |
| ExampleApp.RetrySucceedsIff | example/screens/main/index.tsx:26-37 | the run connects exactly when one of its allowed calls succeeds |
| ExampleApp.RetryExhausted | example/screens/main/index.tsx:29-35 | when every call fails there are exactly `attempts` waits and the last call's error is rethrown |
| ExampleApp.RetryTrace | example/screens/main/index.tsx:28-32 | n connects with a 2000 ms wait between each two |
| ExampleApp.OpenCashDrawer | example/screens/main/index.tsx:238-279 | it succeeds exactly when a connect within 3 retries, the buffer clear and the send all succeed; the actions begin with exactly the connects and 2000 ms waits of the retry run, and every later action is the clear or the send, so nothing follows a failed retry run; the clear comes only after connecting; the send comes only after the clear, is the last call and carries the cash-drawer bytes |
| ExampleApp.Decode | example/screens/main/index.tsx:245-266 | whatever decodes re-encodes to the same bytes, and every decoded command is well formed |
| ExampleApp.DecodeEncode | example/screens/main/index.tsx:245-266 | well-formed commands decode back to themselves |
| ExampleApp.EscCommandsMeaning | example/screens/main/index.tsx:245-266 | the bytes are 14 values below 256: initialize, pulse pin 2 (25, 250), pulse pin 5 (25, 250), initialize |
| ExampleApp.DrawerPin | example/screens/main/index.tsx:252-261 | `m` 0 or 48 drives pin 2, and 1 or 49 drives pin 5 |
| ExampleApp.ParseRawData | example/screens/main/index.tsx:281-290 | the list is one longer than the count of non-digits left after removing brackets and `\s` white space |
| ExampleApp.ParseIgnoresStripped | example/screens/main/index.tsx:286 | brackets and `\s` white space are removed before anything else, so removing them beforehand changes nothing |
| ExampleApp.ParseDigitRun | example/screens/main/index.tsx:287-288 | a digit run followed by any other kept character gives one number, the run's decimal value (0 for an empty run), followed by the numbers of the rest |
| ExampleApp.ParseLastRun | example/screens/main/index.tsx:287-288 | a final digit run gives its decimal value as the last number |
| ExampleApp.ParseEmpty | example/screens/main/index.tsx:284-288 | the empty field gives [0] |
| ExampleApp.ParseHexLiteral | example/screens/main/index.tsx:284-288 | "0x1b" gives [0, 1, 0] |
| ExampleApp.ParseListText | example/screens/main/index.tsx:284-288 | a bracketed, comma-and-blank separated list of decimal numbers parses back to those numbers |
| ExampleApp.DecimalString | example/screens/main/index.tsx:288 | the digits of n read back as n |
| IosUtils.CommandsEnumerated | ios/Utils.swift:1-16 | fourteen cases, each once, with pairwise distinct raw values |
| IosUtils.CommandFromRawValue | ios/Utils.swift:1-16 | a found case has that raw value; none when no case has it |
| IosUtils.CommandRawValueRoundTrip | ios/Utils.swift:1-16 | each case is recovered from its raw value |
| IosUtils.ErrorCodesWellFormed | ios/Utils.swift:18-40 | every code starts with `ERROR_` and no two coincide |
| IosUtils.ErrorFromRawValue | ios/Utils.swift:18-40 | a found code has that raw value; none when no code has it |
| IosUtils.ErrorRawValueRoundTrip | ios/Utils.swift:18-40 | each code is recovered from its raw value |
| IosUtils.CommandError | ios/Utils.swift:28-39 | the code of each operation starts with `ERROR_COMMAND_` |
| IosUtils.OperationOf | ios/Utils.swift:18-40 | an operation found for a code has that code |
| IosUtils.NonCommandCodes | ios/Utils.swift:19-27 | the codes that name no operation do not start with `ERROR_COMMAND_` |
| IosUtils.CommandErrorsOnePerOperation | ios/Utils.swift:28-39 | distinct operations have distinct codes, and every `ERROR_COMMAND_` code belongs to an operation |
| IosUtils.PortTypeFromRawValue | ios/Utils.swift:42-47 | it succeeds exactly for "ALL", "LAN", "BLUETOOTH" and "USB", with that raw value |
| IosUtils.PortTypeRoundTrip | ios/Utils.swift:42-47 | each port type is recovered from its raw value, so the raw values are distinct |
| Base.ContainsHasOccurrence | src/utils.ts:28 | a match of the recursive search is an occurrence at some index |
| Base.OccurrenceContained | src/utils.ts:28 | every occurrence is found |
| Base.SplitWhere | example/screens/main/index.tsx:287 | one more piece than separators; no piece holds a separator; the pieces concatenate to the text without its separators |
| Base.Lower | src/utils.ts:28 | same length; each character is lower-cased on its own: `A`-`Z` become `a`-`z` and every other character is kept |

## Left out

- Discovery windowing is not modelled: the coroutine scope, the vendor callback appending to a shared list, and `delay`/`cancel` in `startDiscovery`. They are timing and concurrency. Only the port filter and the record built per device are modelled.
- The vendor SDK (`Printer`, `Discovery`, `Epos2Exception`, `UsbManager`) is closed. Each call is an outcome parameter. The image bitmap is left out; only the caller-supplied `imageWidth` and `imageHeight` passed to `addImage` are kept.
- `Thread.sleep` is reported as the milliseconds slept, and the 2000 ms waits of the example are counted; neither is timed.
- The bridge never registers a receive-event listener on a handle. `setupPrinter` only removes one, so the listener field of a handle is never observed set.
- The tables `PRINTER_SERIES` and `PRINTER_LANGUAGE` map names to vendor constants. `src/constants.ts` is not part of this model, so they are parameters: a map for the codes, and a key list in iteration order for the series lookup. The native `constants()` tables are left out for the same reason.
- `ios/EpsonManager.swift` is not part of this model. Its `printerIsSetup`/`printerIsConnected` are stubs, and its timeout is a float.
- Module registration and bridging, on both platforms, are not part of this model. This includes the force-unwrap of `PrinterPortType(rawValue:)` in `ios/ReactNativeEpsonEposModule.swift`, which traps on the strings `PortTypeFromRawValue` rejects.
- The Android permission-request loop in `pairingBluetoothPrinter` is operating-system dialogs. Only the selection of the list is modelled.
- The `Math.floor` conversions of `addFeedLine`, `addImage` and `addTextSize` are not modelled, because they work on floating-point numbers.
- React state and rendering of the example app are not part of this model.
- JsDiscovery.DedupPrinters: works on values. In the source, the accumulated records are the input objects themselves, so the target overwrite is also visible through the caller's array; that aliasing is not modelled.
- Base.Lower: lower-cases ASCII letters only, not the Unicode case mapping of `toLowerCase`.
- ExampleApp.ParseRawData: `Number` of a digit run is modelled as an exact natural number. Floating-point rounding above 2^53 is not modelled, nor is the native side's handling of values above 255.
- ExampleApp.ParseRawData: text is a sequence of Unicode code points. The source's `/[\D]/g` has no `u` flag, so it tests UTF-16 code units: a character outside the Basic Multilingual Plane (an emoji, say) counts as two separators there and as one here. For "1😀2" the source gives [1, 0, 2] and the model gives [1, 2].
- AndroidBridge.UsbAddress: `substring(4)` counts UTF-16 code units, and the model counts code points. The two differ only for a target whose first four characters include one outside the Basic Multilingual Plane.
- ExampleApp.ConnectWithRetry: `attempts` is an integer. A fractional count is not modelled.
- JsApi.PermissionsForApiLevel: the API level is an integer. `Number(Platform.Version)` being NaN is not modelled.
