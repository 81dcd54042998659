/** The helpers of the example app's main screen: the bounded connect-retry
    combinator, the open-cash-drawer sequence with its ESC/POS bytes, and the
    parser that turns the raw-data text field into the byte list passed to
    `sendRawData`. */
module ExampleApp {
  import opened Base

  // -------------------------------------------------------------------------
  // connectPrinter: retry a failed connect after a 2000 ms wait, `attempts` times

  /** The outcome of one call of `connect`; a failure carries its error. */
  datatype ConnectResult = Connected | Failed(error: int)

  const RetryDelayMs: nat := 2000

  /** A run of the combinator: how many times `connect` was called, how many
      waits happened, and how the run ended (the error a failed run rethrows). */
  datatype RetryRun = RetryRun(calls: nat, waits: nat, outcome: ConnectResult)

  /** The number of retries `attempts` allows: a count that is not positive allows none. */
  function Retries(attempts: int): nat {
    if attempts > 0 then attempts else 0
  }

  /** `connectPrinter({attempts})`, where call number `k` of `connect` has the
      outcome `connect(k)` and the run starts at call number `first`. */
  function ConnectWithRetry(attempts: int, connect: nat -> ConnectResult, first: nat): (run: RetryRun)
    ensures 1 <= run.calls <= Retries(attempts) + 1
    ensures run.waits == run.calls - 1
    ensures run.outcome == connect(first + run.calls - 1)
    ensures forall k :: first <= k < first + run.calls - 1 ==> connect(k).Failed?
    ensures run.outcome.Failed? ==> run.calls == Retries(attempts) + 1
    decreases Retries(attempts)
  {
    match connect(first)
    case Connected => RetryRun(1, 0, Connected)
    case Failed(e) =>
      if attempts > 0 then
        var rest := ConnectWithRetry(attempts - 1, connect, first + 1);
        RetryRun(rest.calls + 1, rest.waits + 1, rest.outcome)
      else
        RetryRun(1, 0, Failed(e))
  }

  /** The run connects exactly when one of the `attempts + 1` calls it may
      make succeeds; it then stops at the first such call. */
  lemma RetrySucceedsIff(attempts: int, connect: nat -> ConnectResult, first: nat)
    ensures ConnectWithRetry(attempts, connect, first).outcome == Connected
        <==> exists k :: first <= k <= first + Retries(attempts) && connect(k) == Connected
  {
    var run := ConnectWithRetry(attempts, connect, first);
    if run.outcome == Connected {
      assert connect(first + run.calls - 1) == Connected;
    }
  }

  /** A run in which every call fails waits `attempts` times and rethrows the
      error of its last call. */
  lemma RetryExhausted(attempts: int, connect: nat -> ConnectResult, first: nat)
    requires forall k :: first <= k <= first + Retries(attempts) ==> connect(k).Failed?
    ensures ConnectWithRetry(attempts, connect, first).waits == Retries(attempts)
    ensures ConnectWithRetry(attempts, connect, first).outcome == connect(first + Retries(attempts))
  {
    var run := ConnectWithRetry(attempts, connect, first);
    assert connect(first + run.calls - 1).Failed?;
  }

  // -------------------------------------------------------------------------
  // onOpenCashDrawer

  /** The calls the screen makes into the printer API, in order. */
  datatype Action = Connect | Wait(ms: nat) | ClearBuffer | SendRawData(data: seq<int>)

  /** The calls of a retry run of `calls` connects: connect, then wait and connect again. */
  function RetryTrace(calls: nat): (trace: seq<Action>)
    requires calls >= 1
    ensures |trace| == 2 * calls - 1
    ensures forall i :: 0 <= i < |trace| ==> trace[i] == (if i % 2 == 0 then Connect else Wait(RetryDelayMs))
  {
    if calls == 1 then [Connect] else [Connect, Wait(RetryDelayMs)] + RetryTrace(calls - 1)
  }

  /** How many attempts the cash-drawer action allows. */
  const DrawerConnectAttempts: int := 3

  datatype DrawerRun = DrawerRun(actions: seq<Action>, succeeded: bool)

  /** The calls after the connect attempts `trace`: nothing when no connect
      succeeded, then the buffer clear, then (if it succeeded) the send. */
  function DrawerActions(trace: seq<Action>, connected: bool, clearSucceeds: bool): (actions: seq<Action>)
    requires forall i :: 0 <= i < |trace| ==> trace[i].Connect? || trace[i].Wait?
    ensures |trace| <= |actions| <= |trace| + 2 && actions[..|trace|] == trace
    ensures ClearBuffer in actions <==> connected
    ensures SendRawData(EscCommands) in actions <==> connected && clearSucceeds
    ensures forall i :: 0 <= i < |actions| && actions[i] == ClearBuffer ==>
      forall j :: 0 <= j < i ==> actions[j].Connect? || actions[j].Wait?
    ensures forall i :: 0 <= i < |actions| && actions[i].SendRawData? ==>
      i == |actions| - 1 && i > 0 && actions[i - 1] == ClearBuffer && actions[i].data == EscCommands
    ensures forall i :: |trace| <= i < |actions| ==> actions[i] == ClearBuffer || actions[i] == SendRawData(EscCommands)
  {
    var tail :=
      if !connected then []
      else if !clearSucceeds then [ClearBuffer]
      else [ClearBuffer, SendRawData(EscCommands)];
    var actions := trace + tail;
    assert actions[..|trace|] == trace;
    assert forall i :: 0 <= i < |actions| ==> actions[i] == if i < |trace| then trace[i] else tail[i - |trace|];
    actions
  }

  /** `onOpenCashDrawer`: connect with three retries, clear the buffer, then
      send the ESC/POS bytes; the first failing step ends the run with its error. */
  function OpenCashDrawer(connect: nat -> ConnectResult, clearSucceeds: bool, sendSucceeds: bool): (r: DrawerRun)
    ensures var connected := exists k :: 0 <= k <= 3 && connect(k) == Connected;
      && (r.succeeded <==> connected && clearSucceeds && sendSucceeds)
      && (ClearBuffer in r.actions <==> connected)
      && (SendRawData(EscCommands) in r.actions <==> connected && clearSucceeds)
    ensures var trace := RetryTrace(ConnectWithRetry(DrawerConnectAttempts, connect, 0).calls);
      && |trace| <= |r.actions| <= |trace| + 2 && r.actions[..|trace|] == trace
      && forall i :: |trace| <= i < |r.actions| ==> r.actions[i] == ClearBuffer || r.actions[i] == SendRawData(EscCommands)
    ensures forall i :: 0 <= i < |r.actions| && r.actions[i] == ClearBuffer ==>
      forall j :: 0 <= j < i ==> r.actions[j].Connect? || r.actions[j].Wait?
    ensures forall i :: 0 <= i < |r.actions| && r.actions[i].SendRawData? ==>
      i == |r.actions| - 1 && i > 0 && r.actions[i - 1] == ClearBuffer && r.actions[i].data == EscCommands
  {
    var run := ConnectWithRetry(DrawerConnectAttempts, connect, 0);
    RetrySucceedsIff(DrawerConnectAttempts, connect, 0);
    var trace := RetryTrace(run.calls);
    DrawerRun(DrawerActions(trace, run.outcome.Connected?, clearSucceeds), run.outcome.Connected? && clearSucceeds && sendSucceeds)
  }

  // -------------------------------------------------------------------------
  // The ESC/POS cash-drawer bytes

  const Esc: int := 0x1b

  /** The two commands used: `ESC @` (initialize the printer) and
      `ESC p m t1 t2` (generate a pulse on connector pin `m`, on for `t1` x 2 ms
      and off for `t2` x 2 ms), as the Epson ESC/POS command reference defines them. */
  datatype EscPos = Initialize | GeneratePulse(m: int, onTime: int, offTime: int)

  predicate IsByte(b: int) { 0 <= b < 256 }

  predicate WellFormed(c: EscPos) {
    c.GeneratePulse? ==> (c.m == 0 || c.m == 1 || c.m == 48 || c.m == 49) && IsByte(c.onTime) && IsByte(c.offTime)
  }

  /** The drawer kick-out connector pin a pulse drives: 0 and 48 select
      pin 2, 1 and 49 select pin 5. */
  function DrawerPin(m: int): (pin: nat)
    requires m == 0 || m == 1 || m == 48 || m == 49
    ensures pin == 2 || pin == 5
    ensures pin == 2 <==> m % 48 == 0
  {
    if m == 0 || m == 48 then 2 else 5
  }

  function EncodeOne(c: EscPos): seq<int> {
    match c
    case Initialize => [Esc, 0x40]
    case GeneratePulse(m, t1, t2) => [Esc, 0x70, m, t1, t2]
  }

  function Encode(cs: seq<EscPos>): (bytes: seq<int>)
    ensures (forall i :: 0 <= i < |cs| ==> WellFormed(cs[i])) ==> forall k :: 0 <= k < |bytes| ==> IsByte(bytes[k])
  {
    if cs == [] then [] else EncodeOne(cs[0]) + Encode(cs[1..])
  }

  /** Reads a byte string back as commands; any other byte sequence is refused. */
  function Decode(bytes: seq<int>): (r: Option<seq<EscPos>>)
    ensures r.Some? ==> Encode(r.value) == bytes
    ensures r.Some? ==> forall i :: 0 <= i < |r.value| ==> WellFormed(r.value[i])
    decreases |bytes|
  {
    if bytes == [] then Some([])
    else if |bytes| >= 2 && bytes[0] == Esc && bytes[1] == 0x40 then
      match Decode(bytes[2..])
      case Some(rest) =>
        assert bytes == [Esc, 0x40] + bytes[2..];
        Some([Initialize] + rest)
      case None => None
    else if |bytes| >= 5 && bytes[0] == Esc && bytes[1] == 0x70 && WellFormed(GeneratePulse(bytes[2], bytes[3], bytes[4])) then
      match Decode(bytes[5..])
      case Some(rest) =>
        assert bytes == [Esc, 0x70, bytes[2], bytes[3], bytes[4]] + bytes[5..];
        Some([GeneratePulse(bytes[2], bytes[3], bytes[4])] + rest)
      case None => None
    else None
  }

  /** Well-formed commands read back as themselves. */
  lemma {:induction false} DecodeEncode(cs: seq<EscPos>)
    requires forall i :: 0 <= i < |cs| ==> WellFormed(cs[i])
    ensures Decode(Encode(cs)) == Some(cs)
    decreases |cs|
  {
    if cs != [] {
      DecodeEncode(cs[1..]);
      var head, tail := EncodeOne(cs[0]), Encode(cs[1..]);
      assert (head + tail)[|head|..] == tail;
      assert [cs[0]] + cs[1..] == cs;
    }
  }

  /** The bytes sent to open the cash drawer. */
  const EscCommands: seq<int> := [
    0x1b, 0x40,
    0x1b, 0x70, 0x00, 0x19, 0xfa,
    0x1b, 0x70, 0x01, 0x19, 0xfa,
    0x1b, 0x40
  ]

  /** The cash-drawer bytes are 14 bytes and mean: initialize, pulse pin 2
      for 50 ms on and 500 ms off, the same on pin 5, initialize again. */
  lemma EscCommandsMeaning()
    ensures |EscCommands| == 14
    ensures forall k :: 0 <= k < |EscCommands| ==> IsByte(EscCommands[k])
    ensures Decode(EscCommands) == Some([Initialize, GeneratePulse(0, 25, 250), GeneratePulse(1, 25, 250), Initialize])
    ensures DrawerPin(0) == 2 && DrawerPin(1) == 5
  {
    var cs := [Initialize, GeneratePulse(0, 25, 250), GeneratePulse(1, 25, 250), Initialize];
    assert Encode(cs[3..]) == [0x1b, 0x40];
    assert Encode(cs[2..]) == [0x1b, 0x70, 0x01, 0x19, 0xfa] + Encode(cs[3..]);
    assert Encode(cs[1..]) == [0x1b, 0x70, 0x00, 0x19, 0xfa] + Encode(cs[2..]);
    assert Encode(cs) == EscCommands;
    DecodeEncode(cs);
  }

  // -------------------------------------------------------------------------
  // onSendRawData: text field to byte list

  /** The characters the regular-expression class `\s` matches: the ECMAScript
      white space and line terminators. */
  predicate IsJsWhitespace(c: char) {
    c == '\t' || c == '\n' || c == '\U{000B}' || c == '\U{000C}' || c == '\r' || c == ' '
    || c == '\U{00A0}' || c == '\U{1680}' || ('\U{2000}' <= c <= '\U{200A}')
    || c == '\U{2028}' || c == '\U{2029}' || c == '\U{202F}' || c == '\U{205F}'
    || c == '\U{3000}' || c == '\U{FEFF}'
  }

  /** The class `[\[\s\]]` removed before splitting. */
  predicate IsStripped(c: char) { c == '[' || c == ']' || IsJsWhitespace(c) }

  /** The class `\D` split on. */
  predicate IsNonDigit(c: char) { !IsDigit(c) }

  predicate AllDigits(d: string) { forall i :: 0 <= i < |d| ==> IsDigit(d[i]) }

  /** `Number(d)` on a string of decimal digits; the empty string is 0. */
  function DecimalValue(d: string): nat
    requires AllDigits(d)
    decreases |d|
  {
    if d == [] then 0 else 10 * DecimalValue(d[..|d| - 1]) + (d[|d| - 1] as int - '0' as int)
  }

  /** `value.replace(/[\[\s\]]/g, "").split(/[\D]/g).map(Number)`. */
  function ParseRawData(value: string): (bytes: seq<nat>)
    ensures |bytes| == CountWhere(Without(value, IsStripped), IsNonDigit) + 1
  {
    var pieces := SplitWhere(Without(value, IsStripped), IsNonDigit);
    seq(|pieces|, k requires 0 <= k < |pieces| => DecimalValue(pieces[k]))
  }

  /** The empty field sends a single 0. */
  lemma ParseEmpty()
    ensures ParseRawData("") == [0]
  {
  }

  /** Blanks and brackets are dropped before anything else is looked at, so
      removing them beforehand changes nothing. */
  lemma ParseIgnoresStripped(value: string)
    ensures ParseRawData(Without(value, IsStripped)) == ParseRawData(value)
  {
    WithoutIdempotent(value, IsStripped);
  }

  /** Digits and a kept separator survive the stripping. */
  lemma StripDigitRun(d: string, c: char, rest: string)
    requires AllDigits(d) && !IsStripped(c)
    ensures Without(d + [c] + rest, IsStripped) == d + [c] + Without(rest, IsStripped)
  {
    assert forall i :: 0 <= i < |d + [c]| ==> !IsStripped((d + [c])[i]) by {
      forall i | 0 <= i < |d + [c]| ensures !IsStripped((d + [c])[i]) {
        if i < |d| {
          assert IsDigit(d[i]);
        }
      }
    }
    WithoutNone(d + [c], IsStripped);
    WithoutAppend(d + [c], rest, IsStripped);
  }

  /** A run of digits ended by any other kept character (a comma, a dot, a
      letter) is one number, its decimal value (0 for an empty run); the rest
      of the text is read on its own. */
  lemma ParseDigitRun(d: string, c: char, rest: string)
    requires AllDigits(d) && !IsDigit(c) && !IsStripped(c)
    ensures ParseRawData(d + [c] + rest) == [DecimalValue(d)] + ParseRawData(rest)
  {
    var w := Without(rest, IsStripped);
    StripDigitRun(d, c, rest);
    SplitAtSeparator(d, c, w, IsNonDigit);
    var pieces := SplitWhere(w, IsNonDigit);
    var r, t := ParseRawData(d + [c] + rest), ParseRawData(rest);
    assert |r| == |t| + 1;
    forall k | 0 <= k < |r| ensures r[k] == ([DecimalValue(d)] + t)[k] {
      if k > 0 {
        assert r[k] == DecimalValue(pieces[k - 1]);
      }
    }
  }

  /** A final run of digits is the last number. */
  lemma ParseLastRun(d: string)
    requires AllDigits(d)
    ensures ParseRawData(d) == [DecimalValue(d)]
  {
    WithoutNone(d, IsStripped);
    SplitWithoutSeparator(d, IsNonDigit);
  }

  lemma SplitOfHexLiteral()
    ensures SplitWhere("0x1b", IsNonDigit) == ["0", "1", ""]
  {
    SplitWithoutSeparator("", IsNonDigit);
    assert "1b" == "1" + ['b'] + "";
    SplitAtSeparator("1", 'b', "", IsNonDigit);
    assert "0x1b" == "0" + ['x'] + "1b";
    SplitAtSeparator("0", 'x', "1b", IsNonDigit);
  }

  lemma StripKeepsHexLiteral()
    ensures Without("0x1b", IsStripped) == "0x1b"
  {
    WithoutNone("0x1b", IsStripped);
  }

  lemma PiecesOfHexLiteral()
    ensures SplitWhere(Without("0x1b", IsStripped), IsNonDigit) == ["0", "1", ""]
  {
    StripKeepsHexLiteral();
    SplitOfHexLiteral();
  }

  lemma ParseOfHexLiteralAt()
    ensures |ParseRawData("0x1b")| == 3
    ensures ParseRawData("0x1b")[0] == 0 && ParseRawData("0x1b")[1] == 1 && ParseRawData("0x1b")[2] == 0
  {
    PiecesOfHexLiteral();
    DigitValues();
  }

  /** Hexadecimal is not understood: "0x1b" is read as the digit runs 0, 1 and
      an empty piece, that is [0, 1, 0], not [27]. */
  lemma ParseHexLiteral()
    ensures ParseRawData("0x1b") == [0, 1, 0]
  {
    ParseOfHexLiteralAt();
  }

  lemma DigitValues()
    ensures DecimalValue("0") == 0 && DecimalValue("1") == 1 && DecimalValue("") == 0
  {
    assert "1"[..0] == "" && "0"[..0] == "";
  }

  /** The decimal digits of `n`, without leading zeros. */
  function DecimalString(n: nat): (s: string)
    ensures |s| >= 1 && AllDigits(s)
    ensures DecimalValue(s) == n
  {
    var digit := ('0' as int + n % 10) as char;
    if n < 10 then [digit]
    else
      var s := DecimalString(n / 10) + [digit];
      assert s[..|s| - 1] == DecimalString(n / 10);
      s
  }

  /** A list as a user types it: "[27, 112, 0]". */
  function ListText(xs: seq<nat>): string
    requires |xs| >= 1
  {
    "[" + Items(xs) + "]"
  }

  function Items(xs: seq<nat>): string
    requires |xs| >= 1
    decreases |xs|
  {
    if |xs| == 1 then DecimalString(xs[0]) else DecimalString(xs[0]) + ", " + Items(xs[1..])
  }

  /** `Items` with the blanks removed. */
  function CommaItems(xs: seq<nat>): string
    requires |xs| >= 1
    decreases |xs|
  {
    if |xs| == 1 then DecimalString(xs[0]) else DecimalString(xs[0]) + "," + CommaItems(xs[1..])
  }

  /** One item and its ", " separator lose the blank. */
  lemma StripItem(d: string, rest: string)
    requires AllDigits(d)
    ensures Without(d + ", " + rest, IsStripped) == d + "," + Without(rest, IsStripped)
  {
    WithoutNone(d, IsStripped);
    WithoutAppend(d, ", " + rest, IsStripped);
    WithoutAppend(", ", rest, IsStripped);
    assert Without(", ", IsStripped) == ",";
    assert d + ", " + rest == d + (", " + rest);
  }

  lemma {:induction false} StripItems(xs: seq<nat>)
    requires |xs| >= 1
    ensures Without(Items(xs), IsStripped) == CommaItems(xs)
    decreases |xs|
  {
    var d := DecimalString(xs[0]);
    if |xs| == 1 {
      WithoutNone(d, IsStripped);
    } else {
      StripItems(xs[1..]);
      StripItem(d, Items(xs[1..]));
    }
  }

  lemma {:induction false} SplitCommaItems(xs: seq<nat>)
    requires |xs| >= 1
    ensures |SplitWhere(CommaItems(xs), IsNonDigit)| == |xs|
    ensures forall k :: 0 <= k < |xs| ==> SplitWhere(CommaItems(xs), IsNonDigit)[k] == DecimalString(xs[k])
    decreases |xs|
  {
    var d := DecimalString(xs[0]);
    if |xs| == 1 {
      SplitWithoutSeparator(d, IsNonDigit);
    } else {
      var tail := CommaItems(xs[1..]);
      SplitCommaItems(xs[1..]);
      assert CommaItems(xs) == d + [','] + tail;
      SplitAtSeparator(d, ',', tail, IsNonDigit);
      var r, r' := SplitWhere(CommaItems(xs), IsNonDigit), SplitWhere(tail, IsNonDigit);
      assert r == [d] + r';
      forall k | 0 < k < |xs| ensures r[k] == DecimalString(xs[k]) {
        assert r[k] == r'[k - 1];
        assert xs[1..][k - 1] == xs[k];
      }
    }
  }

  /** Typing a list of numbers in the usual bracketed, comma-separated form
      sends exactly those numbers. */
  lemma ParseListText(xs: seq<nat>)
    requires |xs| >= 1
    ensures ParseRawData(ListText(xs)) == xs
  {
    var body := Items(xs);
    WithoutAppend("[", body + "]", IsStripped);
    WithoutAppend(body, "]", IsStripped);
    assert ListText(xs) == "[" + (body + "]");
    StripItems(xs);
    assert Without(ListText(xs), IsStripped) == CommaItems(xs);
    SplitCommaItems(xs);
  }
}
