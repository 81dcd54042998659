/** De-duplication of discovered printers by MAC address, as the JavaScript
    `discoverPrinters` performs it on the list the native side returns: a
    `reduce` that keeps the first record of each MAC address and overwrites
    that record's target with any later `TCPS:` target of the same address. */
module JsDiscovery {
  import opened Base

  /** The `Printer` record of the JavaScript API; every field may be undefined. */
  datatype PrinterRecord = PrinterRecord(
    name: Option<string>, target: Option<string>, ip: Option<string>, mac: Option<string>,
    bt: Option<string>, usb: Option<string>, usbSerialNumber: Option<string>)

  /** The target prefix of a secure TCP transport. */
  const SecurePrefix: string := "TCPS:"

  /** `printer.target && printer.target.startsWith("TCPS:")`. */
  predicate IsSecureTarget(target: Option<string>) {
    target.Some? && SecurePrefix <= target.value
  }

  /** `acc.find((p) => p.mac === mac)`, as the index of the record found.
      `===` on two undefined addresses holds, so undefined matches undefined. */
  function FindByMac(acc: seq<PrinterRecord>, mac: Option<string>): (r: Option<nat>)
    ensures r.Some? ==> r.value < |acc| && acc[r.value].mac == mac
    ensures r.Some? ==> forall j :: 0 <= j < r.value ==> acc[j].mac != mac
    ensures r.None? ==> forall j :: 0 <= j < |acc| ==> acc[j].mac != mac
  {
    if acc == [] then None
    else if acc[0].mac == mac then Some(0)
    else
      match FindByMac(acc[1..], mac)
      case Some(j) => Some(j + 1)
      case None => None
  }

  /** The reducer: a record whose address is already present only lends it
      a `TCPS:` target; a record with a new address is appended. */
  function MergeInto(acc: seq<PrinterRecord>, printer: PrinterRecord): (r: seq<PrinterRecord>)
    ensures printer.mac in Macs(acc) ==> |r| == |acc|
    ensures printer.mac !in Macs(acc) ==> r == acc + [printer]
    ensures FindByMac(acc, printer.mac).Some? ==>
      var j := FindByMac(acc, printer.mac).value;
      r == acc[j := if IsSecureTarget(printer.target) then acc[j].(target := printer.target) else acc[j]]
    ensures forall k :: 0 <= k < |acc| ==>
      r[k] == acc[k]
      || (acc[k].mac == printer.mac && IsSecureTarget(printer.target) && r[k] == acc[k].(target := printer.target))
  {
    match FindByMac(acc, printer.mac)
    case Some(j) =>
      if IsSecureTarget(printer.target) then acc[j := acc[j].(target := printer.target)] else acc
    case None => acc + [printer]
  }

  /** `printers.reduce(MergeInto, [])`. */
  function Dedup(printers: seq<PrinterRecord>): seq<PrinterRecord>
    decreases |printers|
  {
    if printers == [] then []
    else MergeInto(Dedup(printers[..|printers| - 1]), printers[|printers| - 1])
  }

  /** The de-duplication loop of `discoverPrinters`: `existing` is what
      `acc.find` returns, and the target of that accumulated record is
      overwritten in place. */
  method DedupPrinters(printers: seq<PrinterRecord>) returns (unique: seq<PrinterRecord>)
    ensures unique == Dedup(printers)
  {
    unique := [];
    var i := 0;
    while i < |printers|
      invariant 0 <= i <= |printers|
      invariant unique == Dedup(printers[..i])
    {
      var printer := printers[i];
      var existing := FindByMac(unique, printer.mac);
      if existing.Some? {
        if printer.target.Some? && SecurePrefix <= printer.target.value {
          unique := unique[existing.value := unique[existing.value].(target := printer.target)];
        }
      } else {
        unique := unique + [printer];
      }
      assert printers[..i + 1][..i] == printers[..i];
      i := i + 1;
    }
    assert printers[..i] == printers;
  }

  // -------------------------------------------------------------------------
  // A reference description of the result, independent of the fold.

  /** The addresses present in a list (undefined counts as one address). */
  function Macs(ps: seq<PrinterRecord>): set<Option<string>> {
    set p | p in ps :: p.mac
  }

  /** No two records share an address. */
  predicate UniqueMacs(ps: seq<PrinterRecord>) {
    forall i, j :: 0 <= i < j < |ps| ==> ps[i].mac != ps[j].mac
  }

  /** `ps[i]` is the first record with its address. */
  predicate IsFirstOccurrence(ps: seq<PrinterRecord>, i: int) {
    0 <= i < |ps| && forall j :: 0 <= j < i ==> ps[j].mac != ps[i].mac
  }

  /** The indices of the first occurrences, in increasing order. */
  function FirstIndices(ps: seq<PrinterRecord>): (r: seq<nat>)
    ensures |r| <= |ps|
    ensures forall k :: 0 <= k < |r| ==> IsFirstOccurrence(ps, r[k])
    ensures forall k, l :: 0 <= k < l < |r| ==> r[k] < r[l]
    ensures forall i :: IsFirstOccurrence(ps, i) ==> i in r
    decreases |ps|
  {
    if ps == [] then []
    else
      var n := |ps| - 1;
      var init := ps[..n];
      var rest := FirstIndices(init);
      assert forall i :: 0 <= i < n ==> (IsFirstOccurrence(ps, i) <==> IsFirstOccurrence(init, i));
      if FindByMac(init, ps[n].mac).Some? then rest else rest + [n]
  }

  /** `ps[j]` has address `mac` and a `TCPS:` target. */
  predicate SecureMember(ps: seq<PrinterRecord>, j: int, mac: Option<string>) {
    0 <= j < |ps| && ps[j].mac == mac && IsSecureTarget(ps[j].target)
  }

  /** The last record with address `mac` and a `TCPS:` target. */
  function LastSecureIndex(ps: seq<PrinterRecord>, mac: Option<string>): (r: Option<nat>)
    ensures r.Some? ==> SecureMember(ps, r.value, mac)
    ensures r.Some? ==> forall j :: r.value < j < |ps| ==> !SecureMember(ps, j, mac)
    ensures r.None? ==> forall j :: !SecureMember(ps, j, mac)
    decreases |ps|
  {
    if ps == [] then None
    else if SecureMember(ps, |ps| - 1, mac) then Some(|ps| - 1)
    else
      var r := LastSecureIndex(ps[..|ps| - 1], mac);
      assert forall j :: 0 <= j < |ps| - 1 ==> (SecureMember(ps, j, mac) <==> SecureMember(ps[..|ps| - 1], j, mac));
      r
  }

  /** The target the group of address `mac` ends up with: the last `TCPS:`
      target of the group if it has one, otherwise its first record's target. */
  function MergedTarget(ps: seq<PrinterRecord>, mac: Option<string>): Option<string>
  {
    match LastSecureIndex(ps, mac)
    case Some(i) => ps[i].target
    case None =>
      match FindByMac(ps, mac)
      case Some(i) => ps[i].target
      case None => None
  }

  /** The record reported for the group that `ps[i]` belongs to, when `ps[i]` is its first record. */
  function MergedAt(ps: seq<PrinterRecord>, i: nat): PrinterRecord
    requires i < |ps|
  {
    ps[i].(target := MergedTarget(ps, ps[i].mac))
  }

  /** `d` lists, for the indices `f`, the merged record of each group. */
  predicate Represents(d: seq<PrinterRecord>, ps: seq<PrinterRecord>, f: seq<nat>) {
    |d| == |f| && forall k :: 0 <= k < |d| ==> f[k] < |ps| && d[k] == MergedAt(ps, f[k])
  }

  // -------------------------------------------------------------------------
  // How the reference description changes when one record is appended.

  lemma {:induction false} FindByMacExtend(ps: seq<PrinterRecord>, mac: Option<string>)
    requires |ps| > 0
    ensures FindByMac(ps[..|ps| - 1], mac).Some? ==> FindByMac(ps, mac) == FindByMac(ps[..|ps| - 1], mac)
    ensures FindByMac(ps[..|ps| - 1], mac).None? && ps[|ps| - 1].mac == mac ==> FindByMac(ps, mac) == Some(|ps| - 1)
    ensures FindByMac(ps[..|ps| - 1], mac).None? && ps[|ps| - 1].mac != mac ==> FindByMac(ps, mac).None?
    decreases |ps|
  {
    if |ps| > 1 && ps[0].mac != mac {
      assert ps[..|ps| - 1][1..] == ps[1..][..|ps| - 2];
      FindByMacExtend(ps[1..], mac);
    }
  }

  /** Appending a record leaves the merged record of every other address as it was. */
  lemma MergedAtOtherMac(ps: seq<PrinterRecord>, i: nat)
    requires i < |ps| - 1 && ps[i].mac != ps[|ps| - 1].mac
    ensures MergedAt(ps, i) == MergedAt(ps[..|ps| - 1], i)
  {
    var init, mac := ps[..|ps| - 1], ps[i].mac;
    assert !SecureMember(ps, |ps| - 1, mac);
    assert LastSecureIndex(ps, mac) == LastSecureIndex(init, mac);
    FindByMacExtend(ps, mac);
    assert FindByMac(init, mac).Some? by { assert init[i].mac == mac; }
  }

  /** Appending a record of an address already present updates that group's
      target exactly when the new record is a `TCPS:` one. */
  lemma MergedAtSameMac(ps: seq<PrinterRecord>, i: nat)
    requires i < |ps| - 1 && ps[i].mac == ps[|ps| - 1].mac
    ensures IsSecureTarget(ps[|ps| - 1].target) ==>
      MergedAt(ps, i) == ps[i].(target := ps[|ps| - 1].target)
    ensures !IsSecureTarget(ps[|ps| - 1].target) ==>
      MergedAt(ps, i) == MergedAt(ps[..|ps| - 1], i)
  {
    var init, mac := ps[..|ps| - 1], ps[i].mac;
    if IsSecureTarget(ps[|ps| - 1].target) {
      assert SecureMember(ps, |ps| - 1, mac);
    } else {
      assert !SecureMember(ps, |ps| - 1, mac);
      assert LastSecureIndex(ps, mac) == LastSecureIndex(init, mac);
      FindByMacExtend(ps, mac);
      assert FindByMac(init, mac).Some? by { assert init[i].mac == mac; }
    }
  }

  /** A record with a new address is its group's merged record unchanged. */
  lemma MergedAtNewMac(ps: seq<PrinterRecord>)
    requires |ps| > 0 && FindByMac(ps[..|ps| - 1], ps[|ps| - 1].mac).None?
    ensures MergedAt(ps, |ps| - 1) == ps[|ps| - 1]
  {
    var n, init := |ps| - 1, ps[..|ps| - 1];
    var mac := ps[n].mac;
    FindByMacExtend(ps, mac);
    if !SecureMember(ps, n, mac) {
      var r := LastSecureIndex(ps, mac);
      if r.Some? {
        assert false;
      }
    }
  }

  // -------------------------------------------------------------------------
  // What the de-duplication computes.

  /** Lists with the same addresses position by position have the same address set. */
  lemma MacsPointwise(d: seq<PrinterRecord>, e: seq<PrinterRecord>)
    requires |d| == |e| && forall k :: 0 <= k < |d| ==> d[k].mac == e[k].mac
    ensures Macs(d) == Macs(e)
  {
    forall m | m in Macs(d) ensures m in Macs(e) {
      var k :| 0 <= k < |d| && d[k].mac == m;
      assert e[k] in e;
    }
    forall m | m in Macs(e) ensures m in Macs(d) {
      var k :| 0 <= k < |e| && e[k].mac == m;
      assert d[k] in d;
    }
  }

  /** Merging a record whose address is present at `j` touches at most entry `j`'s target. */
  lemma MergeIntoExisting(d: seq<PrinterRecord>, p: PrinterRecord, j: nat)
    requires FindByMac(d, p.mac) == Some(j)
    ensures |MergeInto(d, p)| == |d|
    ensures forall k :: 0 <= k < |d| && k != j ==> MergeInto(d, p)[k] == d[k]
    ensures MergeInto(d, p)[j] == if IsSecureTarget(p.target) then d[j].(target := p.target) else d[j]
  {
  }

  /** One step of the fold, for a record whose address is already present at
      `j` of the accumulated list `d`: the merged records. */
  lemma MergeExistingRepresents(ps: seq<PrinterRecord>, d: seq<PrinterRecord>, f: seq<nat>, j: nat)
    requires |ps| > 0
    requires Represents(d, ps[..|ps| - 1], f) && UniqueMacs(d)
    requires FindByMac(d, ps[|ps| - 1].mac) == Some(j)
    ensures Represents(MergeInto(d, ps[|ps| - 1]), ps, f)
  {
    var n := |ps| - 1;
    var p := ps[n];
    var d' := MergeInto(d, p);
    MergeIntoExisting(d, p, j);
    forall k | 0 <= k < |d'| ensures d'[k] == MergedAt(ps, f[k]) {
      if k == j {
        MergedAtSameMac(ps, f[k]);
      } else {
        MergedAtOtherMac(ps, f[k]);
      }
    }
  }

  /** Merging a record whose address is present keeps the addresses as they are. */
  lemma MergeIntoExistingMacs(d: seq<PrinterRecord>, p: PrinterRecord, j: nat)
    requires UniqueMacs(d)
    requires FindByMac(d, p.mac) == Some(j)
    ensures UniqueMacs(MergeInto(d, p))
    ensures Macs(MergeInto(d, p)) == Macs(d)
  {
    var e := MergeInto(d, p);
    MergeIntoExisting(d, p, j);
    assert forall k :: 0 <= k < |d| ==> e[k].mac == d[k].mac;
    MacsPointwise(d, e);
  }

  /** One step of the fold, for a record with an address `d` lacks: the
      record is appended as its group's merged record. */
  lemma MergeNewRepresents(ps: seq<PrinterRecord>, d: seq<PrinterRecord>, f: seq<nat>)
    requires |ps| > 0
    requires Represents(d, ps[..|ps| - 1], f) && UniqueMacs(d)
    requires FindByMac(d, ps[|ps| - 1].mac).None?
    requires FindByMac(ps[..|ps| - 1], ps[|ps| - 1].mac).None?
    ensures MergeInto(d, ps[|ps| - 1]) == d + [ps[|ps| - 1]]
    ensures Represents(d + [ps[|ps| - 1]], ps, f + [|ps| - 1])
    ensures UniqueMacs(d + [ps[|ps| - 1]])
  {
    var n := |ps| - 1;
    var p := ps[n];
    var d', f' := d + [p], f + [n];
    forall k | 0 <= k < |d'| ensures d'[k] == MergedAt(ps, f'[k]) {
      if k < |d| {
        MergedAtOtherMac(ps, f[k]);
      } else {
        MergedAtNewMac(ps);
      }
    }
  }

  /** One step of the fold: if `d` describes the records before the last one
      with first indices `f`, then merging the last record into `d` describes
      them all, with the last index added when its address is new. */
  lemma MergeStep(ps: seq<PrinterRecord>, d: seq<PrinterRecord>, f: seq<nat>)
    requires |ps| > 0
    requires Represents(d, ps[..|ps| - 1], f) && UniqueMacs(d) && Macs(d) == Macs(ps[..|ps| - 1])
    ensures var g := if FindByMac(ps[..|ps| - 1], ps[|ps| - 1].mac).Some? then f else f + [|ps| - 1];
      Represents(MergeInto(d, ps[|ps| - 1]), ps, g)
    ensures UniqueMacs(MergeInto(d, ps[|ps| - 1]))
    ensures Macs(MergeInto(d, ps[|ps| - 1])) == Macs(ps)
  {
    var n := |ps| - 1;
    assert ps == ps[..n] + [ps[n]];
    assert Macs(ps) == Macs(ps[..n]) + {ps[n].mac};
    match FindByMac(d, ps[n].mac)
    case Some(j) => MergeStepExisting(ps, d, f, j);
    case None => MergeStepNew(ps, d, f);
  }

  /** `MergeStep` for an address `d` already has, at `j`. */
  lemma MergeStepExisting(ps: seq<PrinterRecord>, d: seq<PrinterRecord>, f: seq<nat>, j: nat)
    requires |ps| > 0
    requires Represents(d, ps[..|ps| - 1], f) && UniqueMacs(d) && Macs(d) == Macs(ps[..|ps| - 1])
    requires FindByMac(d, ps[|ps| - 1].mac) == Some(j)
    requires Macs(ps) == Macs(ps[..|ps| - 1]) + {ps[|ps| - 1].mac}
    ensures FindByMac(ps[..|ps| - 1], ps[|ps| - 1].mac).Some?
    ensures Represents(MergeInto(d, ps[|ps| - 1]), ps, f)
    ensures UniqueMacs(MergeInto(d, ps[|ps| - 1]))
    ensures Macs(MergeInto(d, ps[|ps| - 1])) == Macs(ps)
  {
    var n := |ps| - 1;
    var init, p := ps[..n], ps[n];
    assert init[f[j]].mac == p.mac;
    MergeExistingRepresents(ps, d, f, j);
    MergeIntoExistingMacs(d, p, j);
    assert p.mac in Macs(d) by { assert d[j] in d; }
  }

  /** `MergeStep` for an address `d` does not have. */
  lemma MergeStepNew(ps: seq<PrinterRecord>, d: seq<PrinterRecord>, f: seq<nat>)
    requires |ps| > 0
    requires Represents(d, ps[..|ps| - 1], f) && UniqueMacs(d) && Macs(d) == Macs(ps[..|ps| - 1])
    requires FindByMac(d, ps[|ps| - 1].mac).None?
    requires Macs(ps) == Macs(ps[..|ps| - 1]) + {ps[|ps| - 1].mac}
    ensures FindByMac(ps[..|ps| - 1], ps[|ps| - 1].mac).None?
    ensures Represents(MergeInto(d, ps[|ps| - 1]), ps, f + [|ps| - 1])
    ensures UniqueMacs(MergeInto(d, ps[|ps| - 1]))
    ensures Macs(MergeInto(d, ps[|ps| - 1])) == Macs(ps)
  {
    var n := |ps| - 1;
    var init, p := ps[..n], ps[n];
    assert p.mac !in Macs(d) by {
      forall m | m in Macs(d) ensures m != p.mac {
        var k :| 0 <= k < |d| && d[k].mac == m;
      }
    }
    assert FindByMac(init, p.mac).None?;
    MergeNewRepresents(ps, d, f);
    assert Macs(d + [p]) == Macs(d) + {p.mac};
  }


  /** The result lists the first record of each address, in input order, each
      carrying its group's merged target; the addresses are the input's, each once. */
  lemma {:induction false} DedupShape(ps: seq<PrinterRecord>)
    ensures Represents(Dedup(ps), ps, FirstIndices(ps))
    ensures UniqueMacs(Dedup(ps))
    ensures Macs(Dedup(ps)) == Macs(ps)
    decreases |ps|
  {
    if ps != [] {
      var init := ps[..|ps| - 1];
      DedupShape(init);
      MergeStep(ps, Dedup(init), FirstIndices(init));
    }
  }

  /** After de-duplication no two printers share a MAC address (so all
      records without one collapse into a single entry), and every address of
      the input is still present. */
  lemma DedupUniqueAndComplete(ps: seq<PrinterRecord>)
    ensures UniqueMacs(Dedup(ps))
    ensures Macs(Dedup(ps)) == Macs(ps)
    ensures |Dedup(ps)| <= |ps|
  {
    DedupShape(ps);
  }

  /** Every field but the target is that of the group's first record, and the
      groups appear in the order of their first records. */
  lemma DedupKeepsFirstOccurrences(ps: seq<PrinterRecord>, k: nat)
    requires k < |Dedup(ps)|
    ensures |Dedup(ps)| == |FirstIndices(ps)|
    ensures IsFirstOccurrence(ps, FirstIndices(ps)[k])
    ensures Dedup(ps)[k] == ps[FirstIndices(ps)[k]].(target := Dedup(ps)[k].target)
    ensures forall l :: k < l < |Dedup(ps)| ==> FirstIndices(ps)[k] < FirstIndices(ps)[l]
  {
    DedupShape(ps);
  }

  /** The target of each entry is the last `TCPS:` target of its group if there
      is one, and otherwise the target of the group's first record; so a group
      with any `TCPS:` member is reported with a `TCPS:` target. */
  lemma DedupTarget(ps: seq<PrinterRecord>, k: nat)
    requires k < |Dedup(ps)|
    ensures |FirstIndices(ps)| == |Dedup(ps)|
    ensures var mac := Dedup(ps)[k].mac;
      match LastSecureIndex(ps, mac)
      case Some(i) => Dedup(ps)[k].target == ps[i].target
      case None => Dedup(ps)[k].target == ps[FirstIndices(ps)[k]].target
    ensures (exists j :: SecureMember(ps, j, Dedup(ps)[k].mac)) ==> IsSecureTarget(Dedup(ps)[k].target)
  {
    DedupShape(ps);
    var i := FirstIndices(ps)[k];
    assert FindByMac(ps, ps[i].mac) == Some(i);
  }

  /** A list whose addresses are already distinct is left as it is. */
  lemma {:induction false} DedupOfUnique(ps: seq<PrinterRecord>)
    requires UniqueMacs(ps)
    ensures Dedup(ps) == ps
    decreases |ps|
  {
    if ps != [] {
      var n := |ps| - 1;
      DedupOfUnique(ps[..n]);
      assert FindByMac(ps[..n], ps[n].mac).None?;
      assert ps[..n] + [ps[n]] == ps;
    }
  }

  /** De-duplicating twice is de-duplicating once. */
  lemma DedupIdempotent(ps: seq<PrinterRecord>)
    ensures Dedup(Dedup(ps)) == Dedup(ps)
  {
    DedupShape(ps);
    DedupOfUnique(Dedup(ps));
  }

  /** Two records of one address, exactly one of them with a `TCPS:` target:
      the single merged record carries that target whichever comes first. */
  lemma SecureTargetWinsEitherOrder(a: PrinterRecord, b: PrinterRecord)
    requires a.mac == b.mac && IsSecureTarget(a.target) && !IsSecureTarget(b.target)
    ensures Dedup([a, b]) == [a]
    ensures Dedup([b, a]) == [b.(target := a.target)]
  {
    assert [a][..0] == [] && [b][..0] == [];
    assert Dedup([a]) == [a] && Dedup([b]) == [b];
    assert [a, b][..1] == [a];
    assert [b, a][..1] == [b];
    assert Dedup([a, b]) == MergeInto([a], b);
    assert Dedup([b, a]) == MergeInto([b], a);
  }

  /** The USB/`TCPS:` pair of one address merges into one `TCPS:` entry. */
  lemma UsbAndSecureTcpMerge()
    ensures
      var usb := PrinterRecord(None, Some("USB:001"), None, Some("AA:BB:CC"), None, None, None);
      var tcps := PrinterRecord(None, Some("TCPS:1.2.3.4"), None, Some("AA:BB:CC"), None, None, None);
      Dedup([usb, tcps]) == [usb.(target := Some("TCPS:1.2.3.4"))]
  {
    var usb := PrinterRecord(None, Some("USB:001"), None, Some("AA:BB:CC"), None, None, None);
    var tcps := PrinterRecord(None, Some("TCPS:1.2.3.4"), None, Some("AA:BB:CC"), None, None, None);
    assert IsSecureTarget(tcps.target);
    assert !IsSecureTarget(usb.target) by { assert usb.target.value[3] != SecurePrefix[3]; }
    SecureTargetWinsEitherOrder(tcps, usb);
  }
}
