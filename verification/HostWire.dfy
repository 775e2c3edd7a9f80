/** The byte form of adb host requests and replies. */
module HostWire {
  import opened ByteStrings
  import opened Options
  import JsonString
  import Seqs

  const MAX_REQUEST := 0xffff

  // ---- Lengths in hexadecimal ----

  /** Four lower-case hexadecimal digits. */
  function Hex4(n: nat): (b: Bytes)
    requires n <= MAX_REQUEST
    ensures |b| == 4
  {
    [JsonString.HexDigit(n / 4096), JsonString.HexDigit(n / 256 % 16), JsonString.HexDigit(n / 16 % 16),
     JsonString.HexDigit(n % 16)]
  }

  function HexNumber(s: Bytes): (n: Option<nat>) {
    if s == [] then Some(0)
    else
      var high :- HexNumber(s[..|s| - 1]);
      var low :- JsonString.AnyHexValue(s[|s| - 1]);
      Some(16 * high + low)
  }

  /** An unsigned hexadecimal number of at most 32 bits, in either case. */
  function ParseHex(s: Bytes): (n: Option<nat>) {
    if s == [] then None
    else
      var n :- HexNumber(s);
      if n < 0x1_0000_0000 then Some(n) else None
  }

  lemma HexDigitValue(n: nat)
    requires n < 16
    ensures JsonString.AnyHexValue(JsonString.HexDigit(n)) == Some(n)
  {
  }

  lemma HexStep(s: Bytes, d: byte)
    ensures HexNumber(s + [d]) ==
      var low := JsonString.AnyHexValue(d);
      if HexNumber(s).Some? && low.Some? then Some(16 * HexNumber(s).value + low.value) else None
  {
    hide JsonString.AnyHexValue;
    assert (s + [d])[..|s|] == s;
  }

  function Pow16(k: nat): (p: nat)
    ensures p > 0
  {
    if k == 0 then 1 else 16 * Pow16(k - 1)
  }

  lemma {:induction false} HexNumberFits(s: Bytes, k: nat)
    ensures HexNumber(s).Some? <==> forall i :: 0 <= i < |s| ==> JsonString.AnyHexValue(s[i]).Some?
    ensures HexNumber(s).Some? ==>
              (HexNumber(s).value < Pow16(k) <==> forall i :: 0 <= i < |s| - k ==> s[i] == 48)
    decreases |s|
  {
    hide JsonString.AnyHexValue;
    if s != [] {
      var front, d := s[..|s| - 1], s[|s| - 1];
      HexNumberFits(front, if k > 0 then k - 1 else 0);
      ZeroDigit(d);
      assert forall i :: 0 <= i < |front| ==> front[i] == s[i];
    }
  }

  lemma ZeroDigit(b: byte)
    ensures JsonString.AnyHexValue(b) == Some(0) <==> b == 48
    ensures JsonString.AnyHexValue(b).Some? ==> JsonString.AnyHexValue(b).value < 16
  {
  }

  /** A number is read exactly from hexadecimal digits in either case, at least one and, leading zeros aside, at
      most eight. */
  lemma ParseHexExactly(s: Bytes)
    ensures ParseHex(s).Some? <==>
              && s != [] && (forall i :: 0 <= i < |s| ==> JsonString.AnyHexValue(s[i]).Some?)
              && forall i :: 0 <= i < |s| - 8 ==> s[i] == 48
  {
    hide HexNumber, JsonString.AnyHexValue;
    HexNumberFits(s, 8);
    assert Pow16(4) == 0x1_0000 && Pow16(8) == 0x1_0000_0000;
  }

  lemma ParseHex4(n: nat)
    requires n <= MAX_REQUEST
    ensures ParseHex(Hex4(n)) == Some(n)
  {
    hide HexNumber, JsonString.AnyHexValue, JsonString.HexDigit;
    var a, b, c, d := JsonString.HexDigit(n / 4096), JsonString.HexDigit(n / 256 % 16),
                      JsonString.HexDigit(n / 16 % 16), JsonString.HexDigit(n % 16);
    HexDigitValue(n / 4096);
    HexDigitValue(n / 256 % 16);
    HexDigitValue(n / 16 % 16);
    HexDigitValue(n % 16);
    HexStep([], a);
    HexStep([a], b);
    HexStep([a, b], c);
    HexStep([a, b, c], d);
    HexOfNothing();
    HexParts(n);
    assert [] + [a] == [a] && [a] + [b] == [a, b] && [a, b] + [c] == [a, b, c] && [a, b, c] + [d] == Hex4(n);
  }

  lemma HexParts(n: nat)
    ensures n == 16 * (16 * (16 * (n / 4096) + n / 256 % 16) + n / 16 % 16) + n % 16
  {
    var q := n / 16;
    var r := q / 16;
    assert n / 256 == r && n / 4096 == r / 16;
  }

  lemma HexOfNothing()
    ensures HexNumber([]) == Some(0)
  {
  }

  // ---- Requests and payloads ----

  function EncodeRequest(service: Bytes): (b: Bytes)
    requires |service| <= MAX_REQUEST
  {
    Hex4(|service|) + service
  }

  /** A request is read as its service by whoever reads a length-prefixed payload. */
  lemma RequestIsRead(service: Bytes, t: Bytes)
    requires |service| <= MAX_REQUEST
    ensures ReadPayload(EncodeRequest(service) + t) == Some((service, 4 + |service|))
  {
    hide Hex4, ParseHex;
    ParseHex4(|service|);
    var s := EncodeRequest(service) + t;
    assert s[..4] == Hex4(|service|) && s[4..4 + |service|] == service;
  }

  function Okay(): Bytes { Ascii("OKAY") }

  function Fail(): Bytes { Ascii("FAIL") }

  /** The four-byte token at the head of a reply: whether it is OKAY rather than FAIL. */
  function ReadStatus(s: Bytes): (r: Option<bool>)
    ensures r.Some? ==> |s| >= 4
  {
    if |s| < 4 then None
    else if s[..4] == Okay() then Some(true)
    else if s[..4] == Fail() then Some(false)
    else None
  }

  /** The length-prefixed payload at the head of `s`, which may be empty, and how much of `s` it took. */
  function ReadPayload(s: Bytes): (r: Option<(Bytes, nat)>)
    ensures r.Some? ==> r.value.1 <= |s|
  {
    if |s| < 4 then None
    else
      var n :- ParseHex(s[..4]);
      if |s| < 4 + n then None else Some((s[4..4 + n], 4 + n))
  }

  function EncodePayload(p: Bytes): (b: Bytes)
    requires |p| <= MAX_REQUEST
  {
    Hex4(|p|) + p
  }

  /** A whole payload is read exactly, whatever follows it. */
  lemma PayloadDelivered(p: Bytes, t: Bytes)
    requires |p| <= MAX_REQUEST
    ensures ReadPayload(EncodePayload(p) + t) == Some((p, |EncodePayload(p)|))
  {
    hide Hex4, ParseHex;
    ParseHex4(|p|);
    var s := EncodePayload(p) + t;
    assert s[..4] == Hex4(|p|) && s[4..4 + |p|] == p;
  }

  /** And one cut short is not read at all. */
  lemma PayloadCut(p: Bytes, k: nat)
    requires |p| <= MAX_REQUEST && k < |EncodePayload(p)|
    ensures ReadPayload(EncodePayload(p)[..k]) == None
  {
    hide Hex4, ParseHex;
    ParseHex4(|p|);
    if k >= 4 { assert EncodePayload(p)[..k][..4] == Hex4(|p|); }
  }

  // ---- Lists in payloads ----

  function IndexOf(s: Bytes, sep: byte): (i: nat)
    ensures i <= |s| && (forall k :: 0 <= k < i ==> s[k] != sep) && (i < |s| ==> s[i] == sep)
  {
    if s == [] || s[0] == sep then 0 else 1 + IndexOf(s[1..], sep)
  }

  /** The parts of `s` between separators that are not empty. */
  function Parts(s: Bytes, sep: byte): (ps: seq<Bytes>)
    decreases |s|
  {
    if s == [] then []
    else
      var i := IndexOf(s, sep);
      (if i == 0 then [] else [s[..i]]) + if i == |s| then [] else Parts(s[i + 1..], sep)
  }

  lemma PartFirst(p: Bytes, rest: Bytes, sep: byte)
    requires sep !in p
    ensures Parts(p + [sep] + rest, sep) == (if p == [] then [] else [p]) + Parts(rest, sep)
  {
    var s := p + [sep] + rest;
    assert forall k :: 0 <= k < |p| ==> s[k] == p[k];
    assert s[|p|] == sep;
    assert IndexOf(s, sep) == |p|;
    assert s[..|p|] == p && s[|p| + 1..] == rest;
  }

  lemma PartWhole(p: Bytes, sep: byte)
    requires sep !in p && p != []
    ensures Parts(p, sep) == [p]
  {
    assert IndexOf(p, sep) == |p| && p[..|p|] == p;
  }

  /** A separator cuts wherever it stands, and what it leaves empty is no part. */
  lemma {:induction false} PartsAt(a: Bytes, b: Bytes, sep: byte)
    ensures Parts(a + [sep] + b, sep) == Parts(a, sep) + Parts(b, sep)
    decreases |a|
  {
    hide Parts;
    var i := IndexOf(a, sep);
    if i == |a| {
      PartFirst(a, b, sep);
      if a == [] { NoParts(sep); } else { PartWhole(a, sep); }
    } else {
      var p, rest := a[..i], a[i + 1..];
      PartsAt(rest, b, sep);
      PartFirst(p, rest, sep);
      PartFirst(p, rest + [sep] + b, sep);
      assert a == p + [sep] + rest && a + [sep] + b == p + [sep] + (rest + [sep] + b);
      Seqs.Assoc(if p == [] then [] else [p], Parts(rest, sep), Parts(b, sep));
    }
  }

  /** One attached device as the server lists it. */
  datatype DeviceEntry = DeviceEntry(serial: Bytes, state: Bytes)

  const TAB: byte := 9

  function DeviceOf(line: Bytes): (d: Option<DeviceEntry>)
    ensures d.Some? ==> d.value.serial != [] && d.value.state != [] && TAB !in d.value.serial
  {
    var i := IndexOf(line, TAB);
    if i == |line| || i == 0 || i + 1 == |line| then None
    else Some(DeviceEntry(line[..i], line[i + 1..]))
  }

  function DevicesOf(lines: seq<Bytes>): (ds: Option<seq<DeviceEntry>>)
    decreases |lines|
  {
    if lines == [] then Some([])
    else
      var d :- DeviceOf(lines[0]);
      var rest :- DevicesOf(lines[1..]);
      Some([d] + rest)
  }

  /** The device list in a payload; one line that is not serial, tab, state refuses it all. */
  function ParseDevices(payload: Bytes): (ds: Option<seq<DeviceEntry>>) {
    DevicesOf(Parts(payload, NEWLINE))
  }

  function PrintDevices(ds: seq<DeviceEntry>): (b: Bytes)
    decreases |ds|
  {
    if ds == [] then []
    else (ds[0].serial + [TAB] + ds[0].state) + [NEWLINE] + PrintDevices(ds[1..])
  }

  predicate Listable(d: DeviceEntry) {
    && d.serial != [] && d.state != [] && TAB !in d.serial && NEWLINE !in d.serial && NEWLINE !in d.state
  }

  lemma DeviceIsRead(d: DeviceEntry)
    requires Listable(d)
    ensures
      var line := d.serial + [TAB] + d.state;
      DeviceOf(line) == Some(d) && NEWLINE !in line && line != []
  {
    var line := d.serial + [TAB] + d.state;
    assert forall k :: 0 <= k < |d.serial| ==> line[k] == d.serial[k];
    assert line[|d.serial|] == TAB;
    assert IndexOf(line, TAB) == |d.serial|;
    assert line[..|d.serial|] == d.serial && line[|d.serial| + 1..] == d.state;
  }

  /** A device list is read back as it was printed, the empty one included. */
  lemma {:induction false} DevicesDelivered(ds: seq<DeviceEntry>)
    requires forall i :: 0 <= i < |ds| ==> Listable(ds[i])
    ensures ParseDevices(PrintDevices(ds)) == Some(ds)
    decreases |ds|
  {
    hide Parts, DeviceOf, Listable;
    if ds == [] {
      NoParts(NEWLINE);
    } else {
      DevicesDelivered(ds[1..]);
      DeviceIsRead(ds[0]);
      var line, rest := ds[0].serial + [TAB] + ds[0].state, PrintDevices(ds[1..]);
      PartFirst(line, rest, NEWLINE);
      assert ([line] + Parts(rest, NEWLINE))[1..] == Parts(rest, NEWLINE);
      assert ds == [ds[0]] + ds[1..];
    }
  }

  /** So is one without a line feed after its last device. */
  lemma DevicesUnended(ds: seq<DeviceEntry>, d: DeviceEntry)
    requires (forall i :: 0 <= i < |ds| ==> Listable(ds[i])) && Listable(d)
    ensures ParseDevices(PrintDevices(ds) + (d.serial + [TAB] + d.state)) == Some(ds + [d])
  {
    hide Parts, DeviceOf, Listable, PrintDevices;
    var line := d.serial + [TAB] + d.state;
    DeviceIsRead(d);
    PartWhole(line, NEWLINE);
    DevicesDelivered(ds);
    DevicesOfOne(line, d);
    PrintedBefore(ds, line);
    DevicesJoin(Parts(PrintDevices(ds), NEWLINE), [line]);
  }

  lemma DevicesOfOne(line: Bytes, d: DeviceEntry)
    requires DeviceOf(line) == Some(d)
    ensures DevicesOf([line]) == Some([d])
  {
    hide DeviceOf;
    assert [line][1..] == [] && DevicesOf([line][1..]) == Some([]) && [d] + [] == [d];
  }

  lemma {:induction false} PrintedBefore(ds: seq<DeviceEntry>, t: Bytes)
    requires forall i :: 0 <= i < |ds| ==> Listable(ds[i])
    ensures Parts(PrintDevices(ds) + t, NEWLINE) == Parts(PrintDevices(ds), NEWLINE) + Parts(t, NEWLINE)
    decreases |ds|
  {
    hide Parts, DeviceOf, Listable;
    if ds == [] {
      NoParts(NEWLINE);
      assert PrintDevices(ds) + t == t;
    } else {
      DeviceIsRead(ds[0]);
      var line, rest := ds[0].serial + [TAB] + ds[0].state, PrintDevices(ds[1..]);
      PrintedBefore(ds[1..], t);
      PartFirst(line, rest, NEWLINE);
      PartFirst(line, rest + t, NEWLINE);
      assert PrintDevices(ds) + t == line + [NEWLINE] + (rest + t);
      Seqs.Assoc([line], Parts(rest, NEWLINE), Parts(t, NEWLINE));
    }
  }

  lemma {:induction false} DevicesJoin(a: seq<Bytes>, b: seq<Bytes>)
    ensures DevicesOf(a + b) ==
            if DevicesOf(a).Some? && DevicesOf(b).Some? then Some(DevicesOf(a).value + DevicesOf(b).value) else None
    decreases |a|
  {
    hide DeviceOf;
    if a == [] {
      assert a + b == b;
      if DevicesOf(b).Some? { Seqs.TakeAll(DevicesOf(b).value); }
    } else {
      assert (a + b)[1..] == a[1..] + b;
      DevicesJoin(a[1..], b);
      if DevicesOf(a).Some? && DevicesOf(b).Some? {
        Seqs.Assoc([DeviceOf(a[0]).value], DevicesOf(a[1..]).value, DevicesOf(b).value);
      }
    }
  }

  /** `line` is a name, a tab and a state. */
  predicate Spells(line: Bytes, d: DeviceEntry) {
    d.serial != [] && d.state != [] && TAB !in d.serial && line == d.serial + [TAB] + d.state
  }

  ghost predicate IsDevice(line: Bytes) { exists d :: Spells(line, d) }

  /** One line that is not a name, a tab and a state refuses the list, and nothing else does. */
  lemma {:induction false} DevicesRefused(lines: seq<Bytes>)
    ensures DevicesOf(lines).Some? <==> forall i :: 0 <= i < |lines| ==> IsDevice(lines[i])
    decreases |lines|
  {
    hide DeviceOf, IsDevice;
    if lines != [] {
      DevicesRefused(lines[1..]);
      LineIsDevice(lines[0]);
      assert forall i :: 0 < i < |lines| ==> lines[i] == lines[1..][i - 1];
      assert forall i :: 0 <= i < |lines[1..]| ==> lines[1..][i] == lines[i + 1];
    }
  }

  lemma LineIsDevice(line: Bytes)
    ensures DeviceOf(line).Some? <==> IsDevice(line)
  {
    if DeviceOf(line).Some? {
      assert Spells(line, DeviceOf(line).value);
    }
    if d :| Spells(line, d) {
      assert forall k :: 0 <= k < |d.serial| ==> line[k] == d.serial[k];
      assert line[|d.serial|] == TAB;
      assert IndexOf(line, TAB) == |d.serial|;
    }
  }

  lemma NoParts(sep: byte)
    ensures Parts([], sep) == []
  {
  }
}
