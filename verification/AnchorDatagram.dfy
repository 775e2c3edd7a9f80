/** The datagram an anchor is published in, read back field by field as the journal cuts its payloads. */
module AnchorDatagram {
  import opened ByteStrings
  import opened Options
  import opened AuditRecord
  import opened AuditAnchors
  import AuditChain
  import AuditRuns
  import JournalFormat
  import Seqs

  /** Every line of a datagram, cut at its first equals sign. */
  ghost function FieldsIn(p: Bytes): (ds: seq<JournalFormat.DataObject>) {
    if p == [] then []
    else
      [JournalFormat.Cut(p[..AuditChain.LineLength(p)])] + FieldsIn(p[AuditChain.NextLine(p)..])
  }

  function AsRead(fs: seq<Field>): (ds: seq<JournalFormat.DataObject>)
    ensures |ds| == |fs|
    ensures forall i :: 0 <= i < |fs| ==> ds[i] == JournalFormat.Field(fs[i].key, fs[i].value)
  {
    seq(|fs|, i requires 0 <= i < |fs| => JournalFormat.Field(fs[i].key, fs[i].value))
  }

  /** A field that stays on its line: neither part holds a line feed, and the key no equals sign. */
  ghost predicate Plain(f: Field) {
    NoNewline(f.key) && NoNewline(f.value) && JournalFormat.EQUALS !in f.key
  }

  function LineFor(f: Field): Bytes { f.key + [JournalFormat.EQUALS] + f.value + [NEWLINE] }

  lemma LineForIsRead(f: Field)
    requires Plain(f)
    ensures FieldsIn(LineFor(f)) == [JournalFormat.Field(f.key, f.value)]
  {
    hide JournalFormat.Cut, AuditChain.LineLength;
    var x := f.key + [JournalFormat.EQUALS] + f.value;
    JournalFormat.CutJoins(f.key, f.value);
    AuditRuns.LineLengthWhole(x);
    assert LineFor(f) == x + [NEWLINE] && (x + [NEWLINE])[..|x|] == x;
    assert LineFor(f)[AuditChain.NextLine(LineFor(f))..] == [];
  }

  lemma {:induction false} FieldsInAppend(a: Bytes, b: Bytes)
    requires a == [] || a[|a| - 1] == NEWLINE
    ensures FieldsIn(a + b) == FieldsIn(a) + FieldsIn(b)
    decreases |a|
  {
    hide JournalFormat.Cut, AuditChain.LineLength;
    if a == [] {
      assert a + b == b && FieldsIn(a) + FieldsIn(b) == FieldsIn(b);
    } else {
      AuditRuns.LineLengthAppend(a, b);
      var n := AuditChain.NextLine(a);
      Seqs.DropOfAppend(a, b, n);
      Seqs.DropOfAppend(a, b, AuditChain.LineLength(a));
      FieldsInAppend(a[n..], b);
      Seqs.Assoc([JournalFormat.Cut(a[..AuditChain.LineLength(a)])], FieldsIn(a[n..]), FieldsIn(b));
    }
  }

  /** A datagram is read back as the fields it was built from. */
  lemma {:induction false} PayloadIsRead(fs: seq<Field>)
    requires forall i :: 0 <= i < |fs| ==> Plain(fs[i])
    ensures FieldsIn(Payload(fs)) == AsRead(fs)
    ensures fs != [] ==> Payload(fs) != [] && Payload(fs)[|Payload(fs)| - 1] == NEWLINE
  {
    hide FieldsIn, Plain;
    if fs == [] {
      NothingIsRead();
    } else {
      var front, f := fs[..|fs| - 1], fs[|fs| - 1];
      PayloadIsRead(front);
      LineForIsRead(f);
      FieldsInAppend(Payload(front), LineFor(f));
      assert Payload(fs) == Payload(front) + LineFor(f);
      assert AsRead(fs) == AsRead(front) + [JournalFormat.Field(f.key, f.value)];
    }
  }

  lemma NothingIsRead()
    ensures FieldsIn(Payload([])) == []
  {
  }

  /** The value under a name, when a datagram has it once. */
  function ValueOf(ds: seq<JournalFormat.DataObject>, name: Bytes): (v: Option<Bytes>)
    decreases |ds|
  {
    if ds == [] then None
    else if ds[0].Field? && ds[0].name == name then Some(ds[0].value)
    else ValueOf(ds[1..], name)
  }

  /** The datagram of any anchor that may be sent carries, under the names a reader of anchors asks for, that
      anchor, and the message id it is filtered by. */
  lemma DatagramIsAnchor(a: Anchor, d: Digest)
    requires a.hash == Hex(d) && AllOk(Fields(a))
    ensures
      var ds := FieldsIn(Payload(Fields(a)));
      var n := ValueOf(ds, Ascii("ADB_BROKER_SEQ"));
      var h := ValueOf(ds, Ascii("ADB_BROKER_HASH"));
      var p := ValueOf(ds, Ascii("ADB_BROKER_LOG"));
      && n.Some? && h.Some? && p.Some? && ToAnchor(n.value, h.value, p.value) == Some(a)
      && ValueOf(ds, Ascii("MESSAGE_ID")) == Some(Ascii("8f3c1d7a5e4b42c9b1d06a2f7c93e5a4"))
      && ValueOf(ds, Ascii("MESSAGE")) == Some(Ascii("adb-broker audit anchor seq=") + n.value)
      && ValueOf(ds, Ascii("PRIORITY")) == Some(Ascii("5"))
      && ValueOf(ds, Ascii("SYSLOG_IDENTIFIER")) == Some(Ascii("adb-broker"))
  {
    hide FieldsIn, Payload, Hex, ToAnchor, Decimal.Nat;
    FieldsArePlain(a);
    PayloadIsRead(Fields(a));
    ToAnchorFields(a, d);
    KeysDiffer(a);
    var ds := AsRead(Fields(a));
    FirstUnder(ds, 0);
    FirstUnder(ds, 1);
    FirstUnder(ds, 2);
    FirstUnder(ds, 3);
    FirstUnder(ds, 4);
    FirstUnder(ds, 5);
    FirstUnder(ds, 6);
  }

  lemma {:induction false} FirstUnder(ds: seq<JournalFormat.DataObject>, i: nat)
    requires i < |ds| && ds[i].Field? && forall j :: 0 <= j < i && ds[j].Field? ==> ds[j].name != ds[i].name
    ensures ValueOf(ds, ds[i].name) == Some(ds[i].value)
    decreases |ds|
  {
    if i > 0 { FirstUnder(ds[1..], i - 1); }
  }

  lemma KeysDiffer(a: Anchor)
    ensures forall i, j :: 0 <= i < j < 7 ==> Fields(a)[i].key != Fields(a)[j].key
  {
    hide Decimal.Nat;
    var fs := Fields(a);
    assert |fs[0].key| == 10 && |fs[1].key| == 7 && |fs[2].key| == 8 && |fs[3].key| == 17 && |fs[4].key| == 14
           && |fs[5].key| == 15 && |fs[6].key| == 14;
    assert fs[4].key[11] == 83 && fs[6].key[11] == 76;
  }

  lemma FieldsArePlain(a: Anchor)
    requires AllOk(Fields(a))
    ensures forall i :: 0 <= i < 7 ==> Plain(Fields(a)[i])
  {
    hide Decimal.Nat;
    forall i | 0 <= i < 7 ensures Plain(Fields(a)[i]) {
      assert ValueOk(Fields(a)[i].value);
    }
  }
}
