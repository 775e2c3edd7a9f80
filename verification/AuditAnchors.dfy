/** Anchors: what the broker publishes about its log, and what verify concludes from them. */
module AuditAnchors {
  import opened ByteStrings
  import opened Options
  import opened AuditRecord
  import opened AuditChain
  import Decimal
  import JsonString

  // ---- Publishing ----

  /** A claim that the log at `logPath` had `seq_` records and head `hash`. */
  datatype Anchor = Anchor(seq_: uint64, hash: Bytes, logPath: Bytes)

  datatype Field = Field(key: Bytes, value: Bytes)

  const MAX_FIELD_BYTES := 256

  /** The entry's fields, in the order they are sent. */
  function Fields(a: Anchor): (fs: seq<Field>) {
    [ Field(Ascii("MESSAGE_ID"), Ascii("8f3c1d7a5e4b42c9b1d06a2f7c93e5a4")),
      Field(Ascii("MESSAGE"), Ascii("adb-broker audit anchor seq=") + Decimal.Nat(a.seq_)),
      Field(Ascii("PRIORITY"), Ascii("5")),
      Field(Ascii("SYSLOG_IDENTIFIER"), Ascii("adb-broker")),
      Field(Ascii("ADB_BROKER_SEQ"), Decimal.Nat(a.seq_)),
      Field(Ascii("ADB_BROKER_HASH"), a.hash),
      Field(Ascii("ADB_BROKER_LOG"), a.logPath) ]
  }

  /** A value the journal reader can read back: short, and on one line. */
  predicate ValueOk(v: Bytes) {
    |v| <= MAX_FIELD_BYTES && forall i :: 0 <= i < |v| ==> v[i] != NEWLINE && v[i] != 0
  }

  ghost predicate AllOk(fs: seq<Field>) {
    forall i :: 0 <= i < |fs| ==> ValueOk(fs[i].value)
  }

  ghost function Payload(fs: seq<Field>): (p: Bytes) {
    if fs == [] then []
    else Payload(fs[..|fs| - 1]) + fs[|fs| - 1].key + [61] + fs[|fs| - 1].value + [NEWLINE]
  }

  /** The datagram for `a`, or nothing when some value must not be sent. */
  method EncodeAnchor(a: Anchor) returns (p: Option<Bytes>)
    ensures p.Some? <==> AllOk(Fields(a))
    ensures p.Some? ==> p.value == Payload(Fields(a))
  {
    hide Fields, ValueOk;
    var fs := Fields(a);
    var payload: Bytes := [];
    for k := 0 to |fs|
      invariant payload == Payload(fs[..k])
      invariant forall i :: 0 <= i < k ==> ValueOk(fs[i].value)
    {
      if !ValueOk(fs[k].value) { return None; }
      assert fs[..k + 1][..k] == fs[..k];
      payload := payload + fs[k].key + [61] + fs[k].value + [NEWLINE];
    }
    assert fs[..|fs|] == fs;
    return Some(payload);
  }

  /** Whether the tail of a log can ever be anchored is decided by its path alone. */
  lemma SendableByPath(a: Anchor, d: Digest)
    requires a.hash == Hex(d)
    ensures AllOk(Fields(a)) <==> ValueOk(a.logPath)
  {
    Decimal.Pow10Of20();
    Decimal.NatWidth(a.seq_, 20);
    HexIsHex(d);
    hide Hex, Decimal.Pow10;
    assert Fields(a)[6].value == a.logPath;
  }

  /** A chain hash as anchors carry it: 64 lower-case hex characters. */
  predicate IsChainHash(s: Bytes) {
    |s| == 64 && forall i :: 0 <= i < |s| ==> JsonString.HexValue(s[i]).Some?
  }

  lemma {:induction false} HexIsHex(d: Bytes)
    ensures forall i :: 0 <= i < |Hex(d)| ==> JsonString.HexValue(Hex(d)[i]).Some?
  {
    if d != [] { HexIsHex(d[1..]); }
  }

  /** A plain decimal that fits 64 bits. */
  function ParseUint(s: Bytes): (n: Option<uint64>) {
    if s == [] || !Decimal.AllDigits(s) || Decimal.Value(s) >= TWO64 then None
    else Some(Decimal.Value(s))
  }

  /** Reads an anchor back from an entry's fields. */
  function ToAnchor(seqText: Bytes, hash: Bytes, logPath: Bytes): (a: Option<Anchor>) {
    var n :- ParseUint(seqText);
    if IsChainHash(hash) then Some(Anchor(n, hash, logPath)) else None
  }

  /** A published anchor is read back as it was meant. */
  lemma ToAnchorFields(a: Anchor, d: Digest)
    requires a.hash == Hex(d)
    ensures ToAnchor(Fields(a)[4].value, Fields(a)[5].value, Fields(a)[6].value) == Some(a)
  {
    Decimal.ValueNat(a.seq_);
    HexIsHex(d);
    hide Hex;
  }

  /** Fields are read as an anchor exactly when they spell one: a decimal number of 64 bits, leading zeros allowed
      and a sign not, and 64 lower-case hex digits. */
  lemma ToAnchorExactly(seqText: Bytes, hash: Bytes, logPath: Bytes, a: Anchor)
    ensures ToAnchor(seqText, hash, logPath) == Some(a) <==>
              && a.hash == hash && a.logPath == logPath && |hash| == 64
              && (forall i :: 0 <= i < 64 ==> hash[i] in Ascii("0123456789abcdef"))
              && exists z :: seqText == Decimal.Zeros(z) + Decimal.Nat(a.seq_)
  {
    hide Decimal.Value, Decimal.Nat, Decimal.Zeros, Decimal.AllDigits;
    forall b: byte ensures JsonString.HexValue(b).Some? <==> b in Ascii("0123456789abcdef") { HexValueIs(b); }
    hide JsonString.HexValue;
    if ParseUint(seqText) == Some(a.seq_) { var z := Decimal.DigitsSpell(seqText); }
    if z :| seqText == Decimal.Zeros(z) + Decimal.Nat(a.seq_) { Decimal.DigitsSpelled(z, a.seq_); }
  }

  lemma HexValueIs(b: byte)
    ensures JsonString.HexValue(b).Some? <==> b in Ascii("0123456789abcdef")
  {
    var digits := Ascii("0123456789abcdef");
    if JsonString.HexValue(b).Some? {
      JsonString.HexDigitIs(JsonString.HexValue(b).value);
      assert digits[JsonString.HexValue(b).value] == b;
    }
    if b in digits {
      var n :| 0 <= n < |digits| && digits[n] == b;
      JsonString.HexDigitIs(n);
    }
  }

  // ---- Verifying ----

  datatype Finding = ChainFails | Unanchored | Truncated | Altered | Behind | Matches

  /** The hex head of a log with no records. */
  function EmptyChainHead(): (s: Bytes)
    ensures s == Hex(ZeroDigest())
  {
    HexOfZeros(32);
    seq(64, _ => 48)
  }

  lemma {:induction false} HexOfZeros(n: nat)
    ensures Hex(seq(n, _ => 0 as byte)) == seq(2 * n, _ => 48)
  {
    if n > 0 {
      assert seq(n, _ => 0 as byte)[1..] == seq(n - 1, _ => 0 as byte);
      HexOfZeros(n - 1);
    }
  }

  /** The anchor with the highest sequence number, the first of equals. */
  function Newest(anchors: seq<Anchor>): (a: Anchor)
    requires anchors != []
    ensures a in anchors && forall b :: b in anchors ==> b.seq_ <= a.seq_
  {
    if |anchors| == 1 then anchors[0]
    else
      var m := Newest(anchors[..|anchors| - 1]);
      var l := anchors[|anchors| - 1];
      assert anchors == anchors[..|anchors| - 1] + [l];
      if l.seq_ > m.seq_ then l else m
  }

  lemma {:induction false} NewestIsFirst(anchors: seq<Anchor>) returns (i: nat)
    requires anchors != []
    ensures i < |anchors| && anchors[i] == Newest(anchors)
    ensures forall j :: 0 <= j < i ==> anchors[j].seq_ < anchors[i].seq_
  {
    i := |anchors| - 1;
    if i > 0 {
      var front := anchors[..i];
      var k := NewestIsFirst(front);
      if anchors[i].seq_ <= Newest(front).seq_ {
        i := k;
      } else {
        forall j | 0 <= j < i ensures anchors[j].seq_ < anchors[i].seq_ {
          assert anchors[j] == front[j] && front[j] in front;
        }
      }
    }
  }

  /** What verify concludes from a verdict on the file and the anchors that name it. */
  function Conclude(v: Verdict, anchors: seq<Anchor>): Finding {
    match v
    case Diverges(_, _, _) => ChainFails
    case Unreadable(_) => ChainFails
    case Clean(sum) =>
      if anchors == [] then Unanchored
      else
        var newest := Newest(anchors);
        var head := if sum.records == 0 then EmptyChainHead() else sum.lastHash;
        if newest.seq_ > sum.lastSeq then Truncated
        else if newest.seq_ == sum.lastSeq && newest.hash != head then Altered
        else if newest.seq_ < sum.lastSeq then Behind
        else Matches
  }
}
