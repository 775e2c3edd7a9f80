/** What the filter may and may not leave out. */
module JournalFilter {
  import opened ByteStrings
  import opened Options
  import opened JournalFormat
  import opened JournalReader
  import Decimal
  import Seqs

  /** The fields an entry ends with: every readable name, its first value, the only value when the name
      decides; and a count of what could not be read. */
  lemma {:induction false} FieldsHold(ds: seq<DataObject>, got: Fields)
    requires FieldsOf(ds, got).Some?
    ensures
      var r := FieldsOf(ds, got).value;
      && (forall n :: n in got.values ==> n in r.values && r.values[n] == got.values[n])
      && (forall i :: 0 <= i < |ds| && ds[i].Field? ==>
            ds[i].name in r.values && (DecidesMatch(ds[i].name) ==> r.values[ds[i].name] == ds[i].value))
      && (forall n :: n in r.values && n !in got.values ==>
            exists i :: 0 <= i < |ds| && ds[i] == Field(n, r.values[n]))
      && r.compressed >= got.compressed
      && (r.compressed > got.compressed <==> exists i :: 0 <= i < |ds| && ds[i].Compressed?)
    decreases |ds|
  {
    hide DecidesMatch;
    if ds != [] {
      var d, rest := ds[0], ds[1..];
      var g := AddField(got, d).value;
      FieldsHold(rest, g);
      var r := FieldsOf(ds, got).value;
      forall i | 0 <= i < |ds| && ds[i].Field?
        ensures ds[i].name in r.values && (DecidesMatch(ds[i].name) ==> r.values[ds[i].name] == ds[i].value)
      {
        if i > 0 { assert ds[i] == rest[i - 1]; }
      }
      forall n | n in r.values && n !in got.values
        ensures exists i :: 0 <= i < |ds| && ds[i] == Field(n, r.values[n])
      {
        if n in g.values {
          assert ds[0] == Field(n, r.values[n]);
        } else {
          var i :| 0 <= i < |rest| && rest[i] == Field(n, r.values[n]);
          assert ds[i + 1] == rest[i];
        }
      }
      if i :| 0 <= i < |rest| && rest[i].Compressed? { assert ds[i + 1] == rest[i]; }
      if i :| 0 <= i < |ds| && ds[i].Compressed? {
        if i > 0 { assert rest[i - 1] == ds[i]; }
      }
    }
  }

  // ---- What the entry truly says ----

  /** What was logged, object by object: a payload that can be read is as stored, and one that was
      compressed was over 512 bytes long. */
  ghost predicate TrueTo(ds: seq<DataObject>, truths: seq<Bytes>) {
    && |truths| == |ds|
    && forall i :: 0 <= i < |ds| ==>
         if ds[i].Compressed? then |truths[i]| > 512 else ds[i] == Cut(truths[i])
  }

  function Payload(name: Bytes, value: Bytes): Bytes { name + [EQUALS] + value }

  /** Some payload is `name`=`value`, and short enough never to be compressed. */
  ghost predicate SaysBriefly(truths: seq<Bytes>, name: Bytes, value: Bytes) {
    |Payload(name, value)| <= 512 && Payload(name, value) in truths
  }

  /** The entry is one the filter means: its message id in some spelling, its user id, its program. */
  ghost predicate Meant(truths: seq<Bytes>, flt: Filter, id: Bytes, uid: Bytes) {
    && SaysBriefly(truths, MessageID(), id) && NormalizeMessageID(id) == flt.messageID
    && SaysBriefly(truths, Uid(), uid) && Atoi(uid) == Some(flt.uid)
    && Payload(Exe(), flt.exe) in truths
  }

  lemma NamesHoldNoEquals()
    ensures EQUALS !in MessageID() && EQUALS !in Uid() && EQUALS !in Exe()
    ensures MessageID() != Uid() && MessageID() != Exe() && Uid() != Exe()
  {
    assert |MessageID()| == 10 && Uid()[1] == 85 && Exe()[1] == 69;
  }

  /** A payload short enough is read as it was logged. */
  lemma BriefIsRead(ds: seq<DataObject>, truths: seq<Bytes>, name: Bytes, value: Bytes) returns (i: nat)
    requires TrueTo(ds, truths) && SaysBriefly(truths, name, value) && EQUALS !in name
    ensures i < |ds| && ds[i] == Field(name, value)
  {
    hide Cut;
    i :| 0 <= i < |truths| && truths[i] == Payload(name, value);
    CutJoins(name, value);
  }

  /** An entry the filter means is left out exactly when some other program's path could be read under
      its name; otherwise it is returned or the search fails. */
  lemma OmittedOnlyForAnotherExe(seqnumID: Bytes, e: EntryObject, ds: seq<DataObject>, truths: seq<Bytes>,
                                 flt: Filter, id: Bytes, uid: Bytes)
    requires FilterOk(flt) && TrueTo(ds, truths) && Meant(truths, flt, id, uid)
    requires FieldsOf(ds, NO_FIELDS).Some?
    ensures
      var fields := FieldsOf(ds, NO_FIELDS).value;
      && (Decide(seqnumID, e, fields, flt).Passed? <==>
            exists i :: 0 <= i < |ds| && ds[i].Field? && ds[i].name == Exe() && ds[i].value != flt.exe)
  {
    hide NormalizeMessageID, Atoi, FieldsOf, FilterOk, TrueTo, Meant, SaysBriefly, Cut;
    MeantIsRead(ds, truths, flt, id, uid);
    FieldsHold(ds, NO_FIELDS);
    ExeIsRead(ds, flt.exe, FieldsOf(ds, NO_FIELDS).value);
  }

  /** The message id and the user id are read, and the program unless something is compressed. */
  lemma MeantIsRead(ds: seq<DataObject>, truths: seq<Bytes>, flt: Filter, id: Bytes, uid: Bytes)
    requires TrueTo(ds, truths) && Meant(truths, flt, id, uid) && FieldsOf(ds, NO_FIELDS).Some?
    ensures
      var fields := FieldsOf(ds, NO_FIELDS).value;
      && MessageID() in fields.values && fields.values[MessageID()] == id
      && NormalizeMessageID(id) == flt.messageID
      && IntField(fields.values, Uid()) == flt.uid
      && (Exe() !in fields.values ==> fields.compressed > 0)
  {
    hide Cut, NormalizeMessageID, Atoi, FieldsOf, TrueTo;
    NamesHoldNoEquals();
    FieldsHold(ds, NO_FIELDS);
    var fields := FieldsOf(ds, NO_FIELDS).value;
    var i := BriefIsRead(ds, truths, MessageID(), id);
    var j := BriefIsRead(ds, truths, Uid(), uid);
    assert fields.values[ds[i].name] == id && fields.values[ds[j].name] == uid;
    if Exe() !in fields.values {
      ExeIsCompressed(ds, truths, flt.exe, fields);
    }
  }

  lemma ExeIsRead(ds: seq<DataObject>, exe: Bytes, fields: Fields)
    requires forall i :: 0 <= i < |ds| && ds[i].Field? ==>
               ds[i].name in fields.values && (DecidesMatch(ds[i].name) ==> fields.values[ds[i].name] == ds[i].value)
    requires forall n :: n in fields.values ==> exists i :: 0 <= i < |ds| && ds[i] == Field(n, fields.values[n])
    ensures (Exe() in fields.values && fields.values[Exe()] != exe) <==>
              exists i :: 0 <= i < |ds| && ds[i].Field? && ds[i].name == Exe() && ds[i].value != exe
  {
    if Exe() in fields.values && fields.values[Exe()] != exe {
      var i :| 0 <= i < |ds| && ds[i] == Field(Exe(), fields.values[Exe()]);
      assert ds[i].Field? && ds[i].name == Exe() && ds[i].value != exe;
    }
  }

  lemma ExeIsCompressed(ds: seq<DataObject>, truths: seq<Bytes>, exe: Bytes, fields: Fields)
    requires TrueTo(ds, truths) && Payload(Exe(), exe) in truths
    requires forall i :: 0 <= i < |ds| && ds[i].Field? ==> ds[i].name in fields.values
    requires Exe() !in fields.values
    ensures exists i :: 0 <= i < |ds| && ds[i].Compressed?
  {
    hide Cut;
    NamesHoldNoEquals();
    var k :| 0 <= k < |truths| && truths[k] == Payload(Exe(), exe);
    CutJoins(Exe(), exe);
    assert ds[k].Compressed?;
  }

  /** An entry that can be read, whose logged fields are what the filter asks for and whose readable
      objects name no other program, is returned or makes the search fail; never "no match". */
  lemma NeverSilentlyOmitted(f: JournalFile, off: nat, flt: Filter, truths: seq<Bytes>, id: Bytes, uid: Bytes)
    requires FilterOk(flt) && ReadObject(f, off, ENTRY, MAX_ENTRY).Whole?
    requires
      var e := EntryOf(ReadObject(f, off, ENTRY, MAX_ENTRY).bytes, f.hdr.Compact());
      e.Some? && DataAll(f, e.value.dataOffsets).Some? ==>
        var ds := DataAll(f, e.value.dataOffsets).value;
        && TrueTo(ds, truths) && Meant(truths, flt, id, uid)
        && forall i :: 0 <= i < |ds| && ds[i].Field? && ds[i].name == Exe() ==> ds[i].value == flt.exe
    ensures !MatchAt(f, off, flt).1.Passed?
  {
    hide ReadObject, EntryOf, DataAll, FieldsOf, Decide, FilterOk, TrueTo, Meant;
    var e := EntryOf(ReadObject(f, off, ENTRY, MAX_ENTRY).bytes, f.hdr.Compact());
    if e.Some? && DataAll(f, e.value.dataOffsets).Some? {
      var ds := DataAll(f, e.value.dataOffsets).value;
      if FieldsOf(ds, NO_FIELDS).Some? {
        OmittedOnlyForAnotherExe(f.hdr.seqnumID, e.value, ds, truths, flt, id, uid);
      }
    }
  }

  /** Nothing is returned unless the entry carries the message id, the user id and the program asked
      for, and every readable object under those names agrees. */
  lemma MatchedIsMeant(f: JournalFile, off: nat, flt: Filter)
    requires FilterOk(flt) && MatchAt(f, off, flt).1.Matched?
    ensures
      var (e, v) := MatchAt(f, off, flt);
      var ds := DataAll(f, e.dataOffsets);
      && ds.Some? && v.entry.uid == flt.uid && v.entry.exe == flt.exe && v.entry.realtimeUsec == e.realtime
      && (exists i :: 0 <= i < |ds.value| && ds.value[i].Field? && ds.value[i].name == MessageID())
      && (exists i :: 0 <= i < |ds.value| && ds.value[i].Field? && ds.value[i].name == Uid())
      && (exists i :: 0 <= i < |ds.value| && ds.value[i] == Field(Exe(), flt.exe))
      && forall i :: 0 <= i < |ds.value| && ds.value[i].Field? ==>
           && (ds.value[i].name == MessageID() ==> NormalizeMessageID(ds.value[i].value) == flt.messageID)
           && (ds.value[i].name == Uid() ==> Atoi(ds.value[i].value) == Some(flt.uid))
           && (ds.value[i].name == Exe() ==> ds.value[i].value == flt.exe)
  {
    hide ReadObject, EntryOf, DataAll, FieldsOf, Atoi, NormalizeMessageID;
    var (e, v) := MatchAt(f, off, flt);
    var ds := DataAll(f, e.dataOffsets).value;
    FieldsHold(ds, NO_FIELDS);
    NormalizeEmpty();
    var m := FieldsOf(ds, NO_FIELDS).value.values;
    assert MessageID() in m && Uid() in m && Exe() in m;
  }

  lemma NormalizeEmpty()
    ensures NormalizeMessageID([]) == []
  {
  }

  /** An entry that a filter for a long path means, and that also names another program: the path it
      was logged under was stored compressed, the other as it is. */
  lemma TwoPrograms(flt: Filter, other: Bytes) returns (ds: seq<DataObject>, truths: seq<Bytes>)
    requires FilterOk(flt) && flt.uid < TWO63 && other != flt.exe && |flt.exe| > 507
    ensures TrueTo(ds, truths) && Meant(truths, flt, flt.messageID, Decimal.Int(flt.uid))
    ensures FieldsOf(ds, NO_FIELDS).Some?
    ensures forall seqnumID, e :: Decide(seqnumID, e, FieldsOf(ds, NO_FIELDS).value, flt).Passed?
  {
    hide Cut, Atoi, NormalizeMessageID, Decide;
    var uid := Decimal.Int(flt.uid);
    ds := [Field(MessageID(), flt.messageID), Field(Uid(), uid), Field(Exe(), other), Compressed(Zstd)];
    truths := [Payload(MessageID(), flt.messageID), Payload(Uid(), uid), Payload(Exe(), other),
               Payload(Exe(), flt.exe)];
    NamesHoldNoEquals();
    CutJoins(MessageID(), flt.messageID);
    CutJoins(Uid(), uid);
    CutJoins(Exe(), other);
    AtoiReadsDecimal(flt.uid);
    PlainNormalizes(flt.messageID);
    ShortDecimal(flt.uid);
    DistinctFieldsKept(flt.messageID, uid, other);
    forall seqnumID, e ensures Decide(seqnumID, e, FieldsOf(ds, NO_FIELDS).value, flt).Passed? {
      assert ds[2].Field? && ds[2].name == Exe() && ds[2].value != flt.exe;
      OmittedOnlyForAnotherExe(seqnumID, e, ds, truths, flt, flt.messageID, uid);
    }
  }

  /** A search for such an entry comes to "no match". */
  lemma MeantButOmitted() returns (ds: seq<DataObject>, truths: seq<Bytes>, flt: Filter)
    ensures FilterOk(flt) && TrueTo(ds, truths) && Meant(truths, flt, flt.messageID, Decimal.Int(flt.uid))
    ensures FieldsOf(ds, NO_FIELDS).Some?
    ensures forall seqnumID, e :: Decide(seqnumID, e, FieldsOf(ds, NO_FIELDS).value, flt).Passed?
  {
    flt := Filter(seq(32, _ => 48), 0, [47] + seq(600, _ => 97));
    ds, truths := TwoPrograms(flt, [47]);
  }

  lemma PlainNormalizes(id: Bytes)
    requires IsMessageID(id)
    ensures NormalizeMessageID(id) == id
  {
    hide NormalizeMessageID;
    EverySpellingNormalizes(id, _ => 0, _ => false);
    NoDashes(id);
  }

  lemma {:induction false} NoDashes(id: Bytes)
    ensures Spelled(id, _ => 0, _ => false) == id
    decreases |id|
  {
    if id != [] { NoDashes(id[..|id| - 1]); }
  }

  lemma ShortDecimal(n: nat)
    requires n < TWO63
    ensures |Decimal.Int(n)| <= 20
  {
    hide Decimal.Nat, Decimal.Pow10;
    Decimal.Pow10Of20();
    Decimal.NatWidth(n, 20);
  }

  lemma DistinctFieldsKept(id: Bytes, uid: Bytes, exe: Bytes)
    ensures FieldsOf([Field(MessageID(), id), Field(Uid(), uid), Field(Exe(), exe), Compressed(Zstd)], NO_FIELDS).Some?
  {
    NamesHoldNoEquals();
    var a, b, c, z := Field(MessageID(), id), Field(Uid(), uid), Field(Exe(), exe), Compressed(Zstd);
    hide MessageID, Uid, Exe;
    var one := AddField(NO_FIELDS, a).value;
    var two := AddField(one, b).value;
    var three := AddField(two, c).value;
    var four := AddField(three, z).value;
    assert [a, b, c, z][1..] == [b, c, z] && [b, c, z][1..] == [c, z] && [c, z][1..] == [z] && [z][1..] == [];
    assert FieldsOf([z], three) == FieldsOf([], four) == Some(four);
    assert FieldsOf([c, z], two) == Some(four) && FieldsOf([b, c, z], one) == Some(four);
  }

  // ---- What a match carries ----

  /** The value of the first readable object under a name. */
  function FirstValue(ds: seq<DataObject>, name: Bytes): (v: Option<Bytes>)
    decreases |ds|
  {
    if ds == [] then None
    else if ds[0].Field? && ds[0].name == name then Some(ds[0].value)
    else FirstValue(ds[1..], name)
  }

  lemma {:induction false} FieldsAreFirst(ds: seq<DataObject>, got: Fields, name: Bytes)
    requires FieldsOf(ds, got).Some?
    ensures
      var m := FieldsOf(ds, got).value.values;
      if name in got.values then name in m && m[name] == got.values[name]
      else (name in m <==> FirstValue(ds, name).Some?) && (name in m ==> FirstValue(ds, name) == Some(m[name]))
    decreases |ds|
  {
    hide DecidesMatch;
    if ds != [] { FieldsAreFirst(ds[1..], AddField(got, ds[0]).value, name); }
  }

  /** A stamp as a number, or -1 when it is absent or not one. */
  function Stamp(ds: seq<DataObject>, name: Bytes): (n: int) {
    match FirstValue(ds, name)
    case None => -1
    case Some(s) => if Atoi(s).Some? then Atoi(s).value else -1
  }

  /** Each part of a match is what the entry logged first under the name that part is stamped with. */
  lemma MatchedCarries(f: JournalFile, off: nat, flt: Filter)
    requires MatchAt(f, off, flt).1.Matched?
    ensures
      var (e, v) := MatchAt(f, off, flt);
      DataAll(f, e.dataOffsets).Some? &&
      var ds := DataAll(f, e.dataOffsets).value;
      && v.entry.gid == Stamp(ds, Ascii("_GID")) && v.entry.pid == Stamp(ds, Ascii("_PID"))
      && v.entry.loginUid == Stamp(ds, Ascii("_AUDIT_LOGINUID"))
      && v.entry.comm == (match FirstValue(ds, Ascii("_COMM")) case None => [] case Some(c) => c)
      && v.entry.cursor == Cursor(f.hdr.seqnumID, e.seqnum, e.bootID, e.monotonic, e.realtime, e.xorHash)
      && forall n :: (n in v.entry.fields <==> FirstValue(ds, n).Some?)
                     && (n in v.entry.fields ==> FirstValue(ds, n) == Some(v.entry.fields[n]))
  {
    hide ReadObject, EntryOf, DataAll, FieldsOf, Atoi, NormalizeMessageID, FirstValue;
    var (e, v) := MatchAt(f, off, flt);
    var ds := DataAll(f, e.dataOffsets).value;
    forall n
      ensures (n in v.entry.fields <==> FirstValue(ds, n).Some?)
              && (n in v.entry.fields ==> FirstValue(ds, n) == Some(v.entry.fields[n]))
    {
      FieldsAreFirst(ds, NO_FIELDS, n);
    }
  }

  // ---- Spellings ----

  /** A user id spelled in decimal is read as itself. */
  lemma AtoiReadsDecimal(n: int)
    requires -TWO63 <= n < TWO63
    ensures Atoi(Decimal.Int(n)) == Some(n)
  {
    hide Decimal.Value;
    var m := if n < 0 then -n else n;
    Decimal.ValueNat(m);
    var s := Decimal.Nat(m);
    assert Decimal.IsDigit(s[0]);
    if n < 0 { assert Decimal.Int(n)[1..] == s; }
  }

  /** `s` spells `n` in decimal: a sign if any, any zeros, and the digits of its size. */
  ghost predicate Spells(s: Bytes, sign: Bytes, z: nat, n: int) {
    && (sign == [] || sign == Ascii("+") || sign == Ascii("-"))
    && s == sign + Decimal.Zeros(z) + Decimal.Nat(if n < 0 then -n else n)
    && (n != 0 ==> (n < 0 <==> sign == Ascii("-")))
  }

  lemma AtoiSpells(s: Bytes) returns (sign: Bytes, z: nat)
    requires Atoi(s).Some?
    ensures Spells(s, sign, z, Atoi(s).value)
  {
    hide Decimal.Value, Decimal.Nat, Decimal.Zeros, Decimal.AllDigits;
    var signed := s[0] == 43 || s[0] == 45;
    var digits := if signed then s[1..] else s;
    z := Decimal.DigitsSpell(digits);
    sign := if signed then [s[0]] else [];
    assert s == sign + digits;
  }

  lemma SpelledIsRead(s: Bytes, sign: Bytes, z: nat, n: int)
    requires Spells(s, sign, z, n) && -TWO63 <= n < TWO63
    ensures Atoi(s) == Some(n)
  {
    hide Decimal.Value, Decimal.Nat, Decimal.Zeros, Decimal.AllDigits;
    var size := if n < 0 then -n else n;
    Decimal.DigitsSpelled(z, size);
    Seqs.AppendParts(sign, Decimal.Zeros(z) + Decimal.Nat(size));
    assert s == sign + (Decimal.Zeros(z) + Decimal.Nat(size));
  }

  /** A value is read as `n` exactly when it spells a 64-bit number and that is `n`: nothing else, the empty value
      included, is read as a number at all. */
  lemma AtoiExactly(s: Bytes, n: int)
    ensures Atoi(s) == Some(n) <==> -TWO63 <= n < TWO63 && exists sign, z :: Spells(s, sign, z, n)
  {
    hide Spells;
    if Atoi(s) == Some(n) {
      var sign, z := AtoiSpells(s);
      AtoiFits(s);
    }
    if -TWO63 <= n < TWO63 {
      if sign, z :| Spells(s, sign, z, n) { SpelledIsRead(s, sign, z, n); }
    }
  }

  lemma AtoiFits(s: Bytes)
    ensures Atoi(s).Some? ==> -TWO63 <= Atoi(s).value < TWO63
  {
  }

  function Upper(b: byte): byte { if 97 <= b <= 122 then b - 32 else b }

  function Dashes(n: nat): (s: Bytes) { seq(n, _ => 45) }

  /** `id` with `dashes(i)` dashes after its first `i` characters and any of its letters in upper
      case. */
  function Spelled(id: Bytes, dashes: nat -> nat, upper: nat -> bool): (s: Bytes)
    decreases |id|
  {
    if id == [] then Dashes(dashes(0))
    else
      var n := |id| - 1;
      Spelled(id[..n], dashes, upper) + [if upper(n) then Upper(id[n]) else id[n]] + Dashes(dashes(n + 1))
  }

  lemma {:induction false} NormalizeJoins(a: Bytes, b: Bytes)
    ensures NormalizeMessageID(a + b) == NormalizeMessageID(a) + NormalizeMessageID(b)
    decreases |a|
  {
    if a == [] {
      assert a + b == b;
    } else {
      assert (a + b)[1..] == a[1..] + b;
      NormalizeJoins(a[1..], b);
    }
  }

  lemma NormalizeOne(b: byte)
    requires LowerHex(b)
    ensures NormalizeMessageID([b]) == [b] == NormalizeMessageID([Upper(b)])
  {
    assert [b][1..] == [] && [Upper(b)][1..] == [];
  }

  lemma {:induction false} NormalizeDashes(n: nat)
    ensures NormalizeMessageID(Dashes(n)) == []
  {
    if n > 0 {
      assert Dashes(n)[1..] == Dashes(n - 1);
      NormalizeDashes(n - 1);
    }
  }

  /** Every spelling of a message id, dashed anywhere and in either case, is recognised as that id. */
  lemma {:induction false} EverySpellingNormalizes(id: Bytes, dashes: nat -> nat, upper: nat -> bool)
    requires forall i :: 0 <= i < |id| ==> LowerHex(id[i])
    ensures NormalizeMessageID(Spelled(id, dashes, upper)) == id
    decreases |id|
  {
    hide NormalizeMessageID, LowerHex, Upper;
    NormalizeDashes(dashes(|id|));
    if id != [] {
      var n := |id| - 1;
      EverySpellingNormalizes(id[..n], dashes, upper);
      NormalizeOne(id[n]);
      var front, last := Spelled(id[..n], dashes, upper), [if upper(n) then Upper(id[n]) else id[n]];
      NormalizeJoins(front + last, Dashes(dashes(|id|)));
      NormalizeJoins(front, last);
    }
  }

  lemma {:induction false} SpelledAlike(id: Bytes, d: nat -> nat, u: nat -> bool, d': nat -> nat, u': nat -> bool)
    requires forall k: nat :: k <= |id| ==> d(k) == d'(k)
    requires forall k: nat :: k < |id| ==> u(k) == u'(k)
    ensures Spelled(id, d, u) == Spelled(id, d', u')
    decreases |id|
  {
    hide Upper, Dashes;
    if id != [] { SpelledAlike(id[..|id| - 1], d, u, d', u'); }
  }

  /** Whatever is recognised as a message id spells it. */
  lemma {:induction false} NormalizedIsSpelled(s: Bytes) returns (dashes: nat -> nat, upper: nat -> bool)
    requires forall i :: 0 <= i < |NormalizeMessageID(s)| ==> LowerHex(NormalizeMessageID(s)[i])
    ensures s == Spelled(NormalizeMessageID(s), dashes, upper)
    decreases |s|
  {
    hide NormalizeMessageID, LowerHex, Spelled, Upper, Lower;
    dashes, upper := _ => 0, _ => false;
    NothingSpelled(dashes, upper);
    if s != [] {
      var front, b := s[..|s| - 1], s[|s| - 1];
      assert s == front + [b];
      NormalizeJoins(front, [b]);
      NormalizeByte(b);
      var id := NormalizeMessageID(front);
      assert forall i :: 0 <= i < |id| ==> NormalizeMessageID(s)[i] == id[i];
      var d, u := NormalizedIsSpelled(front);
      var n := |id|;
      if b == 45 {
        dashes, upper := (k: nat) => if k == n then d(n) + 1 else d(k), u;
        Seqs.TakeAll(id);
        OneMoreDash(id, d, u, dashes);
      } else {
        dashes := (k: nat) => if k == n + 1 then 0 else d(k);
        upper := (k: nat) => if k == n then b != Lower(b) else u(k);
        assert LowerHex((id + [Lower(b)])[n]);
        UpperOfLower(b);
        SpelledAlike(id, d, u, dashes, upper);
        OneMoreByte(id, Lower(b), dashes, upper);
      }
    }
  }

  lemma NothingSpelled(d: nat -> nat, u: nat -> bool)
    requires d(0) == 0
    ensures NormalizeMessageID([]) == [] == Spelled([], d, u)
  {
  }

  lemma NormalizeByte(b: byte)
    ensures NormalizeMessageID([b]) == if b == 45 then [] else [Lower(b)]
  {
    assert [b][1..] == [];
  }

  lemma UpperOfLower(b: byte)
    requires LowerHex(Lower(b))
    ensures b == if b != Lower(b) then Upper(Lower(b)) else Lower(b)
  {
  }

  /** A spelling without its last dashes. */
  function Stem(id: Bytes, d: nat -> nat, u: nat -> bool): (s: Bytes) {
    if id == [] then []
    else Spelled(id[..|id| - 1], d, u) + [if u(|id| - 1) then Upper(id[|id| - 1]) else id[|id| - 1]]
  }

  lemma SpelledEnds(id: Bytes, d: nat -> nat, u: nat -> bool)
    ensures Spelled(id, d, u) == Stem(id, d, u) + Dashes(d(|id|))
  {
    hide Upper, Dashes;
  }

  lemma StemAlike(id: Bytes, d: nat -> nat, u: nat -> bool, d': nat -> nat)
    requires forall k: nat :: k < |id| ==> d'(k) == d(k)
    ensures Stem(id, d', u) == Stem(id, d, u)
  {
    hide Upper, Dashes;
    if id != [] { SpelledAlike(id[..|id| - 1], d, u, d', u); }
  }

  lemma OneMoreDash(id: Bytes, d: nat -> nat, u: nat -> bool, d': nat -> nat)
    requires (forall k: nat :: k < |id| ==> d'(k) == d(k)) && d'(|id|) == d(|id|) + 1
    ensures Spelled(id, d', u) == Spelled(id, d, u) + [45]
  {
    StemAlike(id, d, u, d');
    SpelledEnds(id, d, u);
    SpelledEnds(id, d', u);
    DashMore(d(|id|));
    hide Spelled, Stem, Dashes;
    Seqs.Assoc(Stem(id, d, u), Dashes(d(|id|)), [45]);
  }

  lemma DashMore(n: nat)
    ensures Dashes(n + 1) == Dashes(n) + [45] && Dashes(0) == []
  {
  }

  lemma OneMoreByte(id: Bytes, b: byte, d: nat -> nat, u: nat -> bool)
    requires d(|id| + 1) == 0
    ensures Spelled(id + [b], d, u) == Spelled(id, d, u) + [if u(|id|) then Upper(b) else b]
  {
    DashMore(0);
    SpelledEnds(id + [b], d, u);
    assert (id + [b])[..|id|] == id;
    hide Upper, Dashes, Spelled;
    Seqs.TakeAll(Stem(id + [b], d, u));
  }

  /** A value is recognised as a message id exactly when it spells it: dashed anywhere, in either case, and in no
      other way. */
  lemma NormalizesExactly(s: Bytes, id: Bytes)
    requires forall i :: 0 <= i < |id| ==> LowerHex(id[i])
    ensures NormalizeMessageID(s) == id <==> exists dashes, upper :: Spelled(id, dashes, upper) == s
  {
    hide NormalizeMessageID, LowerHex, Spelled;
    if NormalizeMessageID(s) == id { var dashes, upper := NormalizedIsSpelled(s); }
    if dashes, upper :| Spelled(id, dashes, upper) == s { EverySpellingNormalizes(id, dashes, upper); }
  }
}
