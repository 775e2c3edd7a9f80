/** The verdict on an entry, told from the data objects it names and nothing that reads them one by one. */
module JournalVerdict {
  import opened ByteStrings
  import opened Options
  import opened JournalFormat
  import opened JournalReader
  import opened JournalFilter

  // ---- The verdict from the objects ----

  /** Every value readable under `name` is the one value. */
  predicate HasOne(ds: seq<DataObject>, name: Bytes) {
    forall i :: 0 <= i < |ds| && ds[i].Field? && ds[i].name == name ==> Some(ds[i].value) == FirstValue(ds, name)
  }

  /** Each name with its first readable value. */
  function FirstFields(ds: seq<DataObject>): (m: map<Bytes, Bytes>)
    decreases |ds|
  {
    if ds == [] then map[]
    else if ds[0].Field? then FirstFields(ds[1..])[ds[0].name := ds[0].value]
    else FirstFields(ds[1..])
  }

  predicate SomethingCompressed(ds: seq<DataObject>) {
    exists i :: 0 <= i < |ds| && ds[i].Compressed?
  }

  /** The bytes first readable under `name`, none at all when there are none. */
  function Said(ds: seq<DataObject>, name: string): (v: Bytes) {
    match FirstValue(ds, Ascii(name)) case None => [] case Some(v) => v
  }

  /** What a match carries. */
  function EntryFor(seqnumID: Bytes, e: EntryObject, ds: seq<DataObject>, flt: Filter): (x: Entry)
    requires e.realtime < TWO63
  {
    Entry(FirstFields(ds), flt.uid, Stamp(ds, Ascii("_GID")), Stamp(ds, Ascii("_PID")), Said(ds, "_COMM"), flt.exe,
          Stamp(ds, Ascii("_AUDIT_LOGINUID")), e.realtime,
          Cursor(seqnumID, e.seqnum, e.bootID, e.monotonic, e.realtime, e.xorHash))
  }

  /** What an entry comes to whose objects could all be read: a failure when a name that decides has two values;
      no match when the message id or the user id is not the one asked for; when no program is readable, a
      failure if something is compressed and else no match; no match when the program is another; a failure
      when the time does not fit; and a match in every other case, whatever else is compressed. */
  function Judge(seqnumID: Bytes, e: EntryObject, ds: seq<DataObject>, flt: Filter): (v: Verdict) {
    if !HasOne(ds, Ascii("MESSAGE_ID")) || !HasOne(ds, Ascii("_UID")) || !HasOne(ds, Ascii("_EXE")) then
      Failed(CorruptFile)
    else if NormalizeMessageID(Said(ds, "MESSAGE_ID")) != flt.messageID || Stamp(ds, Ascii("_UID")) != flt.uid then
      Passed
    else
      match FirstValue(ds, Ascii("_EXE"))
      case None => if SomethingCompressed(ds) then Failed(CompressedField) else Passed
      case Some(exe) =>
        if exe != flt.exe then Passed
        else if e.realtime >= TWO63 then Failed(CorruptFile)
        else Matched(EntryFor(seqnumID, e, ds, flt))
  }

  // ---- The reading comes to it ----

  /** What stands under a name once `got` was collected: that, or else what comes first. */
  function Held(got: Fields, ds: seq<DataObject>, name: Bytes): Option<Bytes> {
    if name in got.values then Some(got.values[name]) else FirstValue(ds, name)
  }

  predicate AllHeld(got: Fields, ds: seq<DataObject>, name: Bytes) {
    forall i :: 0 <= i < |ds| && ds[i].Field? && ds[i].name == name ==> Some(ds[i].value) == Held(got, ds, name)
  }

  lemma AllHeldStep(got: Fields, ds: seq<DataObject>, name: Bytes)
    requires ds != [] && AddField(got, ds[0]).Some?
    ensures DecidesMatch(name) ==>
              (AllHeld(got, ds, name) <==> AllHeld(AddField(got, ds[0]).value, ds[1..], name))
  {
    hide DecidesMatch;
    var rest, g := ds[1..], AddField(got, ds[0]).value;
    if DecidesMatch(name) {
      assert Held(got, ds, name) == Held(g, rest, name)
             || !(exists i :: 0 <= i < |ds| && ds[i].Field? && ds[i].name == name);
      if AllHeld(got, ds, name) {
        forall i | 0 <= i < |rest| && rest[i].Field? && rest[i].name == name
          ensures Some(rest[i].value) == Held(g, rest, name)
        {
          assert ds[i + 1] == rest[i];
        }
      }
      if AllHeld(g, rest, name) {
        forall i | 0 <= i < |ds| && ds[i].Field? && ds[i].name == name
          ensures Some(ds[i].value) == Held(got, ds, name)
        {
          if i > 0 { assert rest[i - 1] == ds[i]; }
        }
      }
    }
  }

  lemma {:induction false} FieldsAgree(ds: seq<DataObject>, got: Fields)
    ensures FieldsOf(ds, got).Some? <==> forall name :: DecidesMatch(name) ==> AllHeld(got, ds, name)
    decreases |ds|
  {
    hide DecidesMatch;
    if ds != [] {
      var g := AddField(got, ds[0]);
      if g.Some? {
        FieldsAgree(ds[1..], g.value);
        forall name | DecidesMatch(name) ensures AllHeld(got, ds, name) <==> AllHeld(g.value, ds[1..], name) {
          AllHeldStep(got, ds, name);
        }
      } else {
        assert !AllHeld(got, ds, ds[0].name);
      }
    }
  }

  lemma {:induction false} FieldsAreThose(ds: seq<DataObject>, got: Fields)
    requires FieldsOf(ds, got).Some?
    ensures FieldsOf(ds, got).value.values == FirstFields(ds) + got.values
    decreases |ds|
  {
    hide DecidesMatch;
    if ds != [] { FieldsAreThose(ds[1..], AddField(got, ds[0]).value); }
  }

  lemma {:induction false} FirstFieldsHold(ds: seq<DataObject>, name: Bytes)
    ensures name in FirstFields(ds) <==> FirstValue(ds, name).Some?
    ensures name in FirstFields(ds) ==> FirstValue(ds, name) == Some(FirstFields(ds)[name])
    decreases |ds|
  {
    if ds != [] { FirstFieldsHold(ds[1..], name); }
  }

  lemma DecidersAre(name: Bytes)
    ensures DecidesMatch(name) <==> name == Ascii("MESSAGE_ID") || name == Ascii("_UID") || name == Ascii("_EXE")
  {
  }

  /** Collecting the fields of an entry's objects and deciding on them is judging the objects. */
  lemma DecidedIsJudged(seqnumID: Bytes, e: EntryObject, ds: seq<DataObject>, flt: Filter)
    ensures
      Judge(seqnumID, e, ds, flt) ==
      match FieldsOf(ds, NO_FIELDS)
      case None => Failed(CorruptFile)
      case Some(fields) => Decide(seqnumID, e, fields, flt)
  {
    hide FieldsOf, Atoi, NormalizeMessageID, FirstValue, FirstFields, Ascii, DecidesMatch;
    FieldsAgree(ds, NO_FIELDS);
    DecidersAre(Ascii("MESSAGE_ID"));
    DecidersAre(Ascii("_UID"));
    DecidersAre(Ascii("_EXE"));
    if FieldsOf(ds, NO_FIELDS).Some? {
      FieldsAreThose(ds, NO_FIELDS);
      FieldsHold(ds, NO_FIELDS);
      var m := FieldsOf(ds, NO_FIELDS).value.values;
      assert m == FirstFields(ds);
      forall n ensures n in m <==> FirstValue(ds, n).Some?
        ensures n in m ==> FirstValue(ds, n) == Some(m[n])
      {
        FirstFieldsHold(ds, n);
      }
    } else {
      assert exists name :: DecidesMatch(name) && !AllHeld(NO_FIELDS, ds, name);
      forall name
        ensures DecidesMatch(name) <==> name == Ascii("MESSAGE_ID") || name == Ascii("_UID") || name == Ascii("_EXE")
      {
        DecidersAre(name);
      }
    }
  }

  // ---- An entry of a file ----

  /** No data object that can be read stands at `off`. */
  predicate Unread(f: JournalFile, off: nat) {
    var o := ReadObject(f, off, 1, 0x100_0000);
    !o.Whole? || DataOf(o.bytes, f.hdr.Compact()).None?
  }

  lemma {:induction false} AllAreRead(f: JournalFile, offs: seq<nat>)
    ensures DataAll(f, offs).Some? <==> forall i :: 0 <= i < |offs| ==> !Unread(f, offs[i])
    ensures DataAll(f, offs).Some? ==>
              forall i :: 0 <= i < |offs| ==> Some(DataAll(f, offs).value[i]) == DataAt(f, offs[i])
    decreases |offs|
  {
    hide ReadObject, DataOf;
    if offs != [] {
      AllAreRead(f, offs[1..]);
      assert forall i :: 0 < i < |offs| ==> offs[i] == offs[1..][i - 1];
    }
  }

  /** The verdict on an entry in a file: no match when it is linked but not yet wholly written; a failure when it,
      or an object it names, is not what a journal holds there; and else the judgement of its objects. */
  lemma VerdictIs(f: JournalFile, off: nat, flt: Filter)
    ensures
      var v := MatchAt(f, off, flt).1;
      match ReadObject(f, off, 3, 0x10_0000)
      case Truncated => v == Passed
      case Corrupt => v == Failed(CorruptFile)
      case Whole(b) =>
        var e := EntryOf(b, f.hdr.Compact());
        if e.None? || (exists i :: 0 <= i < |e.value.dataOffsets| && Unread(f, e.value.dataOffsets[i])) then
          v == Failed(CorruptFile)
        else
          DataAll(f, e.value.dataOffsets).Some?
          && v == Judge(f.hdr.seqnumID, e.value, DataAll(f, e.value.dataOffsets).value, flt)
  {
    hide ReadObject, EntryOf, DataAll, FieldsOf, Decide, Judge, DataOf;
    var o := ReadObject(f, off, ENTRY, MAX_ENTRY);
    if o.Whole? && EntryOf(o.bytes, f.hdr.Compact()).Some? {
      var e := EntryOf(o.bytes, f.hdr.Compact()).value;
      AllAreRead(f, e.dataOffsets);
      if DataAll(f, e.dataOffsets).Some? {
        DecidedIsJudged(f.hdr.seqnumID, e, DataAll(f, e.dataOffsets).value, flt);
      }
    }
  }

  /** The three names that decide each have one value, and it is the one asked for. */
  predicate Answers(ds: seq<DataObject>, flt: Filter) {
    && HasOne(ds, Ascii("MESSAGE_ID")) && HasOne(ds, Ascii("_UID")) && HasOne(ds, Ascii("_EXE"))
    && NormalizeMessageID(Said(ds, "MESSAGE_ID")) == flt.messageID
    && Stamp(ds, Ascii("_UID")) == flt.uid && FirstValue(ds, Ascii("_EXE")) == Some(flt.exe)
  }

  /** An entry whose objects all read and answer the filter is returned whenever its time fits, whatever else is
      compressed; and nothing else is returned. */
  lemma ReturnedExactly(f: JournalFile, off: nat, flt: Filter, e: EntryObject, ds: seq<DataObject>)
    requires ReadObject(f, off, ENTRY, MAX_ENTRY).Whole? && DataAll(f, e.dataOffsets) == Some(ds)
    requires EntryOf(ReadObject(f, off, ENTRY, MAX_ENTRY).bytes, f.hdr.Compact()) == Some(e)
    ensures MatchAt(f, off, flt).1.Matched? <==> Answers(ds, flt) && e.realtime < TWO63
    ensures MatchAt(f, off, flt).1.Matched? ==>
              MatchAt(f, off, flt).1 == Matched(EntryFor(f.hdr.seqnumID, e, ds, flt))
  {
    hide ReadObject, EntryOf, DataAt, DataAll, MatchAt, HasOne, EntryFor, Said, Stamp, FirstValue, NormalizeMessageID;
    VerdictIs(f, off, flt);
    AllAreRead(f, e.dataOffsets);
  }

  /** The search fails on such an entry exactly when a name that decides has two values; or when the message id and
      the user id are those asked for and no program is readable beside something compressed, or the program is
      the one asked for and the time does not fit. */
  lemma FailsExactly(f: JournalFile, off: nat, flt: Filter, e: EntryObject, ds: seq<DataObject>)
    requires ReadObject(f, off, ENTRY, MAX_ENTRY).Whole? && DataAll(f, e.dataOffsets) == Some(ds)
    requires EntryOf(ReadObject(f, off, ENTRY, MAX_ENTRY).bytes, f.hdr.Compact()) == Some(e)
    ensures
      var one := HasOne(ds, Ascii("MESSAGE_ID")) && HasOne(ds, Ascii("_UID")) && HasOne(ds, Ascii("_EXE"));
      var named := NormalizeMessageID(Said(ds, "MESSAGE_ID")) == flt.messageID && Stamp(ds, Ascii("_UID")) == flt.uid;
      MatchAt(f, off, flt).1.Failed? <==>
        || !one
        || (named && FirstValue(ds, Ascii("_EXE")).None? && SomethingCompressed(ds))
        || (Answers(ds, flt) && e.realtime >= TWO63)
  {
    hide ReadObject, EntryOf, DataAt, DataAll, MatchAt, HasOne, EntryFor, Said, Stamp, FirstValue, NormalizeMessageID;
    VerdictIs(f, off, flt);
    AllAreRead(f, e.dataOffsets);
  }
}
