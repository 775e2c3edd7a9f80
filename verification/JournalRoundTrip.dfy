/** Reading a built file gives back what it was built from, whichever layout it is in. */
module JournalRoundTrip {
  import opened ByteStrings
  import opened Options
  import opened LittleEndian
  import opened JournalFormat
  import opened JournalReader
  import opened JournalWalk
  import opened JournalLayout
  import opened JournalBuilder
  import opened JournalVerdict
  import Seqs

  function FileOf(b: Builder): JournalFile
    requires WellFormed(b)
  {
    JournalFile(Build(b), HeaderOf(b), |Build(b)|)
  }

  lemma BuildLength(b: Builder)
    requires WellFormed(b)
    ensures |Build(b)| == End(b)
  {
    hide Header, Objects, Body, Sizes, Start;
    SizesMatch(b);
    BodyLength(Objects(b), Sizes(b));
  }

  lemma CompactIsDeclared(b: Builder)
    ensures HeaderOf(b).Compact() == b.compact
  {
    hide PlanArrays, Start, Sizes, FirstArray, Count, End;
    var c := if b.compact then 1 else 0;
    var m := c + 2 * b.extra.unknown;
    var low := FlagWord(b) - 16 * m;
    assert 0 <= low < 16;
    FlagBit(low, c, b.extra.unknown);
  }

  lemma FlagBit(low: nat, c: nat, u: nat)
    requires low < 16 && c < 2
    ensures (low + 16 * (c + 2 * u)) / 16 % 2 == c
  {
    var m := c + 2 * u;
    assert (low + 16 * m) / 16 == m;
  }

  lemma FirstArrayIsBelow(b: Builder)
    ensures FirstArray(b) <= End(b)
  {
    hide PlanArrays, Start, Sizes;
    if b.entries != [] { StartsBelow(Sizes(b), |PreSizes(b)|); }
  }

  /** A built file opens exactly when it declares no incompatible flag that is not known. */
  lemma Opens(b: Builder)
    requires WellFormed(b) && Fits(b)
    ensures OpenFile(Build(b)) == if b.extra.unknown == 0 then Some(FileOf(b)) else None
  {
    hide ParseFileHeader, HeaderOf, Header, Body, Objects, Start, Sizes, FirstArray;
    BuildLength(b);
    FirstArrayIsBelow(b);
    var data := Build(b);
    var n := Min(MAX_HEADER, |data|);
    HeadOfData(Header(b), Body(Objects(b)), n);
    HeaderIsRead(b, Body(Objects(b))[..n - HEADER_SIZE]);
    HeaderFields(b);
  }

  lemma HeaderFields(b: Builder)
    ensures HeaderOf(b).headerSize == HEADER_SIZE && HeaderOf(b).arenaSize == End(b) - HEADER_SIZE
  {
    hide Start, Sizes, FirstArray, FlagWord;
  }

  lemma HeadOfData(h: Bytes, t: Bytes, n: nat)
    requires |h| <= n <= |h| + |t|
    ensures (h + t)[..n] == h + t[..n - |h|]
  {
  }

  /** An object of the file, read where it was put. */
  lemma ObjectIsRead(b: Builder, i: nat, typ: byte, flags: byte, rest: Bytes, max: nat)
    requires WellFormed(b) && i < |Objects(b)| && typ != UNUSED
    requires
      var o := Objects(b)[i];
      o == PutObjectHeader(typ, flags, |o|) + rest && |o| <= max < TWO64
    ensures i < |Sizes(b)| && ReadObject(FileOf(b), Start(Sizes(b), i), typ, max) == Whole(Objects(b)[i])
  {
    hide Objects, Sizes, Header, Body, Start, PutObjectHeader, ParseObjectHeader, FlagWord, FirstArray, Count;
    SizesMatch(b);
    var o := Objects(b)[i];
    ObjectAtStart(Header(b), Objects(b), Sizes(b), i);
    ObjectHeaderIsRead(typ, flags, |o|, rest);
    HeaderFields(b);
    var at := Start(Sizes(b), i);
    SliceOfSlice(Build(b), at, |o|, OBJECT_HEADER);
  }

  lemma SliceOfSlice(data: Bytes, at: nat, n: nat, k: nat)
    requires at + n <= |data| && k <= n
    ensures data[at..at + k] == data[at..at + n][..k]
  {
  }

  // ---- What is read there ----

  lemma DataReads(b: Builder, j: nat)
    requires WellFormed(b) && Fits(b) && j < |PlanData(b)|
    ensures
      var x := PlanData(b)[j];
      DataAt(FileOf(b), DataStart(b, j)) == Some(if x.compressed then Compressed(Zstd) else Cut(x.payload))
  {
    hide Objects, Sizes, Start, FileOf, ReadObject, DataOf, Cut, PlanData, DataStart;
    DataPlace(b, j);
    var x := PlanData(b)[j];
    var entry, n := DataParts(b, j);
    DataIsRead(x.payload, x.compressed, entry, n, b.compact);
    var rest := EncodedDataRest(x.payload, x.compressed, entry, n, b.compact);
    DataIsSmall(b, j);
    ObjectIsRead(b, 2 + j, DATA, if x.compressed then ZSTD else 0, rest, MAX_DATA);
    FileIsCompact(b);
  }

  lemma FileIsCompact(b: Builder)
    requires WellFormed(b)
    ensures FileOf(b).hdr.Compact() == b.compact
  {
    hide Build;
    CompactIsDeclared(b);
  }

  lemma DataIsSmall(b: Builder, j: nat)
    requires Fits(b) && j < |PlanData(b)|
    ensures |DataObjectAt(b, j)| <= MAX_DATA
  {
    hide PlanData, DataObjectAt, DataSizes;
    assert DataSizes(b)[j] <= MAX_DATA;
  }

  lemma DataParts(b: Builder, j: nat) returns (entry: nat, n: nat)
    requires j < |PlanData(b)|
    ensures
      var x := PlanData(b)[j];
      DataObjectAt(b, j) == EncodeData(x.payload, x.compressed, entry, n, b.compact)
  {
    hide PlanData, EncodeData, EntryStart, AllPairs, DataSizes;
    var x := PlanData(b)[j];
    PlannedIsPair(b, x);
    entry := EntryStart(b, FirstEntry(b.entries, x));
    n := multiset(AllPairs(b.entries))[x];
  }

  lemma EncodedDataRest(payload: Bytes, compressed: bool, entry: nat, n: nat, compact: bool) returns (rest: Bytes)
    ensures
      var o := EncodeData(payload, compressed, entry, n, compact);
      o == PutObjectHeader(DATA, if compressed then ZSTD else 0, |o|) + rest
  {
    hide Put, PutObjectHeader;
    var h := PutObjectHeader(DATA, if compressed then ZSTD else 0, PayloadOffset(compact) + |payload|);
    var o := EncodeData(payload, compressed, entry, n, compact);
    rest := o[OBJECT_HEADER..];
    assert o[..OBJECT_HEADER] == h;
  }

  lemma EncodedEntryRest(e: EntryObject, compact: bool) returns (rest: Bytes)
    requires |e.bootID| == 16
    ensures
      var o := EncodeEntry(e, compact);
      o == PutObjectHeader(ENTRY, 0, |o|) + rest
  {
    hide Put, PutObjectHeader, PutItems;
    var o := EncodeEntry(e, compact);
    rest := o[OBJECT_HEADER..];
    assert o[..OBJECT_HEADER] == PutObjectHeader(ENTRY, 0, |o|);
  }

  lemma EncodedArrayRest(next: nat, items: seq<nat>, compact: bool) returns (rest: Bytes)
    ensures
      var o := EncodeArray(next, items, compact);
      o == PutObjectHeader(ENTRY_ARRAY, 0, |o|) + rest
  {
    hide Put, PutObjectHeader, PutItems;
    var o := EncodeArray(next, items, compact);
    rest := o[OBJECT_HEADER..];
    assert o[..OBJECT_HEADER] == PutObjectHeader(ENTRY_ARRAY, 0, |o|);
  }

  /** Every start before the end can be named at the layout's width. */
  lemma StartIsNarrow(b: Builder, i: nat)
    requires WellFormed(b) && Fits(b) && i < |Sizes(b)|
    ensures Narrow(Start(Sizes(b), i), b.compact) && 0 < Start(Sizes(b), i) < TWO64
  {
    hide Sizes, Start, Objects;
    SizesMatch(b);
    AllSized(b);
    StartsGrow(Sizes(b), i, |Sizes(b)|);
  }

  lemma AllSized(b: Builder)
    ensures forall k :: 0 <= k < |Sizes(b)| ==> Sizes(b)[k] > 0
  {
    hide PlanData, PlanArrays, ArrayItems;
  }

  lemma EntryReads(b: Builder, i: nat)
    requires WellFormed(b) && Fits(b) && i < |b.entries|
    ensures ReadObject(FileOf(b), EntryStart(b, i), ENTRY, MAX_ENTRY).Whole?
    ensures
      var o := ReadObject(FileOf(b), EntryStart(b, i), ENTRY, MAX_ENTRY).bytes;
      EntryOf(o, FileOf(b).hdr.Compact()) == Some(EntryObjectAt(b, i))
  {
    hide Objects, Sizes, Start, FileOf, ReadObject, EntryOf, EncodeEntry, EntryObjectAt, EntryStart, PlanData,
         EntryFits;
    EntryPlace(b, i);
    var e := EntryObjectAt(b, i);
    EntryHasFits(b, i);
    EntryIsRead(e, b.compact);
    EntryIsSmall(b, i);
    var rest := EncodedEntryRest(e, b.compact);
    ObjectIsRead(b, 2 + |PlanData(b)| + i, ENTRY, 0, rest, MAX_ENTRY);
    FileIsCompact(b);
  }

  lemma EntryIsSmall(b: Builder, i: nat)
    requires WellFormed(b) && Fits(b) && i < |b.entries|
    ensures |EntryObjectAt(b, i).bootID| == 16
    ensures |EncodeEntry(EntryObjectAt(b, i), b.compact)| <= MAX_ENTRY
  {
    hide EncodeEntry, FieldStart, PlanData, DataSizes, ArraySizes, End;
    assert EntrySizes(b)[i] <= MAX_ENTRY;
    assert WellFormedEntry(b.entries[i]);
  }

  lemma EntryHasFits(b: Builder, i: nat)
    requires WellFormed(b) && Fits(b) && i < |b.entries|
    ensures EntryFits(EntryObjectAt(b, i), b.compact)
  {
    hide Fits, FieldStart, PlanData, Narrow;
    var e := EntryObjectAt(b, i);
    assert WellFormedEntry(b.entries[i]);
    forall q | 0 <= q < |e.dataOffsets| ensures Narrow(e.dataOffsets[q], b.compact) && e.dataOffsets[q] != 0 {
      var j := FieldData(b, i, q);
      DataPlace(b, j);
      StartIsNarrow(b, 2 + j);
    }
  }

  /** Which data object a field is in. */
  lemma FieldData(b: Builder, i: nat, q: nat) returns (j: nat)
    requires i < |b.entries| && q < |b.entries[i].fields|
    ensures j < |PlanData(b)| && PlanData(b)[j] == PairOf(b.entries[i].fields[q])
    ensures FieldStart(b, i, q) == DataStart(b, j)
  {
    hide PlanData, DataStart, PairOf;
    PairIsPlanned(b.entries, i, q);
    PlannedIsPair(b, PairOf(b.entries[i].fields[q]));
    j := IndexOf(PlanData(b), PairOf(b.entries[i].fields[q]));
  }

  /** How a field reads: not at all if it was marked compressed. */
  function View(f: TestField): DataObject {
    if f.compressed then Compressed(Zstd) else Field(f.name, f.value)
  }

  function Views(fs: seq<TestField>): (ds: seq<DataObject>)
    ensures |ds| == |fs|
    decreases |fs|
  {
    if fs == [] then [] else [View(fs[0])] + Views(fs[1..])
  }

  lemma FieldReads(b: Builder, i: nat, q: nat)
    requires WellFormed(b) && Fits(b) && i < |b.entries| && q < |b.entries[i].fields|
    ensures DataAt(FileOf(b), FieldStart(b, i, q)) == Some(View(b.entries[i].fields[q]))
  {
    hide FileOf, Fits, DataAt, PlanData, DataStart, FieldStart, Cut;
    var j := FieldData(b, i, q);
    DataReads(b, j);
    var f := b.entries[i].fields[q];
    assert WellFormedEntry(b.entries[i]);
    CutJoins(f.name, f.value);
  }

  lemma {:induction false} AllFieldsRead(b: Builder, i: nat, q: nat)
    requires WellFormed(b) && Fits(b) && i < |b.entries| && q <= |b.entries[i].fields|
    ensures DataAll(FileOf(b), EntryObjectAt(b, i).dataOffsets[q..]) == Some(Views(b.entries[i].fields[q..]))
    decreases |b.entries[i].fields| - q
  {
    hide FileOf, Fits, WellFormed, DataAt, FieldStart, View;
    var fs, offs := b.entries[i].fields, EntryObjectAt(b, i).dataOffsets;
    if q < |fs| {
      FieldReads(b, i, q);
      AllFieldsRead(b, i, q + 1);
      assert offs[q..][1..] == offs[q + 1..] && fs[q..][1..] == fs[q + 1..];
    }
  }

  /** What an entry should come to, from what it was built with. */
  function Expected(seqnumID: Bytes, e: TestEntry, flt: Filter): (v: Verdict) {
    Judge(seqnumID, EntryObject(e.seqnum, e.realtime, e.monotonic, e.xorHash, e.bootID, []), Views(e.fields), flt)
  }

  lemma OffsetsDoNotCount(seqnumID: Bytes, e: EntryObject, ds: seq<DataObject>, flt: Filter)
    ensures Judge(seqnumID, e, ds, flt) == Judge(seqnumID, e.(dataOffsets := []), ds, flt)
  {
    hide HasOne, Said, FirstFields, NormalizeMessageID, SomethingCompressed;
  }

  lemma EntryMatches(b: Builder, i: nat, flt: Filter)
    requires WellFormed(b) && Fits(b) && i < |b.entries|
    ensures MatchAt(FileOf(b), EntryStart(b, i), flt)
            == (EntryObjectAt(b, i), Expected(b.ids.seqnum, b.entries[i], flt))
  {
    hide ReadObject, EntryOf, DataAll, FieldsOf, Decide, Judge, Fits, WellFormed, Views, EntryStart, Build, FieldStart;
    EntryReads(b, i);
    AllFieldsRead(b, i, 0);
    var e := EntryObjectAt(b, i);
    Seqs.TakeAll(e.dataOffsets);
    assert e.dataOffsets[0..] == e.dataOffsets && b.entries[i].fields[0..] == b.entries[i].fields;
    var ds := Views(b.entries[i].fields);
    DecidedIsJudged(b.ids.seqnum, e, ds, flt);
    OffsetsDoNotCount(b.ids.seqnum, e, ds, flt);
  }

  // ---- The chain of arrays ----

  lemma ArrayReads(b: Builder, k: nat)
    requires WellFormed(b) && Fits(b) && k < |PlanArrays(b)|
    ensures ArrayAt(FileOf(b), ArrayStart(b, k)).0.Whole?
    ensures ArrayAt(FileOf(b), ArrayStart(b, k)).1 == Some(EntryArray(ArrayNext(b, k), ArrayItems(b, k)))
  {
    hide Objects, Sizes, Start, FileOf, ReadObject, ArrayOf, EncodeArray, ArrayItems, ArrayStart, PlanArrays, PlanData,
         ArrayNext, Narrow;
    ArrayPlace(b, k);
    var next, items := ArrayNext(b, k), ArrayItems(b, k);
    ArrayIsNarrow(b, k);
    ArrayIsRead(next, items, b.compact);
    var rest := EncodedArrayRest(next, items, b.compact);
    ArrayIsSmall(b, k);
    ObjectIsRead(b, |PreSizes(b)| + k, ENTRY_ARRAY, 0, rest, MAX_ARRAY);
    FileIsCompact(b);
  }

  lemma ArrayIsSmall(b: Builder, k: nat)
    requires Fits(b) && k < |PlanArrays(b)|
    ensures |EncodeArray(ArrayNext(b, k), ArrayItems(b, k), b.compact)| <= MAX_ARRAY
  {
    hide EncodeArray, ArrayItems, ArrayNext, PlanArrays, DataSizes, EntrySizes, End;
    assert ArraySizes(b)[k] <= MAX_ARRAY;
  }

  lemma {:induction false} ChunkIsPart(offs: seq<nat>, n: nat, k: nat)
    requires n > 0 && k < |Chunks(offs, n)|
    ensures forall x :: x in Chunks(offs, n)[k] ==> x in offs
    decreases |offs|
  {
    if |offs| > n && k > 0 {
      ChunkIsPart(offs[n..], n, k - 1);
      assert Chunks(offs, n)[k] == Chunks(offs[n..], n)[k - 1];
    }
  }

  lemma ArrayIsNarrow(b: Builder, k: nat)
    requires WellFormed(b) && Fits(b) && k < |PlanArrays(b)|
    ensures ArrayNext(b, k) < TWO64
    ensures forall i :: 0 <= i < |ArrayItems(b, k)| ==> Narrow(ArrayItems(b, k)[i], b.compact)
  {
    hide Fits, WellFormed, Start, Sizes, PlanArrays, Narrow;
    if k + 1 < |PlanArrays(b)| {
      StartIsNarrow(b, |PreSizes(b)| + k + 1);
    }
    var items := ArrayItems(b, k);
    forall i | 0 <= i < |items| ensures Narrow(items[i], b.compact) {
      if i < |PlanArrays(b)[k]| {
        assert items[i] in PlanArrays(b)[k];
        ListedIsNarrow(b, k, items[i]);
      } else {
        ZeroIsNarrow(b.compact);
      }
    }
  }

  lemma ZeroIsNarrow(compact: bool)
    ensures Narrow(0, compact)
  {
  }

  lemma ListedIsNarrow(b: Builder, k: nat, off: nat)
    requires WellFormed(b) && Fits(b) && k < |PlanArrays(b)| && off in PlanArrays(b)[k]
    ensures Narrow(off, b.compact)
  {
    hide Fits, WellFormed, Start, Sizes, Chunks, EntryStart, PlanData, Narrow;
    var offs := EntryStarts(b);
    ChunkIsPart(offs, if b.arrayChunk > 0 then b.arrayChunk else |offs|, k);
    var j :| 0 <= j < |offs| && offs[j] == off;
    EntryPlace(b, j);
    StartIsNarrow(b, 2 + |PlanData(b)| + j);
  }

  /** The arrays from `k` on, as the reader should meet them. */
  function LinksFrom(b: Builder, k: nat): (links: seq<Link>)
    requires k <= |PlanArrays(b)|
    ensures |links| == |PlanArrays(b)| - k
    decreases |PlanArrays(b)| - k
  {
    if k == |PlanArrays(b)| then []
    else [Link(ArrayStart(b, k), EntryArray(ArrayNext(b, k), ArrayItems(b, k)))] + LinksFrom(b, k + 1)
  }

  function ArrayStartOrEnd(b: Builder, k: nat): nat
    requires k <= |PlanArrays(b)|
  {
    if k < |PlanArrays(b)| then ArrayStart(b, k) else 0
  }

  lemma {:induction false} LinksAreChained(b: Builder, k: nat)
    requires WellFormed(b) && Fits(b) && k <= |PlanArrays(b)|
    ensures Chained(FileOf(b), ArrayStartOrEnd(b, k), LinksFrom(b, k))
    ensures EndOf(ArrayStartOrEnd(b, k), LinksFrom(b, k)) == 0
    ensures forall i :: 0 <= i < |LinksFrom(b, k)| ==> LinksFrom(b, k)[i].at == ArrayStart(b, k + i)
    decreases |PlanArrays(b)| - k
  {
    hide FileOf, ArrayAt, Fits, WellFormed, PlanArrays, ArrayItems, Start, Sizes;
    if k < |PlanArrays(b)| {
      ArrayReads(b, k);
      LinksAreChained(b, k + 1);
      var links, rest := LinksFrom(b, k), LinksFrom(b, k + 1);
      assert links[1..] == rest;
      forall i | 0 <= i < |links| ensures links[i].at == ArrayStart(b, k + i) {
        if i > 0 { assert links[i] == rest[i - 1]; }
      }
    }
  }

  lemma LinksAreApart(b: Builder)
    requires WellFormed(b) && Fits(b)
    ensures AllApart(LinksFrom(b, 0))
  {
    hide FileOf, Fits, WellFormed, PlanArrays, Start, Sizes, Chained, LinksFrom;
    LinksAreChained(b, 0);
    AllSized(b);
    var links := LinksFrom(b, 0);
    forall i, j | 0 <= i < j < |links| ensures links[i].at != links[j].at {
      StartsGrow(Sizes(b), |PreSizes(b)| + i, |PreSizes(b)| + j);
    }
  }

  lemma {:induction false} LinksHoldOffsets(b: Builder, k: nat)
    requires k <= |PlanArrays(b)|
    ensures Flat(LinksFrom(b, k))
            == Joined(PlanArrays(b)[k..]) + if k < |PlanArrays(b)| then Zeros(b.arraySlack) else []
    decreases |PlanArrays(b)| - k
  {
    hide PlanArrays, ArrayStart, ArrayNext, Zeros;
    var cs := PlanArrays(b);
    if k < |cs| {
      LinksHoldOffsets(b, k + 1);
      assert LinksFrom(b, k)[1..] == LinksFrom(b, k + 1);
      assert cs[k..][1..] == cs[k + 1..];
      if k + 1 == |cs| {
        assert cs[k + 1..] == [];
        Seqs.TakeAll(cs[k]);
      } else {
        Seqs.TakeAll(cs[k]);
        Seqs.Assoc(cs[k], Joined(cs[k + 1..]), Zeros(b.arraySlack));
      }
    }
  }

  lemma {:induction false} ZerosStop(s: seq<nat>, n: nat)
    requires 0 !in s
    ensures UpToZero(s + Zeros(n)) == s
  {
    UpToZeroOfAppend(s, Zeros(n));
    Seqs.TakeAll(s);
  }

  lemma StartsAreSet(b: Builder)
    ensures 0 !in EntryStarts(b)
  {
    hide Start, PlanData;
  }

  /** The reader finds the offset of every entry in the order written, up to the count declared. */
  lemma OffsetsAreFound(b: Builder)
    requires WellFormed(b) && Fits(b)
    ensures EntryOffsets(FileOf(b)) == Some(Cap(EntryStarts(b), Count(b)))
  {
    hide FileOf, Fits, WellFormed, WalkFrom, Chained, AllApart, Start, Sizes, Flat, UpToZero, EntryStarts;
    HeaderCounts(b);
    if Count(b) > 0 {
      LinksAreChained(b, 0);
      LinksAreApart(b);
      LinksHoldOffsets(b, 0);
      FlatLinks(b);
      ChainIsWalked(FileOf(b), FirstArray(b), {}, [], LinksFrom(b, 0));
      Seqs.TakeAll(EntryStarts(b));
    }
  }

  lemma HeaderCounts(b: Builder)
    requires WellFormed(b)
    ensures FileOf(b).hdr.nEntries == Count(b) && FileOf(b).hdr.entryArrayOffset == FirstArray(b)
    ensures FirstArray(b) == ArrayStartOrEnd(b, 0)
  {
    hide Build, FlagWord, Start, Sizes;
  }

  lemma FlatLinks(b: Builder)
    ensures UpToZero(Flat(LinksFrom(b, 0))) == EntryStarts(b)
  {
    hide LinksFrom, Flat, UpToZero, EntryStarts, Chunks, Zeros;
    LinksHoldOffsets(b, 0);
    StartsAreSet(b);
    var offs, cs := EntryStarts(b), PlanArrays(b);
    assert cs[0..] == cs;
    if offs != [] {
      ChunksJoin(offs, if b.arrayChunk > 0 then b.arrayChunk else |offs|);
      ZerosStop(offs, b.arraySlack);
    } else {
      NoneFlat(b);
    }
  }

  lemma NoneFlat(b: Builder)
    requires EntryStarts(b) == []
    ensures UpToZero(Flat(LinksFrom(b, 0))) == []
  {
    assert PlanArrays(b) == [];
  }
}
