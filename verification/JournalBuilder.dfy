/** Whole journal files built from a list of entries, and what reading one gives back. */
module JournalBuilder {
  import opened ByteStrings
  import opened Options
  import opened LittleEndian
  import opened JournalFormat
  import opened JournalReader
  import opened JournalLayout
  import Seqs

  datatype TestField = TestField(name: Bytes, value: Bytes, compressed: bool)

  datatype TestEntry = TestEntry(seqnum: nat, realtime: nat, monotonic: nat, xorHash: nat, bootID: Bytes,
                                 fields: seq<TestField>)

  /** Incompatible flags beyond the layout's own; `unknown` holds the bits from 5 up. */
  datatype Extra = Extra(xz: bool, lz4: bool, keyed: bool, zstd: bool, unknown: nat)

  datatype Ids = Ids(file: Bytes, machine: Bytes, seqnum: Bytes)

  /** One file to build: its entries in order, the layout, how many entries an array lists (all when
      0), unused slots in the last array, and an entry count other than the true one. */
  datatype Builder = Builder(entries: seq<TestEntry>, compact: bool, keyedHash: bool, extra: Extra,
                             arrayChunk: nat, arraySlack: nat, nEntries: Option<nat>, ids: Ids)

  // ---- Planning ----

  /** What tells one data object from another. */
  datatype Pair = Pair(compressed: bool, payload: Bytes)

  function PairOf(f: TestField): Pair { Pair(f.compressed, f.name + [EQUALS] + f.value) }

  function PairsOf(fs: seq<TestField>): seq<Pair> {
    seq(|fs|, i requires 0 <= i < |fs| => PairOf(fs[i]))
  }

  function AllPairs(es: seq<TestEntry>): seq<Pair>
    decreases |es|
  {
    if es == [] then [] else PairsOf(es[0].fields) + AllPairs(es[1..])
  }

  /** Each pair once, in order of first appearance, after those already got. */
  function Distinct(got: seq<Pair>, ps: seq<Pair>): (r: seq<Pair>)
    ensures forall x :: x in r <==> x in got || x in ps
    decreases |ps|
  {
    if ps == [] then got
    else Distinct(if ps[0] in got then got else got + [ps[0]], ps[1..])
  }

  function PlanData(b: Builder): seq<Pair> { Distinct([], AllPairs(b.entries)) }

  function IndexOf(ps: seq<Pair>, x: Pair): (i: nat)
    requires x in ps
    ensures i < |ps| && ps[i] == x
  {
    if ps[0] == x then 0 else 1 + IndexOf(ps[1..], x)
  }

  function Chunks(offs: seq<nat>, n: nat): (cs: seq<seq<nat>>)
    requires n > 0
    ensures cs == [] <==> offs == []
    decreases |offs|
  {
    if offs == [] then []
    else if |offs| <= n then [offs]
    else [offs[..n]] + Chunks(offs[n..], n)
  }

  function Joined(cs: seq<seq<nat>>): seq<nat>
    decreases |cs|
  {
    if cs == [] then [] else cs[0] + Joined(cs[1..])
  }

  lemma {:induction false} ChunksJoin(offs: seq<nat>, n: nat)
    requires n > 0
    ensures Joined(Chunks(offs, n)) == offs
    decreases |offs|
  {
    if |offs| > n {
      ChunksJoin(offs[n..], n);
      assert offs == offs[..n] + offs[n..];
    } else {
      Seqs.TakeAll(offs);
    }
  }

  // ---- Where everything goes ----

  const TABLE_SIZE := 80

  function DataSizes(b: Builder): (s: seq<nat>)
    ensures |s| == |PlanData(b)|
  {
    var ps := PlanData(b);
    seq(|ps|, j requires 0 <= j < |ps| => PayloadOffset(b.compact) + |ps[j].payload|)
  }

  function EntrySizes(b: Builder): (s: seq<nat>)
    ensures |s| == |b.entries|
  {
    seq(|b.entries|, i requires 0 <= i < |b.entries| =>
      ENTRY_ITEMS + EntryStride(b.compact) * |b.entries[i].fields|)
  }

  /** The sizes of everything before the entry arrays. */
  function PreSizes(b: Builder): (s: seq<nat>)
    ensures |s| == 2 + |PlanData(b)| + |b.entries|
  {
    [TABLE_SIZE, TABLE_SIZE] + DataSizes(b) + EntrySizes(b)
  }

  function DataStart(b: Builder, j: nat): (n: nat)
    requires j < |PlanData(b)|
  {
    Start(PreSizes(b), 2 + j)
  }

  function EntryStart(b: Builder, i: nat): (n: nat)
    requires i < |b.entries|
  {
    Start(PreSizes(b), 2 + |PlanData(b)| + i)
  }

  function EntryStarts(b: Builder): (s: seq<nat>)
    ensures |s| == |b.entries|
  {
    seq(|b.entries|, i requires 0 <= i < |b.entries| => EntryStart(b, i))
  }

  function PlanArrays(b: Builder): (cs: seq<seq<nat>>)
    ensures cs == [] <==> b.entries == []
  {
    var offs := EntryStarts(b);
    if offs == [] then [] else Chunks(offs, if b.arrayChunk > 0 then b.arrayChunk else |offs|)
  }

  /** The slots of array `k`: its offsets, and in the last one the unused slots, left zero. */
  function ArrayItems(b: Builder, k: nat): (s: seq<nat>)
    requires k < |PlanArrays(b)|
  {
    PlanArrays(b)[k] + if k == |PlanArrays(b)| - 1 then Zeros(b.arraySlack) else []
  }

  function ArraySizes(b: Builder): (s: seq<nat>)
    ensures |s| == |PlanArrays(b)|
  {
    seq(|PlanArrays(b)|, k requires 0 <= k < |PlanArrays(b)| =>
      ARRAY_ITEMS + ArrayStride(b.compact) * |ArrayItems(b, k)|)
  }

  function Sizes(b: Builder): (s: seq<nat>)
    ensures |s| == |PreSizes(b)| + |PlanArrays(b)|
  {
    PreSizes(b) + ArraySizes(b)
  }

  function ArrayStart(b: Builder, k: nat): (n: nat)
    requires k < |PlanArrays(b)|
  {
    Start(Sizes(b), |PreSizes(b)| + k)
  }

  function End(b: Builder): nat { Start(Sizes(b), |Sizes(b)|) }

  // ---- The objects ----

  function Table(typ: byte): (o: Bytes)
    ensures |o| == TABLE_SIZE
  {
    PutObjectHeader(typ, 0, TABLE_SIZE) + Zeros(64)
  }

  /** The first entry that carries a pair. */
  function FirstEntry(es: seq<TestEntry>, x: Pair): (i: nat)
    requires x in AllPairs(es)
    ensures i < |es|
    decreases |es|
  {
    if x in PairsOf(es[0].fields) then 0 else 1 + FirstEntry(es[1..], x)
  }

  function DataObjectAt(b: Builder, j: nat): (o: Bytes)
    requires j < |PlanData(b)|
    ensures |o| == DataSizes(b)[j]
  {
    var x := PlanData(b)[j];
    assert x in AllPairs(b.entries);
    EncodeData(x.payload, x.compressed, EntryStart(b, FirstEntry(b.entries, x)),
               multiset(AllPairs(b.entries))[x], b.compact)
  }

  lemma {:induction false} PairIsPlanned(es: seq<TestEntry>, i: nat, q: nat)
    requires i < |es| && q < |es[i].fields|
    ensures PairOf(es[i].fields[q]) in AllPairs(es)
    decreases |es|
  {
    hide PairOf;
    if i == 0 {
      assert PairsOf(es[0].fields)[q] == PairOf(es[0].fields[q]);
    } else {
      PairIsPlanned(es[1..], i - 1, q);
    }
  }

  /** Where the data object of a field stands. */
  function FieldStart(b: Builder, i: nat, q: nat): (n: nat)
    requires i < |b.entries| && q < |b.entries[i].fields|
  {
    PairIsPlanned(b.entries, i, q);
    DataStart(b, IndexOf(PlanData(b), PairOf(b.entries[i].fields[q])))
  }

  function EntryObjectAt(b: Builder, i: nat): (e: EntryObject)
    requires i < |b.entries|
    ensures |e.dataOffsets| == |b.entries[i].fields|
  {
    var t := b.entries[i];
    EntryObject(t.seqnum, t.realtime, t.monotonic, t.xorHash, t.bootID,
                seq(|t.fields|, q requires 0 <= q < |t.fields| => FieldStart(b, i, q)))
  }

  function ArrayNext(b: Builder, k: nat): (n: nat)
    requires k < |PlanArrays(b)|
  {
    if k + 1 < |PlanArrays(b)| then ArrayStart(b, k + 1) else 0
  }

  function Tables(): (s: seq<Bytes>) { [Table(DATA_HASH_TABLE), Table(FIELD_HASH_TABLE)] }

  function DataObjects(b: Builder): (s: seq<Bytes>)
    ensures |s| == |PlanData(b)|
  {
    seq(|PlanData(b)|, j requires 0 <= j < |PlanData(b)| => DataObjectAt(b, j))
  }

  function EntryObjects(b: Builder): (s: seq<Bytes>)
    requires WellFormed(b)
    ensures |s| == |b.entries|
  {
    seq(|b.entries|, i requires 0 <= i < |b.entries| => EncodeEntry(EntryObjectAt(b, i), b.compact))
  }

  function ArrayObjects(b: Builder): (s: seq<Bytes>)
    ensures |s| == |PlanArrays(b)|
  {
    seq(|PlanArrays(b)|, k requires 0 <= k < |PlanArrays(b)| =>
      EncodeArray(ArrayNext(b, k), ArrayItems(b, k), b.compact))
  }

  function Objects(b: Builder): (s: seq<Bytes>)
    requires WellFormed(b)
  {
    Tables() + DataObjects(b) + EntryObjects(b) + ArrayObjects(b)
  }

  // ---- The header ----

  function FlagWord(b: Builder): (n: nat) {
    (if b.extra.xz then 1 else 0) + (if b.extra.lz4 then 2 else 0)
    + (if b.extra.keyed || b.keyedHash then 4 else 0) + (if b.extra.zstd then 8 else 0)
    + (if b.compact then 16 else 0) + 32 * b.extra.unknown
  }

  function Count(b: Builder): nat { if b.nEntries.Some? then b.nEntries.value else |b.entries| }

  function FirstArray(b: Builder): nat { if b.entries == [] then 0 else ArrayStart(b, 0) }

  function LastArray(b: Builder): nat {
    if b.entries == [] then 0 else ArrayStart(b, |PlanArrays(b)| - 1)
  }

  /** The last entry's, or zero. */
  function Tail(b: Builder): TestEntry {
    if b.entries == [] then TestEntry(0, 0, 0, 0, Zeros(16), []) else b.entries[|b.entries| - 1]
  }

  function Head(b: Builder): TestEntry {
    if b.entries == [] then TestEntry(0, 0, 0, 0, Zeros(16), []) else b.entries[0]
  }

  /** The header's words from 104 to 152: the hash tables, the tail object and the object count. */
  function TableWords(b: Builder): (w: Bytes)
    ensures |w| == 48
  {
    Put(HEADER_SIZE + OBJECT_HEADER, 8) + Put(64, 8) + Put(HEADER_SIZE + TABLE_SIZE + OBJECT_HEADER, 8)
    + Put(64, 8) + Put(LastArray(b), 8)
    + Put(2 + |PlanData(b)| + |b.entries| + |PlanArrays(b)|, 8)
  }

  /** The header's bytes from 184 on. */
  function TailWords(b: Builder): (w: Bytes)
    ensures |w| == 88
  {
    Put(Head(b).realtime, 8) + Put(Tail(b).realtime, 8) + Put(Tail(b).monotonic, 8)
    + Put(|PlanData(b)|, 8) + Zeros(16) + Put(|PlanArrays(b)|, 8) + Zeros(16) + Put(LastArray(b), 4)
    + Put(if b.entries == [] then 0 else |ArrayItems(b, |PlanArrays(b)| - 1)|, 4)
    + Put(if b.entries == [] then 0 else EntryStart(b, |b.entries| - 1), 8)
  }

  /** The signature, flags, state and ids. */
  function HeaderFront(b: Builder): (h: Bytes)
    requires WellFormed(b)
    ensures |h| == 88
  {
    (Signature() + Put(2, 4)) + Put(FlagWord(b), 4)
    + ([2] + Zeros(7) + b.ids.file + b.ids.machine + Tail(b).bootID) + b.ids.seqnum
  }

  /** The sizes, counts and offsets. */
  function HeaderBack(b: Builder): (h: Bytes)
    ensures |h| == 184
  {
    Put(HEADER_SIZE, 8) + Put(End(b) - HEADER_SIZE, 8) + TableWords(b) + Put(Count(b), 8)
    + (Put(Tail(b).seqnum, 8) + Put(Head(b).seqnum, 8)) + Put(FirstArray(b), 8) + TailWords(b)
  }

  function Header(b: Builder): (h: Bytes)
    requires WellFormed(b)
    ensures |h| == HEADER_SIZE
  {
    HeaderFront(b) + HeaderBack(b)
  }

  function Build(b: Builder): (file: Bytes)
    requires WellFormed(b)
  {
    Header(b) + Body(Objects(b))
  }

  // ---- What a builder may be given ----

  ghost predicate WellFormedEntry(e: TestEntry) {
    && |e.bootID| == 16
    && e.seqnum < TWO64 && e.realtime < TWO64 && e.monotonic < TWO64 && e.xorHash < TWO64
    && forall q :: 0 <= q < |e.fields| ==> EQUALS !in e.fields[q].name
  }

  ghost predicate WellFormed(b: Builder) {
    && |b.ids.file| == |b.ids.machine| == |b.ids.seqnum| == 16
    && (forall i :: 0 <= i < |b.entries| ==> WellFormedEntry(b.entries[i]))
  }

  /** Within what the reader accepts and, in the COMPACT layout, within what its offsets can name. */
  ghost predicate Fits(b: Builder) {
    && (forall j :: 0 <= j < |DataSizes(b)| ==> DataSizes(b)[j] <= MAX_DATA)
    && (forall i :: 0 <= i < |EntrySizes(b)| ==> EntrySizes(b)[i] <= MAX_ENTRY)
    && (forall k :: 0 <= k < |ArraySizes(b)| ==> ArraySizes(b)[k] <= MAX_ARRAY)
    && End(b) - HEADER_SIZE <= MAX_ARENA && (b.compact ==> End(b) <= TWO32)
    && Count(b) < TWO64 && FlagWord(b) < TWO32
  }

  // ---- The file is read back ----

  lemma {:induction false} SizesMatch(b: Builder)
    requires WellFormed(b)
    ensures SizedAs(Objects(b), Sizes(b))
  {
    hide DataObjectAt, EncodeEntry, EncodeArray, Table, PlanData, PlanArrays, EntryObjectAt, ArrayNext, ArrayItems;
    SizesOfParts(b);
    SizedAppend(Tables(), DataObjects(b), [TABLE_SIZE, TABLE_SIZE], DataSizes(b));
    SizedAppend(Tables() + DataObjects(b), EntryObjects(b), [TABLE_SIZE, TABLE_SIZE] + DataSizes(b), EntrySizes(b));
    SizedAppend(Tables() + DataObjects(b) + EntryObjects(b), ArrayObjects(b), PreSizes(b), ArraySizes(b));
  }

  lemma SizesOfParts(b: Builder)
    requires WellFormed(b)
    ensures SizedAs(Tables(), [TABLE_SIZE, TABLE_SIZE]) && SizedAs(DataObjects(b), DataSizes(b))
    ensures SizedAs(EntryObjects(b), EntrySizes(b)) && SizedAs(ArrayObjects(b), ArraySizes(b))
  {
    hide PlanData, PlanArrays, Put, PutItems;
  }

  lemma SizedAppend(a: seq<Bytes>, b: seq<Bytes>, s: seq<nat>, t: seq<nat>)
    requires SizedAs(a, s) && SizedAs(b, t)
    ensures SizedAs(a + b, s + t)
  {
  }

  lemma FrontSlices(a: Bytes, flags: Bytes, ids: Bytes, seqnum: Bytes)
    requires |a| == 12 && |flags| == 4 && |ids| == 56 && |seqnum| == 16
    ensures
      var p := a + flags + ids + seqnum;
      |p| == 88 && p[..8] == a[..8] && p[12..16] == flags && p[72..88] == seqnum
  {
  }

  lemma BackSlices(size: Bytes, arena: Bytes, tables: Bytes, count: Bytes, seqs: Bytes, first: Bytes, tail: Bytes)
    requires |size| == |arena| == |count| == |first| == 8 && |tables| == 48 && |seqs| == 16 && |tail| == 88
    ensures
      var q := size + arena + tables + count + seqs + first + tail;
      |q| == 184 && q[..8] == size && q[8..16] == arena && q[64..72] == count && q[88..96] == first
  {
  }

  lemma SliceOfFront(p: Bytes, r: Bytes, i: nat, j: nat)
    requires i <= j <= |p|
    ensures (p + r)[i..j] == p[i..j]
  {
  }

  lemma SliceOfBack(p: Bytes, q: Bytes, t: Bytes, i: nat, j: nat)
    requires i <= j <= |q|
    ensures (p + q + t)[|p| + i..|p| + j] == q[i..j]
  {
  }

  /** Where the header's pieces stand. */
  lemma HeaderSlices(b: Builder, t: Bytes)
    requires WellFormed(b)
    ensures
      var h := Header(b) + t;
      && h[..8] == Signature() && h[12..16] == Put(FlagWord(b), 4) && h[72..88] == b.ids.seqnum
      && h[88..96] == Put(HEADER_SIZE, 8) && h[96..104] == Put(End(b) - HEADER_SIZE, 8)
      && h[152..160] == Put(Count(b), 8) && h[176..184] == Put(FirstArray(b), 8)
  {
    hide Put, Start, PlanArrays, PlanData, TableWords, TailWords, Zeros, FirstArray, Count, FlagWord, Sizes;
    var a, flags := Signature() + Put(2, 4), Put(FlagWord(b), 4);
    var ids := [2] + Zeros(7) + b.ids.file + b.ids.machine + Tail(b).bootID;
    var seqs := Put(Tail(b).seqnum, 8) + Put(Head(b).seqnum, 8);
    FrontSlices(a, flags, ids, b.ids.seqnum);
    BackSlices(Put(HEADER_SIZE, 8), Put(End(b) - HEADER_SIZE, 8), TableWords(b), Put(Count(b), 8), seqs,
               Put(FirstArray(b), 8), TailWords(b));
    Seqs.AppendParts(Signature(), Put(2, 4));
    var p, q := HeaderFront(b), HeaderBack(b);
    Seqs.Assoc(p, q, t);
    SliceOfFront(p, q + t, 0, 8);
    SliceOfFront(p, q + t, 12, 16);
    SliceOfFront(p, q + t, 72, 88);
    SliceOfBack(p, q, t, 0, 8);
    SliceOfBack(p, q, t, 8, 16);
    SliceOfBack(p, q, t, 64, 72);
    SliceOfBack(p, q, t, 88, 96);
  }

  lemma FlagsKnown(b: Builder)
    ensures FlagWord(b) < 32 <==> b.extra.unknown == 0
  {
  }

  /** What opening the file should find in its header. */
  function HeaderOf(b: Builder): FileHeader {
    FileHeader(FlagWord(b), b.ids.seqnum, HEADER_SIZE, End(b) - HEADER_SIZE, Count(b), FirstArray(b))
  }

  lemma HeaderIsRead(b: Builder, t: Bytes)
    requires WellFormed(b) && Fits(b) && FirstArray(b) < TWO64
    ensures ParseFileHeader(Header(b) + t) == if b.extra.unknown == 0 then Some(HeaderOf(b)) else None
  {
    hide Put, Get, Header, Start, Sizes, FirstArray, Count, FlagWord;
    var flags := FlagWord(b);
    FlagsKnown(b);
    HeaderSlices(b, t);
    GetPut32(flags);
    GetPut64(HEADER_SIZE);
    GetPut64(End(b) - HEADER_SIZE);
    GetPut64(Count(b));
    GetPut64(FirstArray(b));
  }

  // ---- Where each kind stands ----

  lemma DataPlace(b: Builder, j: nat)
    requires WellFormed(b) && j < |PlanData(b)|
    ensures 2 + j < |Objects(b)| && Objects(b)[2 + j] == DataObjectAt(b, j)
    ensures 2 + j < |Sizes(b)| && Start(Sizes(b), 2 + j) == DataStart(b, j)
  {
    hide DataObjectAt, EncodeEntry, EncodeArray, PlanData, PlanArrays, ArraySizes, DataSizes, EntrySizes;
    StartOfPrefix(PreSizes(b), ArraySizes(b), 2 + j);
  }

  lemma EntryPlace(b: Builder, i: nat)
    requires WellFormed(b) && i < |b.entries|
    ensures
      var n := 2 + |PlanData(b)| + i;
      && n < |Objects(b)| && Objects(b)[n] == EncodeEntry(EntryObjectAt(b, i), b.compact)
      && n < |Sizes(b)| && Start(Sizes(b), n) == EntryStart(b, i)
  {
    hide DataObjectAt, EncodeEntry, EncodeArray, EntryObjectAt, PlanData, PlanArrays, ArraySizes, DataSizes, EntrySizes;
    StartOfPrefix(PreSizes(b), ArraySizes(b), 2 + |PlanData(b)| + i);
  }

  lemma ArrayPlace(b: Builder, k: nat)
    requires WellFormed(b) && k < |PlanArrays(b)|
    ensures
      var n := |PreSizes(b)| + k;
      && n < |Objects(b)| && Objects(b)[n] == EncodeArray(ArrayNext(b, k), ArrayItems(b, k), b.compact)
      && n < |Sizes(b)| && Start(Sizes(b), n) == ArrayStart(b, k)
  {
    hide DataObjectAt, EncodeEntry, EncodeArray, EntryObjectAt, PlanData, PlanArrays, ArraySizes, DataSizes,
         EntrySizes, ArrayItems, ArrayNext;
  }

  lemma PlannedIsPair(b: Builder, x: Pair)
    ensures x in PlanData(b) <==> x in AllPairs(b.entries)
  {
  }
}
