/** Reading a journal file: the entry array chain, the memoised data objects, and the filter. */
module JournalReader {
  import opened ByteStrings
  import opened Options
  import opened LittleEndian
  import opened JournalFormat
  import Decimal

  const MAX_ENTRY := 0x10_0000
  const MAX_ARRAY := 0x100_0000
  const MAX_DATA := 0x100_0000

  /** An open file: what a read finds, its header, and one past the last byte that may hold an object,
      fixed when it was opened. */
  datatype JournalFile = JournalFile(data: Bytes, hdr: FileHeader, usedEnd: nat)

  function Min(a: nat, b: nat): nat { if a < b then a else b }

  function OpenFile(data: Bytes): (f: Option<JournalFile>) {
    var hdr :- ParseFileHeader(data[..Min(MAX_HEADER, |data|)]);
    Some(JournalFile(data, hdr, Min(hdr.headerSize + hdr.arenaSize, |data|)))
  }

  lemma HalfIs(b: Bytes, i: nat)
    requires i + 4 <= |b|
    ensures Half(b, i) < 32 <==> b[i] < 32 && b[i + 1] == b[i + 2] == b[i + 3] == 0
  {
    var h := b[i..i + 4];
    var h1, h2, h3 := h[1..], h[2..], h[3..];
    assert h1[1..] == h2 && h2[1..] == h3 && h3[1..] == [];
    assert Get(h3) == b[i + 3] && Get(h2) == b[i + 2] + 256 * Get(h3);
    assert Get(h1) == b[i + 1] + 256 * Get(h2) && Get(h) == b[i] + 256 * Get(h1);
  }

  lemma WordOfFront(data: Bytes, n: nat, i: nat)
    requires i + 8 <= n <= |data|
    ensures Word(data[..n], i) == Word(data, i)
  {
    hide Get;
    assert data[..n][i..i + 8] == data[i..i + 8];
  }

  /** A file opens exactly when it has a whole header, the signature, no incompatible flag but the five known, and
      plausible sizes; and then the bytes that may hold objects are those below the end its header declares, as
      far as the file goes. */
  lemma OpensExactly(data: Bytes, at: nat)
    ensures OpenFile(data).Some? <==>
              && |data| >= 208 && data[..8] == Ascii("LPKSHHRH")
              && data[12] < 32 && data[13] == data[14] == data[15] == 0
              && 208 <= Word(data, 88) <= 4096 && Word(data, 96) <= 0x1_0000_0000_0000
    ensures
      var f := OpenFile(data);
      f.Some? ==>
        && f.value.data == data && f.value.hdr.headerSize == Word(data, 88)
        && (at < f.value.usedEnd <==> at < |data| && at < Word(data, 88) + Word(data, 96))
  {
    hide Get;
    var n := Min(MAX_HEADER, |data|);
    if n >= MIN_HEADER {
      HalfIs(data[..n], 12);
      WordOfFront(data, n, 88);
      WordOfFront(data, n, 96);
      assert data[..n][..8] == data[..8];
    }
  }

  /** An object read whole, one that runs past what has been written, or something no journal holds
      there. */
  datatype Object = Whole(bytes: Bytes) | Truncated | Corrupt

  function ReadAt(f: JournalFile, off: nat, n: nat): (b: Option<Bytes>)
    ensures b.Some? ==> |b.value| == n
  {
    if off + n <= |f.data| then Some(f.data[off..off + n]) else None
  }

  function ReadObject(f: JournalFile, off: nat, want: byte, max: nat): (o: Object) {
    if off < f.hdr.headerSize || off % ALIGNMENT != 0 then Corrupt
    else if off > f.usedEnd || f.usedEnd - off < OBJECT_HEADER then Truncated
    else
      match ReadAt(f, off, OBJECT_HEADER)
      case None => Truncated
      case Some(raw) =>
        var h := ParseObjectHeader(raw);
        if h.typ == UNUSED then Truncated
        else if h.typ != want || h.size < OBJECT_HEADER || h.size > max then Corrupt
        else if f.usedEnd - off < h.size then Truncated
        else
          match ReadAt(f, off, h.size)
          case None => Truncated
          case Some(b) => Whole(b)
  }

  // ---- The entry array chain ----

  /** Items up to the first zero slot or the limit, after those already got; and whether to stop. */
  function TakeItems(items: seq<nat>, got: seq<nat>, limit: nat): (r: (seq<nat>, bool)) {
    if items == [] then (got, false)
    else if items[0] == 0 then (got, true)
    else
      var g := got + [items[0]];
      if |g| >= limit then (g, true) else TakeItems(items[1..], g, limit)
  }

  function ArrayAt(f: JournalFile, at: nat): (r: (Object, Option<EntryArray>)) {
    var o := ReadObject(f, at, ENTRY_ARRAY, MAX_ARRAY);
    (o, if o.Whole? then ArrayOf(o.bytes, f.hdr.Compact()) else None)
  }

  ghost function Unvisited(f: JournalFile, visited: set<nat>): set<nat> {
    set x: nat | 0 <= x <= f.usedEnd && x !in visited
  }

  /** The offsets of the chain from `at` on; nothing when it is corrupt. */
  function WalkFrom(f: JournalFile, at: nat, visited: set<nat>, got: seq<nat>): (r: Option<seq<nat>>)
    decreases Unvisited(f, visited)
  {
    if at == 0 then Some(got)
    else if at in visited then None
    else
      var (o, a) := ArrayAt(f, at);
      if o.Truncated? then Some(got)
      else if a.None? then None
      else
        var (g, stop) := TakeItems(a.value.items, got, f.hdr.nEntries);
        if stop then Some(g)
        else
          assert at in Unvisited(f, visited) && at !in Unvisited(f, visited + {at});
          WalkFrom(f, a.value.next, visited + {at}, g)
  }

  function EntryOffsets(f: JournalFile): (r: Option<seq<nat>>) {
    if f.hdr.nEntries == 0 then Some([]) else WalkFrom(f, f.hdr.entryArrayOffset, {}, [])
  }

  method ScanEntryOffsets(f: JournalFile) returns (r: Option<seq<nat>>)
    ensures r == EntryOffsets(f)
  {
    hide ReadObject, ArrayOf;
    var limit := f.hdr.nEntries;
    if limit == 0 { return Some([]); }
    var offsets: seq<nat> := [];
    var visited: set<nat> := {};
    var at := f.hdr.entryArrayOffset;
    while at != 0
      invariant WalkFrom(f, at, visited, offsets) == EntryOffsets(f)
      decreases Unvisited(f, visited)
    {
      if at in visited { return None; }
      var obj := ReadObject(f, at, ENTRY_ARRAY, MAX_ARRAY);
      if obj.Truncated? { return Some(offsets); }
      if obj.Corrupt? { return None; }
      ReadIsInside(f, at, ENTRY_ARRAY, MAX_ARRAY);
      var table := ParseEntryArray(obj.bytes, f.hdr.Compact());
      if table.None? { return None; }
      ghost var got := offsets;
      var i := 0;
      while i < |table.value.items|
        invariant 0 <= i <= |table.value.items|
        invariant TakeItems(table.value.items[i..], offsets, limit) == TakeItems(table.value.items, got, limit)
      {
        var off := table.value.items[i];
        if off == 0 { return Some(offsets); }
        offsets := offsets + [off];
        assert table.value.items[i..][1..] == table.value.items[i + 1..];
        if |offsets| >= limit { return Some(offsets); }
        i := i + 1;
      }
      assert at in Unvisited(f, visited) && at !in Unvisited(f, visited + {at});
      visited := visited + {at};
      at := table.value.next;
    }
    return Some(offsets);
  }

  /** An object is read only from an aligned place in the arena, of the type wanted, as long as it says
      and no longer than allowed, and never past the written region. */
  lemma ReadIsInside(f: JournalFile, at: nat, want: byte, max: nat)
    ensures
      var o := ReadObject(f, at, want, max);
      o.Whole? ==>
        && f.hdr.headerSize <= at <= f.usedEnd && at % ALIGNMENT == 0
        && OBJECT_HEADER <= |o.bytes| <= max && at + |o.bytes| <= f.usedEnd
        && at + |o.bytes| <= |f.data| && o.bytes == f.data[at..at + |o.bytes|]
        && o.bytes[0] == want && Word(o.bytes, 8) == |o.bytes|
  {
    hide Get;
    if ReadObject(f, at, want, max).Whole? {
      var b := ReadObject(f, at, want, max).bytes;
      var raw := f.data[at..at + OBJECT_HEADER];
      assert b[..OBJECT_HEADER] == raw;
      assert b[8..16] == b[..OBJECT_HEADER][8..16];
    }
  }

  /** Where an object cannot begin is corrupt; what runs past the written region, or has no type yet, is not yet
      written; any other type, or a size that cannot be, is corrupt; and the rest is there whole. */
  lemma ReadObjectIs(f: JournalFile, at: nat, want: byte, max: nat)
    ensures
      var o := ReadObject(f, at, want, max);
      var end := Min(f.usedEnd, |f.data|);
      if at < f.hdr.headerSize || at % 8 != 0 then o == Corrupt
      else if at + 16 > end then o == Truncated
      else
        var typ, size := f.data[at], Word(f.data, at + 8);
        if typ == 0 then o == Truncated
        else if typ != want || size < 16 || size > max then o == Corrupt
        else if at + size > end then o == Truncated
        else o == Whole(f.data[at..at + size])
  {
    hide Get;
    if at + 16 <= |f.data| {
      assert f.data[at..at + 16][8..16] == f.data[at + 8..at + 16];
    }
  }

  // ---- Data objects ----

  function DataAt(f: JournalFile, off: nat): (d: Option<DataObject>) {
    var o := ReadObject(f, off, DATA, MAX_DATA);
    if o.Whole? then DataOf(o.bytes, f.hdr.Compact()) else None
  }

  const CACHE_BUDGET := 0x200_0000

  function Cost(d: DataObject): nat {
    64 + if d.Field? then |d.name| + |d.value| else 0
  }

  function Spent(order: seq<nat>, held: map<nat, DataObject>): nat
    requires forall i :: 0 <= i < |order| ==> order[i] in held
  {
    if order == [] then 0 else Cost(held[order[0]]) + Spent(order[1..], held)
  }

  lemma {:induction false} SpentMore(order: seq<nat>, held: map<nat, DataObject>, off: nat, d: DataObject)
    requires (forall i :: 0 <= i < |order| ==> order[i] in held) && off !in held
    ensures Spent(order + [off], held[off := d]) == Spent(order, held) + Cost(d)
    decreases |order|
  {
    if order == [] {
      assert order + [off] == [off];
    } else {
      assert (order + [off])[1..] == order[1..] + [off];
      SpentMore(order[1..], held, off, d);
    }
  }

  /** The decoded objects of one file, under a byte budget. `order` lists what is held. */
  class DataCache {
    var byOffset: map<nat, DataObject>
    var budget: int
    ghost var order: seq<nat>

    /** All that is held is what reading the file gives, and what it costs is off the budget. */
    ghost predicate Valid(f: JournalFile)
      reads this
    {
      && (forall off :: off in byOffset ==> DataAt(f, off) == Some(byOffset[off]))
      && (forall i :: 0 <= i < |order| ==> order[i] in byOffset)
      && (forall off :: off in byOffset ==> off in order)
      && budget >= 0 && Spent(order, byOffset) + budget == CACHE_BUDGET
    }

    constructor (ghost f: JournalFile)
      ensures Valid(f) && byOffset == map[]
    {
      byOffset, budget, order := map[], CACHE_BUDGET, [];
    }

    method Get(off: nat) returns (d: Option<DataObject>)
      ensures d == if off in byOffset then Some(byOffset[off]) else None
    {
      d := if off in byOffset then Some(byOffset[off]) else None;
    }

    /** Remembers one more object when the budget covers it. */
    method Put(ghost f: JournalFile, off: nat, d: DataObject)
      requires Valid(f) && off !in byOffset && DataAt(f, off) == Some(d)
      modifies this
      ensures Valid(f)
      ensures byOffset == if Cost(d) > old(budget) then old(byOffset) else old(byOffset)[off := d]
    {
      hide DataAt;
      var cost := Cost(d);
      if cost > budget { return; }
      SpentMore(order, byOffset, off, d);
      budget := budget - cost;
      byOffset := byOffset[off := d];
      order := order + [off];
    }
  }

  method ReadData(f: JournalFile, off: nat, cache: DataCache) returns (d: Option<DataObject>)
    requires cache.Valid(f)
    modifies cache
    ensures cache.Valid(f) && d == DataAt(f, off)
  {
    hide ReadObject, DataOf;
    var held := cache.Get(off);
    if held.Some? { return held; }
    var obj := ReadObject(f, off, DATA, MAX_DATA);
    if !obj.Whole? { return None; }
    d := DataOf(obj.bytes, f.hdr.Compact());
    if d.Some? { cache.Put(f, off, d.value); }
  }

  // ---- Fields ----

  function MessageID(): Bytes { Ascii("MESSAGE_ID") }
  function Uid(): Bytes { Ascii("_UID") }
  function Gid(): Bytes { Ascii("_GID") }
  function Pid(): Bytes { Ascii("_PID") }
  function Comm(): Bytes { Ascii("_COMM") }
  function Exe(): Bytes { Ascii("_EXE") }
  function LoginUid(): Bytes { Ascii("_AUDIT_LOGINUID") }

  predicate DecidesMatch(name: Bytes) { name == MessageID() || name == Uid() || name == Exe() }

  /** The fields of an entry that could be decoded, and how many data objects could not be. */
  datatype Fields = Fields(values: map<Bytes, Bytes>, compressed: nat)

  /** A repeated name keeps its first value; two values for a name that decides are refused. */
  function AddField(got: Fields, d: DataObject): (r: Option<Fields>) {
    match d
    case Compressed(_) => Some(got.(compressed := got.compressed + 1))
    case Malformed => Some(got)
    case Field(name, value) =>
      if name !in got.values then Some(got.(values := got.values[name := value]))
      else if got.values[name] != value && DecidesMatch(name) then None
      else Some(got)
  }

  function FieldsOf(ds: seq<DataObject>, got: Fields): (r: Option<Fields>)
    decreases |ds|
  {
    if ds == [] then Some(got)
    else
      var g :- AddField(got, ds[0]);
      FieldsOf(ds[1..], g)
  }

  function DataAll(f: JournalFile, offs: seq<nat>): (r: Option<seq<DataObject>>)
    ensures r.Some? ==> |r.value| == |offs|
    decreases |offs|
  {
    if offs == [] then Some([])
    else
      var d :- DataAt(f, offs[0]);
      var rest :- DataAll(f, offs[1..]);
      Some([d] + rest)
  }

  /** The fields an entry's data objects make, unless one cannot be read or two disagree. */
  function FieldsAt(f: JournalFile, offs: seq<nat>, got: Fields): (r: Option<Fields>) {
    var ds :- DataAll(f, offs);
    FieldsOf(ds, got)
  }

  const NO_FIELDS := Fields(map[], 0)

  method ReadFields(f: JournalFile, entry: EntryObject, cache: DataCache) returns (r: Option<Fields>)
    requires cache.Valid(f)
    modifies cache
    ensures cache.Valid(f) && r == FieldsAt(f, entry.dataOffsets, NO_FIELDS)
  {
    hide DataAt, DecidesMatch;
    var fields: map<Bytes, Bytes> := map[];
    var compressed := 0;
    var offs := entry.dataOffsets;
    var i := 0;
    while i < |offs|
      invariant 0 <= i <= |offs| && cache.Valid(f)
      invariant FieldsAt(f, offs[i..], Fields(fields, compressed)) == FieldsAt(f, offs, NO_FIELDS)
    {
      FieldsStep(f, offs[i..], Fields(fields, compressed));
      assert offs[i..][1..] == offs[i + 1..];
      var data := ReadData(f, offs[i], cache);
      if data.None? { return None; }
      match data.value {
        case Compressed(_) => compressed := compressed + 1;
        case Malformed =>
        case Field(name, value) =>
          if name !in fields {
            fields := fields[name := value];
          } else if fields[name] != value && DecidesMatch(name) {
            return None;
          }
      }
      i := i + 1;
    }
    return Some(Fields(fields, compressed));
  }

  lemma FieldsStep(f: JournalFile, offs: seq<nat>, got: Fields)
    requires offs != []
    ensures FieldsAt(f, offs, got) ==
      match DataAt(f, offs[0])
      case None => None
      case Some(d) =>
        match AddField(got, d)
        case None => None
        case Some(g) => FieldsAt(f, offs[1..], g)
  {
    hide DataAt, AddField;
  }

  // ---- The filter ----

  datatype Filter = Filter(messageID: Bytes, uid: int, exe: Bytes)

  predicate LowerHex(b: byte) { 48 <= b <= 57 || 97 <= b <= 102 }

  predicate IsMessageID(s: Bytes) {
    |s| == 32 && forall i :: 0 <= i < |s| ==> LowerHex(s[i])
  }

  /** Every field is wanted, and none can mean "any". */
  predicate FilterOk(flt: Filter) {
    IsMessageID(flt.messageID) && flt.uid >= 0 && flt.exe != [] && flt.exe[0] == 47
  }

  /** A message id in 32 lower-case hexadecimal digits, a user, and a program named from the root. */
  lemma FilterOkIs(flt: Filter)
    ensures FilterOk(flt) <==>
              && |flt.messageID| == 32 && flt.uid >= 0 && Ascii("/") <= flt.exe
              && forall i :: 0 <= i < 32 ==>
                   '0' <= flt.messageID[i] as char <= '9' || 'a' <= flt.messageID[i] as char <= 'f'
  {
  }

  function Lower(b: byte): byte { if 65 <= b <= 90 then b + 32 else b }

  /** Without dashes and in lower case. */
  function NormalizeMessageID(s: Bytes): (r: Bytes) {
    if s == [] then []
    else if s[0] == 45 then NormalizeMessageID(s[1..])
    else [Lower(s[0])] + NormalizeMessageID(s[1..])
  }

  /** A decimal integer with an optional sign, within 64 bits. */
  function Atoi(s: Bytes): (n: Option<int>) {
    var signed := s != [] && (s[0] == 43 || s[0] == 45);
    var digits := if signed then s[1..] else s;
    if digits == [] || !Decimal.AllDigits(digits) then None
    else
      var v: int := Decimal.Value(digits);
      var n := if signed && s[0] == 45 then -v else v;
      if -TWO63 <= n < TWO63 then Some(n) else None
  }

  /** A field as an integer, or -1: an absent value must never read as 0. */
  function IntField(fields: map<Bytes, Bytes>, name: Bytes): int {
    if name !in fields then -1
    else match Atoi(fields[name]) case None => -1 case Some(n) => n
  }

  datatype Cursor = Cursor(seqnumID: Bytes, seqnum: nat, bootID: Bytes, monotonic: nat, realtime: nat,
                           xorHash: nat)

  datatype Entry = Entry(fields: map<Bytes, Bytes>, uid: int, gid: int, pid: int, comm: Bytes, exe: Bytes,
                         loginUid: int, realtimeUsec: nat, cursor: Cursor)

  datatype Failure = BadFilter | CorruptFile | CompressedField

  /** What one entry comes to. */
  datatype Verdict = Failed(why: Failure) | Passed | Matched(entry: Entry)

  function Decide(seqnumID: Bytes, e: EntryObject, fields: Fields, flt: Filter): (v: Verdict) {
    var m := fields.values;
    if NormalizeMessageID(if MessageID() in m then m[MessageID()] else []) != flt.messageID then Passed
    else if IntField(m, Uid()) != flt.uid then Passed
    else if Exe() !in m then if fields.compressed > 0 then Failed(CompressedField) else Passed
    else if m[Exe()] != flt.exe then Passed
    else if e.realtime >= TWO63 then Failed(CorruptFile)
    else
      Matched(Entry(m, flt.uid, IntField(m, Gid()), IntField(m, Pid()),
                    if Comm() in m then m[Comm()] else [], m[Exe()], IntField(m, LoginUid()), e.realtime,
                    Cursor(seqnumID, e.seqnum, e.bootID, e.monotonic, e.realtime, e.xorHash)))
  }

  /** An entry linked but not yet wholly written is passed over; anything else unreadable fails. */
  function MatchAt(f: JournalFile, off: nat, flt: Filter): (r: (EntryObject, Verdict)) {
    var none := EntryObject(0, 0, 0, 0, [], []);
    var o := ReadObject(f, off, ENTRY, MAX_ENTRY);
    if o.Truncated? then (none, Passed)
    else if o.Corrupt? then (none, Failed(CorruptFile))
    else
      match EntryOf(o.bytes, f.hdr.Compact())
      case None => (none, Failed(CorruptFile))
      case Some(e) =>
        match FieldsAt(f, e.dataOffsets, NO_FIELDS)
        case None => (e, Failed(CorruptFile))
        case Some(fields) => (e, Decide(f.hdr.seqnumID, e, fields, flt))
  }

  method MatchEntry(f: JournalFile, off: nat, flt: Filter, cache: DataCache)
    returns (e: EntryObject, v: Verdict)
    requires cache.Valid(f)
    modifies cache
    ensures cache.Valid(f) && (e, v) == MatchAt(f, off, flt)
  {
    hide ReadObject, EntryOf, FieldsAt, Decide, DataAt;
    e := EntryObject(0, 0, 0, 0, [], []);
    var obj := ReadObject(f, off, ENTRY, MAX_ENTRY);
    if obj.Truncated? { return e, Passed; }
    if obj.Corrupt? { return e, Failed(CorruptFile); }
    var parsed := ParseEntryObject(obj.bytes, f.hdr.Compact());
    if parsed.None? { return e, Failed(CorruptFile); }
    e := parsed.value;
    var fields := ReadFields(f, e, cache);
    if fields.None? { return e, Failed(CorruptFile); }
    v := Decide(f.hdr.seqnumID, e, fields.value, flt);
  }
}
