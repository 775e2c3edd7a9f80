/** The journal file layout: decoding its header and objects, in the regular and the COMPACT widths. */
module JournalFormat {
  import opened ByteStrings
  import opened Options
  import opened LittleEndian
  import Seqs

  function Signature(): Bytes { Ascii("LPKSHHRH") }

  const MIN_HEADER := 208
  const MAX_HEADER := 4096
  const MAX_ARENA := 0x1_0000_0000_0000
  const OBJECT_HEADER := 16
  const ALIGNMENT := 8
  const ENTRY_ITEMS := 64
  const ARRAY_ITEMS := 24

  const UNUSED: byte := 0
  const DATA: byte := 1
  const ENTRY: byte := 3
  const DATA_HASH_TABLE: byte := 4
  const FIELD_HASH_TABLE: byte := 5
  const ENTRY_ARRAY: byte := 6

  function Word(b: Bytes, i: nat): (n: nat)
    requires i + 8 <= |b|
    ensures n < TWO64
  {
    GetBounds(b[i..i + 8]);
    Get(b[i..i + 8])
  }

  function Half(b: Bytes, i: nat): (n: nat)
    requires i + 4 <= |b|
    ensures n < TWO32
  {
    GetBounds(b[i..i + 4]);
    Get(b[i..i + 4])
  }

  // ---- The file header ----

  datatype FileHeader = FileHeader(flags: nat, seqnumID: Bytes, headerSize: nat, arenaSize: nat,
                                   nEntries: nat, entryArrayOffset: nat)
  {
    /** Bit 4 of the incompatible flags narrows the items. */
    predicate Compact() { flags / 16 % 2 == 1 }
  }

  /** A header in a dialect not known is refused whole: the known incompatible flags are bits 0 to 4. */
  function ParseFileHeader(buf: Bytes): (h: Option<FileHeader>) {
    if |buf| < MIN_HEADER || buf[..8] != Signature() then None
    else
      var flags := Half(buf, 12);
      var h := FileHeader(flags, buf[72..88], Word(buf, 88), Word(buf, 96), Word(buf, 152), Word(buf, 176));
      if flags >= 32 || h.headerSize < MIN_HEADER || h.headerSize > MAX_HEADER || h.arenaSize > MAX_ARENA then None
      else Some(h)
  }

  // ---- Objects ----

  datatype ObjectHeader = ObjectHeader(typ: byte, flags: byte, size: nat)

  function ParseObjectHeader(raw: Bytes): (h: ObjectHeader)
    requires |raw| == OBJECT_HEADER
  {
    ObjectHeader(raw[0], raw[1], Word(raw, 8))
  }

  /** The first offset in an item, at the width of the layout. */
  function Slot(b: Bytes, compact: bool): (n: nat)
    requires |b| >= if compact then 4 else 8
  {
    if compact then Half(b, 0) else Word(b, 0)
  }

  /** The offset of every whole item of `stride` bytes. */
  function Slots(b: Bytes, stride: nat, compact: bool): (s: seq<nat>)
    requires stride >= if compact then 4 else 8
    decreases |b|
  {
    if |b| < stride then [] else [Slot(b, compact)] + Slots(b[stride..], stride, compact)
  }

  function NonZero(s: seq<nat>): (r: seq<nat>) {
    if s == [] then [] else if s[0] == 0 then NonZero(s[1..]) else [s[0]] + NonZero(s[1..])
  }

  function ArrayStride(compact: bool): nat { if compact then 4 else 8 }

  function EntryStride(compact: bool): nat { if compact then 4 else 16 }

  datatype EntryObject = EntryObject(seqnum: nat, realtime: nat, monotonic: nat, xorHash: nat,
                                     bootID: Bytes, dataOffsets: seq<nat>)

  function EntryOf(obj: Bytes, compact: bool): (e: Option<EntryObject>) {
    if |obj| < ENTRY_ITEMS then None
    else
      Some(EntryObject(Word(obj, 16), Word(obj, 24), Word(obj, 32), Word(obj, 56), obj[40..56],
                       NonZero(Slots(obj[ENTRY_ITEMS..], EntryStride(compact), compact))))
  }

  datatype EntryArray = EntryArray(next: nat, items: seq<nat>)

  /** Zero items are kept: what a zero means is the traversal's to decide. */
  function ArrayOf(obj: Bytes, compact: bool): (a: Option<EntryArray>) {
    if |obj| < ARRAY_ITEMS then None
    else Some(EntryArray(Word(obj, 16), Slots(obj[ARRAY_ITEMS..], ArrayStride(compact), compact)))
  }

  method ParseEntryObject(obj: Bytes, compact: bool) returns (e: Option<EntryObject>)
    ensures e == EntryOf(obj, compact)
  {
    hide Word, Slot;
    if |obj| < ENTRY_ITEMS { return None; }
    var stride := EntryStride(compact);
    var items := obj[ENTRY_ITEMS..];
    var offsets := [];
    var at := 0;
    while at + stride <= |items|
      invariant at <= |items|
      invariant offsets + NonZero(Slots(items[at..], stride, compact)) == NonZero(Slots(items, stride, compact))
    {
      var off := Slot(items[at..], compact);
      NextSlot(items, at, stride, compact);
      if off != 0 {
        Seqs.Assoc(offsets, [off], NonZero(Slots(items[at + stride..], stride, compact)));
        offsets := offsets + [off];
      }
      at := at + stride;
    }
    Seqs.TakeAll(offsets);
    return Some(EntryObject(Word(obj, 16), Word(obj, 24), Word(obj, 32), Word(obj, 56), obj[40..56], offsets));
  }

  method ParseEntryArray(obj: Bytes, compact: bool) returns (a: Option<EntryArray>)
    ensures a == ArrayOf(obj, compact)
  {
    hide Word, Slot;
    if |obj| < ARRAY_ITEMS { return None; }
    var stride := ArrayStride(compact);
    var items := obj[ARRAY_ITEMS..];
    var offsets := [];
    var at := 0;
    while at + stride <= |items|
      invariant at <= |items|
      invariant offsets + Slots(items[at..], stride, compact) == Slots(items, stride, compact)
    {
      NextSlot(items, at, stride, compact);
      var off := Slot(items[at..], compact);
      Seqs.Assoc(offsets, [off], Slots(items[at + stride..], stride, compact));
      offsets := offsets + [off];
      at := at + stride;
    }
    Seqs.TakeAll(offsets);
    return Some(EntryArray(Word(obj, 16), offsets));
  }

  lemma NextSlot(items: Bytes, at: nat, stride: nat, compact: bool)
    requires stride >= (if compact then 4 else 8) && at + stride <= |items|
    ensures Slots(items[at..], stride, compact)
            == [Slot(items[at..], compact)] + Slots(items[at + stride..], stride, compact)
  {
    hide Slot;
    assert items[at..][stride..] == items[at + stride..];
  }

  // ---- Data objects ----

  datatype Algorithm = Xz | Lz4 | Zstd

  /** A decoded field, one that only says what compressed it, or a payload with no '='. */
  datatype DataObject = Field(name: Bytes, value: Bytes) | Compressed(algorithm: Algorithm) | Malformed

  const EQUALS: byte := 61

  predicate IsCompressed(flags: byte) { flags % 8 != 0 }

  function CompressedBy(flags: byte): Algorithm {
    if flags / 4 % 2 == 1 then Zstd else if flags / 2 % 2 == 1 then Lz4 else Xz
  }

  function FindEquals(b: Bytes): (i: nat)
    ensures i <= |b| && (forall k :: 0 <= k < i ==> b[k] != EQUALS)
    ensures i < |b| ==> b[i] == EQUALS
  {
    if b == [] || b[0] == EQUALS then 0 else 1 + FindEquals(b[1..])
  }

  /** A payload cut at its first '='. */
  function Cut(payload: Bytes): (d: DataObject) {
    var i := FindEquals(payload);
    if i == |payload| then Malformed else Field(payload[..i], payload[i + 1..])
  }

  function PayloadOffset(compact: bool): nat { if compact then 72 else 64 }

  function DataOf(obj: Bytes, compact: bool): (d: Option<DataObject>) {
    if |obj| < OBJECT_HEADER then None
    else if IsCompressed(obj[1]) then Some(Compressed(CompressedBy(obj[1])))
    else if |obj| < PayloadOffset(compact) then None
    else Some(Cut(obj[PayloadOffset(compact)..]))
  }

  /** A name and a value are told apart again when the name holds no '='. */
  lemma CutJoins(name: Bytes, value: Bytes)
    requires EQUALS !in name
    ensures Cut(name + [EQUALS] + value) == Field(name, value)
  {
    var p := name + [EQUALS] + value;
    assert forall k :: 0 <= k < |name| ==> p[k] == name[k];
    assert p[|name|] == EQUALS;
    assert p[..|name|] == name && p[|name| + 1..] == value;
  }

  // ---- Where everything stands ----

  lemma {:induction false} SlotAt(b: Bytes, stride: nat, compact: bool, i: nat)
    requires stride == 16 || stride == 8 || (stride == 4 && compact)
    ensures |Slots(b, stride, compact)| == |b| / stride
    ensures i < |b| / stride ==>
              i * stride + stride <= |b| && Slots(b, stride, compact)[i] == Slot(b[i * stride..], compact)
    decreases |b|
  {
    hide Slot;
    OneFits(|b|, stride);
    if |b| >= stride {
      SlotAt(b[stride..], stride, compact, if i > 0 then i - 1 else 0);
      if 0 < i < |b| / stride {
        assert (i - 1) * stride + stride == i * stride;
        assert b[stride..][(i - 1) * stride..] == b[i * stride..];
      } else if i < |b| / stride {
        assert b[0..] == b;
      }
    }
  }

  lemma OneFits(n: nat, stride: nat)
    requires stride == 4 || stride == 8 || stride == 16
    ensures n / stride == if n < stride then 0 else (n - stride) / stride + 1
  {
    if stride == 4 {
      assert n / 4 == if n < 4 then 0 else (n - 4) / 4 + 1;
    } else if stride == 8 {
      assert n / 8 == if n < 8 then 0 else (n - 8) / 8 + 1;
    } else {
      assert n / 16 == if n < 16 then 0 else (n - 16) / 16 + 1;
    }
  }

  /** Where the fields of an entry stand in its bytes, and its items: one data offset every 16 bytes, or every 4 in
      the compact layout, from byte 64 on; an item of zero names nothing. */
  lemma EntryStands(obj: Bytes, compact: bool, i: nat)
    requires |obj| >= 64
    ensures
      var items := obj[64..];
      var slots := Slots(items, if compact then 4 else 16, compact);
      && EntryOf(obj, compact)
         == Some(EntryObject(Word(obj, 16), Word(obj, 24), Word(obj, 32), Word(obj, 56), obj[40..56], NonZero(slots)))
      && |slots| == |items| / (if compact then 4 else 16)
      && (i < |slots| ==>
            if compact then 64 + 4 * i + 4 <= |obj| && slots[i] == Half(obj, 64 + 4 * i)
            else 64 + 16 * i + 8 <= |obj| && slots[i] == Word(obj, 64 + 16 * i))
  {
    hide Slots, Get;
    SlotAt(obj[64..], if compact then 4 else 16, compact, i);
    ItemIsInPlace(obj, 64, i * if compact then 4 else 16, compact);
  }

  /** The same for an entry array, whose items follow each other from byte 24 on; the next array is named at 16. */
  lemma ArrayStands(obj: Bytes, compact: bool, i: nat)
    requires |obj| >= 24
    ensures
      var items := obj[24..];
      var slots := Slots(items, if compact then 4 else 8, compact);
      && ArrayOf(obj, compact) == Some(EntryArray(Word(obj, 16), slots))
      && |slots| == |items| / (if compact then 4 else 8)
      && (i < |slots| ==>
            if compact then 24 + 4 * i + 4 <= |obj| && slots[i] == Half(obj, 24 + 4 * i)
            else 24 + 8 * i + 8 <= |obj| && slots[i] == Word(obj, 24 + 8 * i))
  {
    hide Slots, Get;
    SlotAt(obj[24..], if compact then 4 else 8, compact, i);
    ItemIsInPlace(obj, 24, i * if compact then 4 else 8, compact);
  }

  lemma ItemIsInPlace(obj: Bytes, from: nat, at: nat, compact: bool)
    ensures from + at + (if compact then 4 else 8) <= |obj| ==>
              Slot(obj[from..][at..], compact) == if compact then Half(obj, from + at) else Word(obj, from + at)
  {
    hide Get;
    if from + at + (if compact then 4 else 8) <= |obj| {
      assert obj[from..][at..] == obj[from + at..];
      if compact {
        assert obj[from + at..][0..4] == obj[from + at..from + at + 4];
      } else {
        assert obj[from + at..][0..8] == obj[from + at..from + at + 8];
      }
    }
  }

  /** A data object is compressed exactly when one of the three lowest bits of its flags says so. */
  lemma CompressedIs(obj: Bytes, compact: bool)
    requires |obj| >= 16
    ensures
      var xz, lz4, zstd := obj[1] % 2 == 1, obj[1] / 2 % 2 == 1, obj[1] / 4 % 2 == 1;
      var d := DataOf(obj, compact);
      && (d.Some? && d.value.Compressed? <==> xz || lz4 || zstd)
      && (xz && !lz4 && !zstd ==> d == Some(Compressed(Xz))) && (!xz && lz4 && !zstd ==> d == Some(Compressed(Lz4)))
      && (!xz && !lz4 && zstd ==> d == Some(Compressed(Zstd)))
      && (!xz && !lz4 && !zstd ==>
            d == if |obj| < (if compact then 72 else 64) then None else Some(Cut(obj[if compact then 72 else 64..])))
  {
    hide FindEquals;
    EightBits(obj[1]);
  }

  lemma EightBits(b: byte)
    ensures b % 8 == b % 2 + 2 * (b / 2 % 2) + 4 * (b / 4 % 2)
  {
  }
}
