/** Writing a journal file: objects laid back to back on 8-byte boundaries, in either layout. It is a
    second account of the format, made without the reader's. */
module JournalLayout {
  import opened ByteStrings
  import opened Options
  import opened LittleEndian
  import opened JournalFormat
  import Seqs

  function Zeros(n: nat): (b: Bytes)
    ensures |b| == n && forall i :: 0 <= i < n ==> b[i] == 0
  {
    seq(n, _ => 0)
  }

  const HEADER_SIZE := 272

  function Up8(n: nat): (m: nat)
    ensures n <= m < n + 8 && m % 8 == 0
  {
    (n + 7) / 8 * 8
  }

  function Pad(b: Bytes): (p: Bytes)
    ensures |p| == Up8(|b|)
  {
    b + Zeros(Up8(|b|) - |b|)
  }

  /** Objects one after another, each padded. */
  function Body(objs: seq<Bytes>): (b: Bytes)
    decreases |objs|
  {
    if objs == [] then [] else Pad(objs[0]) + Body(objs[1..])
  }

  /** Where object `i` begins, from the sizes of those before it. */
  function Start(sizes: seq<nat>, i: nat): (n: nat)
    requires i <= |sizes|
    ensures n >= HEADER_SIZE && n % 8 == 0
    decreases i
  {
    if i == 0 then HEADER_SIZE else Start(sizes, i - 1) + Up8(sizes[i - 1])
  }

  ghost predicate SizedAs(objs: seq<Bytes>, sizes: seq<nat>) {
    |sizes| == |objs| && forall i :: 0 <= i < |objs| ==> |objs[i]| == sizes[i]
  }

  lemma {:induction false} StartOfPrefix(a: seq<nat>, b: seq<nat>, i: nat)
    requires i <= |a|
    ensures Start(a + b, i) == Start(a, i)
    decreases i
  {
    if i > 0 { StartOfPrefix(a, b, i - 1); }
  }

  lemma {:induction false} StartsGrow(sizes: seq<nat>, i: nat, j: nat)
    requires i < j <= |sizes| && forall k :: 0 <= k < |sizes| ==> sizes[k] > 0
    ensures Start(sizes, i) + Up8(sizes[i]) <= Start(sizes, j) && Start(sizes, i) < Start(sizes, j)
    decreases j
  {
    if i < j - 1 { StartsGrow(sizes, i, j - 1); }
  }

  lemma {:induction false} StartsBelow(sizes: seq<nat>, i: nat)
    requires i <= |sizes|
    ensures Start(sizes, i) <= Start(sizes, |sizes|)
    decreases |sizes| - i
  {
    if i < |sizes| { StartsBelow(sizes, i + 1); }
  }

  lemma {:induction false} BodyOfAppend(a: seq<Bytes>, b: seq<Bytes>)
    ensures Body(a + b) == Body(a) + Body(b)
    decreases |a|
  {
    hide Pad;
    if a == [] {
      Seqs.TakeAll(b);
      Seqs.TakeAll(Body(b));
    } else {
      assert (a + b)[1..] == a[1..] + b && (a + b)[0] == a[0];
      BodyOfAppend(a[1..], b);
      Seqs.Assoc(Pad(a[0]), Body(a[1..]), Body(b));
    }
  }

  lemma {:induction false} BodyLength(objs: seq<Bytes>, sizes: seq<nat>)
    requires SizedAs(objs, sizes)
    ensures HEADER_SIZE + |Body(objs)| == Start(sizes, |sizes|)
    decreases |objs|
  {
    hide Pad;
    if objs != [] {
      var n := |objs| - 1;
      var most, last := objs[..n], objs[n..];
      Seqs.FrontThenLast(objs);
      Seqs.FrontThenLast(sizes);
      BodyOfAppend(most, last);
      BodyLength(most, sizes[..n]);
      StartOfPrefix(sizes[..n], [sizes[n]], n);
      assert objs == most + last && last == [objs[n]];
      Seqs.TakeAll(Pad(objs[n]));
      assert Body(last) == Pad(objs[n]);
    }
  }

  /** Object `i` stands at its start. */
  lemma ObjectAtStart(head: Bytes, objs: seq<Bytes>, sizes: seq<nat>, i: nat)
    requires |head| == HEADER_SIZE && SizedAs(objs, sizes) && i < |objs|
    ensures
      var data := head + Body(objs);
      var at := Start(sizes, i);
      && at + sizes[i] <= |data| && data[at..at + sizes[i]] == objs[i]
  {
    hide Pad, Body, Start;
    BodyAround(objs, i);
    StartBefore(objs, sizes, i);
    PadHolds(objs[i]);
    AtMiddle(head, Body(objs[..i]), Pad(objs[i]), Body(objs[i + 1..]), |objs[i]|);
  }

  lemma BodyAround(objs: seq<Bytes>, i: nat)
    requires i < |objs|
    ensures Body(objs) == Body(objs[..i]) + (Pad(objs[i]) + Body(objs[i + 1..]))
  {
    hide Pad, Body;
    assert objs == objs[..i] + ([objs[i]] + objs[i + 1..]);
    BodyOfAppend(objs[..i], [objs[i]] + objs[i + 1..]);
    BodyOfAppend([objs[i]], objs[i + 1..]);
    BodyOfOne(objs[i]);
  }

  lemma StartBefore(objs: seq<Bytes>, sizes: seq<nat>, i: nat)
    requires SizedAs(objs, sizes) && i < |objs|
    ensures Start(sizes, i) == HEADER_SIZE + |Body(objs[..i])|
  {
    hide Pad, Body, Start;
    BodyLength(objs[..i], sizes[..i]);
    assert sizes == sizes[..i] + sizes[i..];
    StartOfPrefix(sizes[..i], sizes[i..], i);
  }

  lemma BodyOfOne(b: Bytes)
    ensures Body([b]) == Pad(b)
  {
    Seqs.TakeAll(Pad(b));
  }

  lemma PadHolds(b: Bytes)
    ensures Pad(b)[..|b|] == b
  {
  }

  lemma AtMiddle(head: Bytes, a: Bytes, b: Bytes, c: Bytes, n: nat)
    requires n <= |b|
    ensures (head + (a + (b + c)))[|head| + |a|..|head| + |a| + n] == b[..n]
  {
  }

  // ---- Encoding objects ----

  function PutObjectHeader(typ: byte, flags: byte, size: nat): (b: Bytes)
    ensures |b| == OBJECT_HEADER
  {
    [typ, flags] + Zeros(6) + Put(size, 8)
  }

  function PutItem(off: nat, stride: nat, compact: bool): (b: Bytes)
    requires stride >= if compact then 4 else 8
    ensures |b| == stride
  {
    if compact then Put(off, 4) + Zeros(stride - 4) else Put(off, 8) + Zeros(stride - 8)
  }

  function PutItems(offs: seq<nat>, stride: nat, compact: bool): (b: Bytes)
    requires stride >= if compact then 4 else 8
    ensures |b| == stride * |offs|
    decreases |offs|
  {
    if offs == [] then [] else PutItem(offs[0], stride, compact) + PutItems(offs[1..], stride, compact)
  }

  function EncodeArray(next: nat, items: seq<nat>, compact: bool): (b: Bytes)
    ensures |b| == ARRAY_ITEMS + ArrayStride(compact) * |items|
  {
    PutObjectHeader(ENTRY_ARRAY, 0, ARRAY_ITEMS + ArrayStride(compact) * |items|) + Put(next, 8)
    + PutItems(items, ArrayStride(compact), compact)
  }

  function EncodeEntry(e: EntryObject, compact: bool): (b: Bytes)
    requires |e.bootID| == 16
    ensures |b| == ENTRY_ITEMS + EntryStride(compact) * |e.dataOffsets|
  {
    PutObjectHeader(ENTRY, 0, ENTRY_ITEMS + EntryStride(compact) * |e.dataOffsets|)
    + Put(e.seqnum, 8) + Put(e.realtime, 8) + Put(e.monotonic, 8) + e.bootID + Put(e.xorHash, 8)
    + PutItems(e.dataOffsets, EntryStride(compact), compact)
  }

  const ZSTD: byte := 4

  /** A payload marked compressed is still written as it is. */
  function EncodeData(payload: Bytes, compressed: bool, entry: nat, n: nat, compact: bool): (b: Bytes)
    ensures |b| == PayloadOffset(compact) + |payload|
  {
    PutObjectHeader(DATA, if compressed then ZSTD else 0, PayloadOffset(compact) + |payload|)
    + Zeros(24) + Put(entry, 8) + Zeros(8) + Put(n, 8) + Zeros(if compact then 8 else 0) + payload
  }

  // ---- Each is read back ----

  predicate Narrow(off: nat, compact: bool) { off < if compact then TWO32 else TWO64 }

  lemma ItemIsRead(off: nat, stride: nat, compact: bool, rest: Bytes)
    requires stride >= (if compact then 4 else 8) && Narrow(off, compact)
    ensures Slot(PutItem(off, stride, compact) + rest, compact) == off
  {
    hide Put, Get;
    var b := PutItem(off, stride, compact) + rest;
    if compact {
      assert b[0..4] == Put(off, 4);
      GetPut32(off);
    } else {
      assert b[0..8] == Put(off, 8);
      GetPut64(off);
    }
  }

  lemma {:induction false} ItemsAreRead(offs: seq<nat>, stride: nat, compact: bool)
    requires stride >= (if compact then 4 else 8) && forall i :: 0 <= i < |offs| ==> Narrow(offs[i], compact)
    ensures Slots(PutItems(offs, stride, compact), stride, compact) == offs
    decreases |offs|
  {
    hide PutItem, Slot, Narrow;
    if offs != [] {
      var rest := PutItems(offs[1..], stride, compact);
      ItemIsRead(offs[0], stride, compact, rest);
      Seqs.AppendParts(PutItem(offs[0], stride, compact), rest);
      ItemsAreRead(offs[1..], stride, compact);
      assert |PutItem(offs[0], stride, compact) + rest| >= stride;
    }
  }

  lemma {:induction false} NonZeroIdle(s: seq<nat>)
    requires 0 !in s
    ensures NonZero(s) == s
    decreases |s|
  {
    if s != [] { NonZeroIdle(s[1..]); }
  }

  /** The header of an object is read back. */
  lemma ObjectHeaderIsRead(typ: byte, flags: byte, size: nat, rest: Bytes)
    requires size < TWO64
    ensures
      var b := PutObjectHeader(typ, flags, size) + rest;
      b[0] == typ && b[1] == flags && ParseObjectHeader(b[..OBJECT_HEADER]) == ObjectHeader(typ, flags, size)
  {
    hide Put, Get;
    var h := PutObjectHeader(typ, flags, size);
    Seqs.AppendParts(h, rest);
    assert h[8..16] == Put(size, 8);
    GetPut64(size);
  }

  lemma ArrayIsRead(next: nat, items: seq<nat>, compact: bool)
    requires next < TWO64 && forall i :: 0 <= i < |items| ==> Narrow(items[i], compact)
    ensures ArrayOf(EncodeArray(next, items, compact), compact) == Some(EntryArray(next, items))
  {
    hide Put, Get, PutItems, PutObjectHeader, Slots, Narrow;
    var b := EncodeArray(next, items, compact);
    ItemsAreRead(items, ArrayStride(compact), compact);
    assert b[16..24] == Put(next, 8);
    assert b[ARRAY_ITEMS..] == PutItems(items, ArrayStride(compact), compact);
    GetPut64(next);
  }

  ghost predicate EntryFits(e: EntryObject, compact: bool) {
    && e.seqnum < TWO64 && e.realtime < TWO64 && e.monotonic < TWO64 && e.xorHash < TWO64
    && |e.bootID| == 16
    && forall i :: 0 <= i < |e.dataOffsets| ==> Narrow(e.dataOffsets[i], compact) && e.dataOffsets[i] != 0
  }

  lemma EntrySlices(h: Bytes, s: Bytes, r: Bytes, m: Bytes, boot: Bytes, x: Bytes, items: Bytes)
    requires |h| == |boot| == 16 && |s| == |r| == |m| == |x| == 8
    ensures
      var b := h + s + r + m + boot + x + items;
      b[16..24] == s && b[24..32] == r && b[32..40] == m && b[40..56] == boot && b[56..64] == x && b[64..] == items
  {
  }

  lemma EntryIsRead(e: EntryObject, compact: bool)
    requires EntryFits(e, compact)
    ensures EntryOf(EncodeEntry(e, compact), compact) == Some(e)
  {
    hide Put, Get, PutItems, PutObjectHeader, Slots, NonZero, Narrow;
    var stride := EntryStride(compact);
    var items := PutItems(e.dataOffsets, stride, compact);
    EntrySlices(PutObjectHeader(ENTRY, 0, ENTRY_ITEMS + stride * |e.dataOffsets|), Put(e.seqnum, 8),
                Put(e.realtime, 8), Put(e.monotonic, 8), e.bootID, Put(e.xorHash, 8), items);
    ItemsAreRead(e.dataOffsets, stride, compact);
    NonZeroIdle(e.dataOffsets);
    GetPut64(e.seqnum);
    GetPut64(e.realtime);
    GetPut64(e.monotonic);
    GetPut64(e.xorHash);
  }

  lemma DataIsRead(payload: Bytes, compressed: bool, entry: nat, n: nat, compact: bool)
    ensures DataOf(EncodeData(payload, compressed, entry, n, compact), compact)
            == Some(if compressed then Compressed(Zstd) else Cut(payload))
  {
    hide Put, Cut;
    var b := EncodeData(payload, compressed, entry, n, compact);
    assert b[1] == if compressed then ZSTD else 0;
    assert b[PayloadOffset(compact)..] == payload;
  }
}
