/** Building a journal file in place: plan every offset, then fill a zeroed buffer. */
module JournalWriter {
  import opened ByteStrings
  import opened JournalFormat
  import opened JournalLayout
  import opened JournalBuilder
  import LittleEndian
  import Seqs

  // ---- Writing into a zeroed buffer ----

  /** The buffer holds `front` and is zero from there on. */
  ghost predicate Filled(buf: array<byte>, front: Bytes)
    reads buf
  {
    |front| <= buf.Length && buf[..] == front + Zeros(buf.Length - |front|)
  }

  /** Copies `data` to just past the written part, or `gap` zero bytes further on. */
  method PutBytes(buf: array<byte>, ghost front: Bytes, gap: nat, off: nat, data: Bytes)
    requires Filled(buf, front) && off == |front| + gap && off + |data| <= buf.Length
    modifies buf
    ensures Filled(buf, front + Zeros(gap) + data)
  {
    ghost var was := buf[..];
    for k := 0 to |data|
      invariant buf[..off] == was[..off] && buf[off..off + k] == data[..k]
      invariant buf[off + k..] == was[off + k..]
    {
      buf[off + k] := data[k];
      assert data[..k + 1] == data[..k] + [data[k]];
      assert buf[off..off + k + 1] == buf[off..off + k] + [buf[off + k]];
    }
    FillGap(was, buf[..], front, gap, data);
  }

  lemma FillGap(was: Bytes, now: Bytes, front: Bytes, gap: nat, data: Bytes)
    requires |now| == |was| && |front| + gap + |data| <= |was| && was == front + Zeros(|was| - |front|)
    requires
      var off := |front| + gap;
      now[..off] == was[..off] && now[off..off + |data|] == data && now[off + |data|..] == was[off + |data|..]
    ensures now == front + Zeros(gap) + data + Zeros(|was| - |front| - gap - |data|)
  {
    var off := |front| + gap;
    assert was[..off] == front + Zeros(gap);
    assert was[off + |data|..] == Zeros(|was| - off - |data|);
    assert now == now[..off] + now[off..off + |data|] + now[off + |data|..];
  }

  lemma NoGap(front: Bytes, data: Bytes)
    ensures front + Zeros(0) + data == front + data
  {
    assert front + Zeros(0) == front;
  }

  /** Zero bytes past the written part are as good as written. */
  lemma FilledPast(buf: array<byte>, front: Bytes, n: nat)
    requires Filled(buf, front) && |front| + n <= buf.Length
    ensures Filled(buf, front + Zeros(n))
  {
    var m := buf.Length - |front|;
    assert Zeros(m) == Zeros(n) + Zeros(m - n);
    Seqs.Assoc(front, Zeros(n), Zeros(m - n));
  }

  method Append(buf: array<byte>, ghost front: Bytes, off: nat, data: Bytes)
    requires Filled(buf, front) && off == |front| && off + |data| <= buf.Length
    modifies buf
    ensures Filled(buf, front + data)
  {
    PutBytes(buf, front, 0, off, data);
    NoGap(front, data);
  }

  method WriteObjectHeader(buf: array<byte>, ghost front: Bytes, off: nat, typ: byte, flags: byte, size: nat)
    requires Filled(buf, front) && off == |front| && off + OBJECT_HEADER <= buf.Length
    modifies buf
    ensures Filled(buf, front + PutObjectHeader(typ, flags, size))
  {
    Append(buf, front, off, [typ, flags]);
    PutBytes(buf, front + [typ, flags], 6, off + 8, LittleEndian.Put(size, 8));
    Regroup3(front, [typ, flags], Zeros(6), LittleEndian.Put(size, 8));
  }

  lemma Regroup3(f: Bytes, a: Bytes, b: Bytes, c: Bytes)
    ensures f + a + b + c == f + (a + b + c)
  {
  }

  method WriteItem(buf: array<byte>, ghost front: Bytes, off: nat, v: nat, stride: nat, compact: bool)
    requires stride >= (if compact then 4 else 8)
    requires Filled(buf, front) && off == |front| && off + stride <= buf.Length
    modifies buf
    ensures Filled(buf, front + PutItem(v, stride, compact))
  {
    var width := if compact then 4 else 8;
    var item := LittleEndian.Put(v, width);
    Append(buf, front, off, item);
    FilledPast(buf, front + item, stride - width);
    Seqs.Assoc(front, item, Zeros(stride - width));
  }

  lemma {:induction false} PutItemsSnoc(offs: seq<nat>, v: nat, stride: nat, compact: bool)
    requires stride >= if compact then 4 else 8
    ensures PutItems(offs + [v], stride, compact) == PutItems(offs, stride, compact) + PutItem(v, stride, compact)
    decreases |offs|
  {
    hide PutItem;
    if offs == [] {
      Seqs.TakeAll(PutItem(v, stride, compact));
    } else {
      assert (offs + [v])[1..] == offs[1..] + [v];
      PutItemsSnoc(offs[1..], v, stride, compact);
      Seqs.Assoc(PutItem(offs[0], stride, compact), PutItems(offs[1..], stride, compact), PutItem(v, stride, compact));
    }
  }

  method WriteItems(buf: array<byte>, ghost front: Bytes, off: nat, offs: seq<nat>, stride: nat, compact: bool)
    requires stride >= (if compact then 4 else 8)
    requires Filled(buf, front) && off == |front| && off + stride * |offs| <= buf.Length
    modifies buf
    ensures Filled(buf, front + PutItems(offs, stride, compact))
  {
    hide PutItem, Filled;
    Seqs.TakeAll(front);
    var at := off;
    for j := 0 to |offs|
      invariant Filled(buf, front + PutItems(offs[..j], stride, compact))
      invariant at == off + stride * j
    {
      ItemRoom(stride, j, |offs|);
      ghost var done := PutItems(offs[..j], stride, compact);
      WriteItem(buf, front + done, at, offs[j], stride, compact);
      assert offs[..j + 1] == offs[..j] + [offs[j]];
      PutItemsSnoc(offs[..j], offs[j], stride, compact);
      Seqs.Assoc(front, done, PutItem(offs[j], stride, compact));
      at := at + stride;
    }
    Seqs.TakeAll(offs);
  }

  lemma ItemRoom(stride: nat, j: nat, n: nat)
    requires j < n
    ensures stride * j + stride == stride * (j + 1) <= stride * n
  {
  }

  // ---- Objects ----

  method WriteData(buf: array<byte>, ghost front: Bytes, off: nat, x: Pair, entry: nat, n: nat, compact: bool)
    requires Filled(buf, front) && off == |front|
    requires off + PayloadOffset(compact) + |x.payload| <= buf.Length
    modifies buf
    ensures Filled(buf, front + EncodeData(x.payload, x.compressed, entry, n, compact))
  {
    hide Filled, PutObjectHeader, LittleEndian.Put;
    var flags: byte := if x.compressed then ZSTD else 0;
    var size := PayloadOffset(compact) + |x.payload|;
    ghost var h := PutObjectHeader(DATA, flags, size);
    WriteObjectHeader(buf, front, off, DATA, flags, size);
    var e, c := LittleEndian.Put(entry, 8), LittleEndian.Put(n, 8);
    PutBytes(buf, front + h, 24, off + 40, e);
    ghost var f1 := front + h + Zeros(24) + e;
    PutBytes(buf, f1, 8, off + 56, c);
    ghost var f2 := f1 + Zeros(8) + c;
    var wide := if compact then 8 else 0;
    PutBytes(buf, f2, wide, off + PayloadOffset(compact), x.payload);
    RegroupData(front, h, Zeros(24), e, Zeros(8), c, Zeros(wide), x.payload);
  }

  lemma RegroupData(f: Bytes, a: Bytes, b: Bytes, c: Bytes, d: Bytes, e: Bytes, g: Bytes, h: Bytes)
    ensures f + a + b + c + d + e + g + h == f + (a + b + c + d + e + g + h)
  {
  }

  method WriteEntry(buf: array<byte>, ghost front: Bytes, off: nat, e: EntryObject, compact: bool)
    requires |e.bootID| == 16 && Filled(buf, front) && off == |front|
    requires off + ENTRY_ITEMS + EntryStride(compact) * |e.dataOffsets| <= buf.Length
    modifies buf
    ensures Filled(buf, front + EncodeEntry(e, compact))
  {
    hide Filled, PutObjectHeader, PutItems, LittleEndian.Put;
    var stride := EntryStride(compact);
    var size := ENTRY_ITEMS + stride * |e.dataOffsets|;
    ghost var h := PutObjectHeader(ENTRY, 0, size);
    var s, r := LittleEndian.Put(e.seqnum, 8), LittleEndian.Put(e.realtime, 8);
    var m, x := LittleEndian.Put(e.monotonic, 8), LittleEndian.Put(e.xorHash, 8);
    WriteObjectHeader(buf, front, off, ENTRY, 0, size);
    Append(buf, front + h, off + 16, s);
    Append(buf, front + h + s, off + 24, r);
    Append(buf, front + h + s + r, off + 32, m);
    Append(buf, front + h + s + r + m, off + 40, e.bootID);
    Append(buf, front + h + s + r + m + e.bootID, off + 56, x);
    WriteItems(buf, front + h + s + r + m + e.bootID + x, off + 64, e.dataOffsets, stride, compact);
    RegroupEntry(front, h, s, r, m, e.bootID, x, PutItems(e.dataOffsets, stride, compact));
  }

  lemma RegroupEntry(f: Bytes, a: Bytes, b: Bytes, c: Bytes, d: Bytes, e: Bytes, g: Bytes, h: Bytes)
    ensures f + a + b + c + d + e + g + h == f + (a + b + c + d + e + g + h)
  {
  }

  method WriteArray(buf: array<byte>, ghost front: Bytes, off: nat, next: nat, items: seq<nat>, compact: bool)
    requires Filled(buf, front) && off == |front|
    requires off + ARRAY_ITEMS + ArrayStride(compact) * |items| <= buf.Length
    modifies buf
    ensures Filled(buf, front + EncodeArray(next, items, compact))
  {
    hide Filled, PutObjectHeader, PutItems, LittleEndian.Put;
    var stride := ArrayStride(compact);
    var size := ARRAY_ITEMS + stride * |items|;
    ghost var h := PutObjectHeader(ENTRY_ARRAY, 0, size);
    var n := LittleEndian.Put(next, 8);
    WriteObjectHeader(buf, front, off, ENTRY_ARRAY, 0, size);
    Append(buf, front + h, off + 16, n);
    WriteItems(buf, front + h + n, off + 24, items, stride, compact);
    Regroup3(front, h, n, PutItems(items, stride, compact));
  }

  // ---- The plan ----

  lemma {:induction false} DistinctSnoc(got: seq<Pair>, ps: seq<Pair>, x: Pair)
    ensures
      var d := Distinct(got, ps);
      Distinct(got, ps + [x]) == if x in d then d else d + [x]
    decreases |ps|
  {
    if ps == [] {
      assert ps + [x] == [x];
    } else {
      assert (ps + [x])[1..] == ps[1..] + [x];
      DistinctSnoc(if ps[0] in got then got else got + [ps[0]], ps[1..], x);
    }
  }

  lemma {:induction false} IndexOfMore(ps: seq<Pair>, x: Pair, y: Pair)
    ensures x in ps ==> x in ps + [y] && IndexOf(ps + [y], x) == IndexOf(ps, x)
    ensures y !in ps ==> IndexOf(ps + [y], y) == |ps|
    decreases |ps|
  {
    if ps != [] {
      assert (ps + [y])[1..] == ps[1..] + [y];
      IndexOfMore(ps[1..], x, y);
    }
  }

  lemma {:induction false} AllPairsSnoc(es: seq<TestEntry>, i: nat)
    requires i < |es|
    ensures AllPairs(es[..i + 1]) == AllPairs(es[..i]) + PairsOf(es[i].fields)
    decreases |es|
  {
    hide PairsOf;
    if i == 0 {
      assert es[..1] == [es[0]];
      Seqs.TakeAll(PairsOf(es[0].fields));
      assert AllPairs([es[0]]) == PairsOf(es[0].fields) + AllPairs([]);
    } else {
      assert es[..i + 1][1..] == es[1..][..i] && es[..i][1..] == es[1..][..i - 1];
      AllPairsSnoc(es[1..], i - 1);
      Seqs.Assoc(PairsOf(es[0].fields), AllPairs(es[1..][..i - 1]), PairsOf(es[i].fields));
    }
  }

  lemma {:induction false} FirstIs(es: seq<TestEntry>, i: nat, x: Pair)
    requires i < |es| && x !in AllPairs(es[..i]) && x in PairsOf(es[i].fields)
    ensures x in AllPairs(es) && FirstEntry(es, x) == i
    decreases |es|
  {
    hide PairsOf;
    if i > 0 {
      assert es[..i][1..] == es[1..][..i - 1];
      FirstIs(es[1..], i - 1, x);
    }
  }

  /** The data objects planned so far, after the pairs `seen`. */
  ghost predicate Planned(es: seq<TestEntry>, seen: seq<Pair>, data: seq<Pair>, first: seq<nat>, n: seq<nat>,
                          byPair: map<Pair, nat>)
  {
    data == Distinct([], seen) && Indexed(data, byPair) && Tallied(seen, data, n) && FirstSeen(es, data, first)
  }

  /** Each object is found by its pair. */
  ghost predicate Indexed(data: seq<Pair>, byPair: map<Pair, nat>) {
    && (forall x :: x in byPair <==> x in data)
    && (forall x :: x in data ==> byPair[x] == IndexOf(data, x))
  }

  /** Each object counts the times its pair was seen. */
  ghost predicate Tallied(seen: seq<Pair>, data: seq<Pair>, n: seq<nat>) {
    |n| == |data| && forall j :: 0 <= j < |data| ==> n[j] == multiset(seen)[data[j]]
  }

  /** Each object knows the first entry that carries its pair. */
  ghost predicate FirstSeen(es: seq<TestEntry>, data: seq<Pair>, first: seq<nat>) {
    |first| == |data|
    && forall j :: 0 <= j < |data| ==> data[j] in AllPairs(es) && first[j] == FirstEntry(es, data[j])
  }

  lemma SeenAgain(es: seq<TestEntry>, seen: seq<Pair>, data: seq<Pair>, first: seq<nat>, n: seq<nat>,
                  byPair: map<Pair, nat>, x: Pair)
    requires Planned(es, seen, data, first, n, byPair) && x in byPair
    ensures byPair[x] < |n|
    ensures Planned(es, seen + [x], data, first, n[byPair[x] := n[byPair[x]] + 1], byPair)
  {
    hide Distinct, FirstEntry, AllPairs;
    DistinctSnoc([], seen, x);
    assert multiset(seen + [x]) == multiset(seen) + multiset{x};
    forall j | 0 <= j < |data| && data[j] == x ensures j == byPair[x] { DistinctOnce(seen, j, byPair[x]); }
  }

  ghost predicate Different(s: seq<Pair>) {
    forall i, j :: 0 <= i < j < |s| ==> s[i] != s[j]
  }

  lemma DifferentMore(s: seq<Pair>, x: Pair)
    requires Different(s) && x !in s
    ensures Different(s + [x])
  {
  }

  lemma {:induction false} DistinctApart(got: seq<Pair>, ps: seq<Pair>)
    requires Different(got)
    ensures Different(Distinct(got, ps))
    decreases |ps|
  {
    hide Different;
    if ps != [] {
      if ps[0] !in got { DifferentMore(got, ps[0]); }
      DistinctApart(if ps[0] in got then got else got + [ps[0]], ps[1..]);
    }
  }

  lemma DistinctOnce(seen: seq<Pair>, i: nat, j: nat)
    requires i < |Distinct([], seen)| && j < |Distinct([], seen)| && Distinct([], seen)[i] == Distinct([], seen)[j]
    ensures i == j
  {
    DistinctApart([], seen);
  }

  lemma SeenFirst(es: seq<TestEntry>, seen: seq<Pair>, data: seq<Pair>, first: seq<nat>, n: seq<nat>,
                  byPair: map<Pair, nat>, x: Pair, i: nat)
    requires Planned(es, seen, data, first, n, byPair) && x !in byPair
    requires x in AllPairs(es) && FirstEntry(es, x) == i
    ensures Planned(es, seen + [x], data + [x], first + [i], n + [1], byPair[x := |data|])
  {
    hide Distinct, FirstEntry, AllPairs, IndexOf, Tallied;
    DistinctSnoc([], seen, x);
    IndexedMore(data, byPair, x);
    TalliedMore(seen, data, n, x);
  }

  lemma IndexedMore(data: seq<Pair>, byPair: map<Pair, nat>, x: Pair)
    requires Indexed(data, byPair) && x !in byPair
    ensures Indexed(data + [x], byPair[x := |data|])
  {
    hide IndexOf;
    forall y | y in data + [x] ensures byPair[x := |data|][y] == IndexOf(data + [x], y) {
      IndexOfMore(data, y, x);
    }
  }

  lemma TalliedMore(seen: seq<Pair>, data: seq<Pair>, n: seq<nat>, x: Pair)
    requires Tallied(seen, data, n) && data == Distinct([], seen) && x !in data
    ensures Tallied(seen + [x], data + [x], n + [1])
  {
    hide Distinct;
    NotSeen(seen, x);
    assert multiset(seen + [x]) == multiset(seen) + multiset{x};
    forall j | 0 <= j < |data + [x]| ensures (n + [1])[j] == multiset(seen + [x])[(data + [x])[j]] {
      if j < |data| { assert data[j] in data; }
    }
  }

  lemma NotSeen(seen: seq<Pair>, x: Pair)
    requires x !in Distinct([], seen)
    ensures multiset(seen)[x] == 0
  {
    assert x !in seen;
  }

  /** One data object for each distinct pair, in order of first appearance. */
  method CollectData(b: Builder)
    returns (data: seq<Pair>, first: seq<nat>, n: seq<nat>, byPair: map<Pair, nat>)
    ensures Planned(b.entries, AllPairs(b.entries), data, first, n, byPair) && data == PlanData(b)
  {
    hide Distinct, FirstEntry, AllPairs, IndexOf, PairOf, Planned;
    data, first, n, byPair := [], [], [], map[];
    NothingPlanned(b.entries);
    assert b.entries[..0] == [];
    for i := 0 to |b.entries|
      invariant Planned(b.entries, AllPairs(b.entries[..i]), data, first, n, byPair)
    {
      var fs := b.entries[i].fields;
      ghost var before, own := AllPairs(b.entries[..i]), PairsOf(fs);
      Seqs.TakeAll(before);
      for q := 0 to |fs|
        invariant Planned(b.entries, before + own[..q], data, first, n, byPair)
      {
        var x := PairOf(fs[q]);
        assert own[q] == x && own[..q + 1] == own[..q] + [x];
        Seqs.Assoc(before, own[..q], [x]);
        if x in byPair {
          SeenAgain(b.entries, before + own[..q], data, first, n, byPair, x);
          n := n[byPair[x] := n[byPair[x]] + 1];
        } else {
          NotBefore(b.entries, before, own[..q], data, first, n, byPair, x);
          FirstIs(b.entries, i, x);
          SeenFirst(b.entries, before + own[..q], data, first, n, byPair, x, i);
          byPair := byPair[x := |data|];
          data, first, n := data + [x], first + [i], n + [1];
        }
      }
      Seqs.TakeAll(own);
      AllPairsSnoc(b.entries, i);
    }
    Seqs.TakeAll(b.entries);
    AllPlanned(b, data, first, n, byPair);
  }

  lemma AllPlanned(b: Builder, data: seq<Pair>, first: seq<nat>, n: seq<nat>, byPair: map<Pair, nat>)
    requires Planned(b.entries, AllPairs(b.entries), data, first, n, byPair)
    ensures data == PlanData(b)
  {
  }

  lemma NothingPlanned(es: seq<TestEntry>)
    ensures Planned(es, AllPairs([]), [], [], [], map[])
  {
  }

  lemma NotBefore(es: seq<TestEntry>, before: seq<Pair>, own: seq<Pair>, data: seq<Pair>, first: seq<nat>,
                  n: seq<nat>, byPair: map<Pair, nat>, x: Pair)
    requires Planned(es, before + own, data, first, n, byPair) && x !in byPair
    ensures x !in before
  {
    hide Distinct, FirstEntry, AllPairs, IndexOf;
    assert x !in before + own;
  }

  // ---- Where everything goes ----

  function Advance(off: nat, size: nat): nat { (off + size + 7) / 8 * 8 }

  lemma AdvanceIsNext(sizes: seq<nat>, i: nat)
    requires i < |sizes|
    ensures Advance(Start(sizes, i), sizes[i]) == Start(sizes, i + 1)
  {
    var off, size := Start(sizes, i), sizes[i];
    assert (off + size + 7) / 8 == off / 8 + (size + 7) / 8;
  }

  method PlaceData(b: Builder, data: seq<Pair>) returns (starts: seq<nat>, at: nat)
    requires data == PlanData(b)
    ensures |starts| == |data| && forall j :: 0 <= j < |data| ==> starts[j] == DataStart(b, j)
    ensures at == Start(PreSizes(b), 2 + |data|)
  {
    hide PlanData, Start, EntrySizes;
    FirstStart(PreSizes(b));
    at := HEADER_SIZE;
    AdvanceIsNext(PreSizes(b), 0);
    at := Advance(at, TABLE_SIZE);
    AdvanceIsNext(PreSizes(b), 1);
    at := Advance(at, TABLE_SIZE);
    starts := [];
    for j := 0 to |data|
      invariant at == Start(PreSizes(b), 2 + j)
      invariant |starts| == j && forall k :: 0 <= k < j ==> starts[k] == DataStart(b, k)
    {
      starts := starts + [at];
      AdvanceIsNext(PreSizes(b), 2 + j);
      assert PreSizes(b)[2 + j] == DataSizes(b)[j];
      at := Advance(at, PayloadOffset(b.compact) + |data[j].payload|);
    }
  }

  lemma FirstStart(sizes: seq<nat>)
    ensures Start(sizes, 0) == HEADER_SIZE
  {
  }

  method PlaceEntries(b: Builder, from: nat) returns (starts: seq<nat>, at: nat)
    requires from == Start(PreSizes(b), 2 + |PlanData(b)|)
    ensures starts == EntryStarts(b) && at == Start(PreSizes(b), |PreSizes(b)|)
  {
    hide PlanData, Start, DataSizes;
    at := from;
    starts := [];
    for i := 0 to |b.entries|
      invariant at == Start(PreSizes(b), 2 + |PlanData(b)| + i)
      invariant |starts| == i && forall k :: 0 <= k < i ==> starts[k] == EntryStart(b, k)
    {
      starts := starts + [at];
      AdvanceIsNext(PreSizes(b), 2 + |PlanData(b)| + i);
      assert PreSizes(b)[2 + |PlanData(b)| + i] == EntrySizes(b)[i];
      at := Advance(at, ENTRY_ITEMS + EntryStride(b.compact) * |b.entries[i].fields|);
    }
  }

  method PlaceArrays(b: Builder, from: nat) returns (starts: seq<nat>, at: nat)
    requires from == Start(PreSizes(b), |PreSizes(b)|)
    ensures |starts| == |PlanArrays(b)| && forall k :: 0 <= k < |starts| ==> starts[k] == ArrayStart(b, k)
    ensures at == End(b)
  {
    hide PlanArrays, Start, PreSizes, ArrayItems;
    at := from;
    StartOfPrefix(PreSizes(b), ArraySizes(b), |PreSizes(b)|);
    starts := [];
    for k := 0 to |PlanArrays(b)|
      invariant at == Start(Sizes(b), |PreSizes(b)| + k)
      invariant |starts| == k && forall i :: 0 <= i < k ==> starts[i] == ArrayStart(b, i)
    {
      starts := starts + [at];
      AdvanceIsNext(Sizes(b), |PreSizes(b)| + k);
      assert Sizes(b)[|PreSizes(b)| + k] == ArraySizes(b)[k];
      at := Advance(at, ARRAY_ITEMS + ArrayStride(b.compact) * |ArrayItems(b, k)|);
    }
  }

  // ---- The whole file ----

  /** Copies the finished header over the zeroes at the start. */
  method WriteHeader(buf: array<byte>, h: Bytes, ghost body: Bytes)
    requires |h| == HEADER_SIZE && buf[..] == Zeros(HEADER_SIZE) + body
    modifies buf
    ensures buf[..] == h + body
  {
    for k := 0 to |h|
      invariant buf[..k] == h[..k] && buf[HEADER_SIZE..] == body
    {
      buf[k] := h[k];
      assert buf[..k + 1] == buf[..k] + [buf[k]] && h[..k + 1] == h[..k] + [h[k]];
    }
    assert buf[..] == buf[..HEADER_SIZE] + buf[HEADER_SIZE..];
  }

  /** The written part once the first `i` objects are in. */
  ghost function Front(b: Builder, i: nat): (f: Bytes)
    requires WellFormed(b) && i <= |Objects(b)|
  {
    Zeros(HEADER_SIZE) + Body(Objects(b)[..i])
  }

  /** Object `i` goes exactly where the written part ends, and padded it ends where the next begins. */
  lemma NextObject(b: Builder, i: nat)
    requires WellFormed(b) && i < |Objects(b)|
    ensures |Objects(b)| == |Sizes(b)| && |Objects(b)[i]| == Sizes(b)[i]
    ensures |Front(b, i)| == Start(Sizes(b), i)
    ensures Start(Sizes(b), i) + Up8(Sizes(b)[i]) <= End(b)
    ensures Front(b, i + 1) == Front(b, i) + Objects(b)[i] + Zeros(Up8(Sizes(b)[i]) - Sizes(b)[i])
  {
    hide Objects, Sizes, Body, Start, Zeros;
    SizesMatch(b);
    var objs := Objects(b);
    StartBefore(objs, Sizes(b), i);
    StartStep(Sizes(b), i);
    StartsBelow(Sizes(b), i + 1);
    assert objs[..i + 1] == objs[..i] + [objs[i]];
    BodyOfAppend(objs[..i], [objs[i]]);
    BodyOfOne(objs[i]);
    Regroup3(Zeros(HEADER_SIZE), Body(objs[..i]), objs[i], Zeros(Up8(|objs[i]|) - |objs[i]|));
    Seqs.Assoc(Body(objs[..i]), objs[i], Zeros(Up8(|objs[i]|) - |objs[i]|));
  }

  lemma StartStep(sizes: seq<nat>, i: nat)
    requires i < |sizes|
    ensures Start(sizes, i + 1) == Start(sizes, i) + Up8(sizes[i])
  {
  }

  /** After an object is written, its padding counts as written too. */
  lemma Padded(buf: array<byte>, b: Builder, i: nat)
    requires WellFormed(b) && i < |Objects(b)| && buf.Length == End(b)
    requires Filled(buf, Front(b, i) + Objects(b)[i])
    ensures i < |Sizes(b)| && Filled(buf, Front(b, i + 1))
  {
    hide Objects, Sizes, Start, Front, Filled, Zeros;
    NextObject(b, i);
    FilledPast(buf, Front(b, i) + Objects(b)[i], Up8(Sizes(b)[i]) - Sizes(b)[i]);
  }

  method WriteTable(buf: array<byte>, ghost b: Builder, i: nat, off: nat, typ: byte)
    requires WellFormed(b) && i < |Objects(b)| && Objects(b)[i] == Table(typ) && buf.Length == End(b)
    requires i < |Sizes(b)| && off == Start(Sizes(b), i) && Filled(buf, Front(b, i))
    modifies buf
    ensures Filled(buf, Front(b, i + 1))
  {
    hide Objects, Sizes, Start, Front, Filled, Zeros, PutObjectHeader;
    NextObject(b, i);
    WriteObjectHeader(buf, Front(b, i), off, typ, 0, TABLE_SIZE);
    FilledPast(buf, Front(b, i) + PutObjectHeader(typ, 0, TABLE_SIZE), 64);
    Seqs.Assoc(Front(b, i), PutObjectHeader(typ, 0, TABLE_SIZE), Zeros(64));
    Padded(buf, b, i);
  }

  /** The two hash tables, present and empty. */
  method WriteTables(buf: array<byte>, ghost b: Builder)
    requires WellFormed(b) && buf.Length == End(b) && Filled(buf, Front(b, 0))
    modifies buf
    ensures 2 <= |Objects(b)| && Filled(buf, Front(b, 2))
  {
    hide Objects, Sizes, Start, Front, Filled, Table;
    SizesMatch(b);
    TableStarts(b);
    WriteTable(buf, b, 0, HEADER_SIZE, DATA_HASH_TABLE);
    WriteTable(buf, b, 1, Advance(HEADER_SIZE, TABLE_SIZE), FIELD_HASH_TABLE);
  }

  method WriteAllData(buf: array<byte>, b: Builder, data: seq<Pair>, first: seq<nat>, n: seq<nat>,
                      starts: seq<nat>, entryStarts: seq<nat>)
    requires WellFormed(b) && buf.Length == End(b) && 2 <= |Objects(b)| && Filled(buf, Front(b, 2))
    requires data == PlanData(b) && |first| == |n| == |starts| == |data| && entryStarts == EntryStarts(b)
    requires forall j :: 0 <= j < |data| ==> starts[j] == DataStart(b, j)
    requires forall j :: 0 <= j < |data| ==>
               data[j] in AllPairs(b.entries) && first[j] == FirstEntry(b.entries, data[j])
               && n[j] == multiset(AllPairs(b.entries))[data[j]]
    modifies buf
    ensures 2 + |data| <= |Objects(b)| && Filled(buf, Front(b, 2 + |data|))
  {
    hide Objects, Sizes, Start, Front, Filled, EncodeData, PlanData, DataStart, AllPairs, EntryStart, DataSizes;
    for j := 0 to |data|
      invariant 2 + j <= |Objects(b)| && Filled(buf, Front(b, 2 + j))
    {
      DataPlace(b, j);
      NextObject(b, 2 + j);
      WriteData(buf, Front(b, 2 + j), starts[j], data[j], entryStarts[first[j]], n[j], b.compact);
      Padded(buf, b, 2 + j);
    }
  }

  method WriteAllEntries(buf: array<byte>, b: Builder, data: seq<Pair>, byPair: map<Pair, nat>, starts: seq<nat>,
                         entryStarts: seq<nat>)
    requires WellFormed(b) && buf.Length == End(b) && data == PlanData(b) && |starts| == |data|
    requires 2 + |data| <= |Objects(b)| && Filled(buf, Front(b, 2 + |data|))
    requires (forall x :: x in data ==> x in byPair && byPair[x] == IndexOf(data, x)) && entryStarts == EntryStarts(b)
    requires forall j :: 0 <= j < |data| ==> starts[j] == DataStart(b, j)
    modifies buf
    ensures 2 + |data| + |b.entries| <= |Objects(b)| && Filled(buf, Front(b, 2 + |data| + |b.entries|))
  {
    hide Objects, Sizes, Start, Front, Filled, EncodeEntry, PlanData, EntryStart, EntryObjectAt;
    for i := 0 to |b.entries|
      invariant 2 + |data| + i <= |Objects(b)| && Filled(buf, Front(b, 2 + |data| + i))
    {
      EntryPlace(b, i);
      NextObject(b, 2 + |data| + i);
      var e := PlanEntry(b, i, data, byPair, starts);
      assert WellFormedEntry(b.entries[i]);
      WriteEntry(buf, Front(b, 2 + |data| + i), entryStarts[i], e, b.compact);
      Padded(buf, b, 2 + |data| + i);
    }
  }

  method PlanEntry(b: Builder, i: nat, data: seq<Pair>, byPair: map<Pair, nat>, starts: seq<nat>)
    returns (e: EntryObject)
    requires i < |b.entries| && data == PlanData(b) && |starts| == |data|
    requires forall x :: x in data ==> x in byPair && byPair[x] == IndexOf(data, x)
    requires forall j :: 0 <= j < |data| ==> starts[j] == DataStart(b, j)
    ensures e == EntryObjectAt(b, i)
    ensures e.bootID == b.entries[i].bootID
  {
    hide PlanData, DataStart, PairOf;
    var t := b.entries[i];
    var offsets: seq<nat> := [];
    for q := 0 to |t.fields|
      invariant |offsets| == q && forall k :: 0 <= k < q ==> offsets[k] == FieldStart(b, i, k)
    {
      PairIsPlanned(b.entries, i, q);
      PlannedIsPair(b, PairOf(t.fields[q]));
      offsets := offsets + [starts[byPair[PairOf(t.fields[q])]]];
    }
    e := EntryObject(t.seqnum, t.realtime, t.monotonic, t.xorHash, t.bootID, offsets);
    assert offsets == EntryObjectAt(b, i).dataOffsets;
  }

  method WriteAllArrays(buf: array<byte>, b: Builder, starts: seq<nat>)
    requires WellFormed(b) && buf.Length == End(b) && |starts| == |PlanArrays(b)|
    requires |PreSizes(b)| <= |Objects(b)| && Filled(buf, Front(b, |PreSizes(b)|))
    requires forall k :: 0 <= k < |starts| ==> starts[k] == ArrayStart(b, k)
    modifies buf
    ensures |Objects(b)| == |Sizes(b)| && Filled(buf, Front(b, |Objects(b)|))
  {
    hide Objects, Sizes, Start, Front, Filled, EncodeArray, PlanArrays, ArrayItems, ArrayStart, PreSizes;
    for k := 0 to |starts|
      invariant |PreSizes(b)| + k <= |Objects(b)| && Filled(buf, Front(b, |PreSizes(b)| + k))
    {
      ArrayPlace(b, k);
      NextObject(b, |PreSizes(b)| + k);
      var next := if k + 1 < |starts| then starts[k + 1] else 0;
      WriteArray(buf, Front(b, |PreSizes(b)| + k), starts[k], next, ArrayItems(b, k), b.compact);
      Padded(buf, b, |PreSizes(b)| + k);
    }
    SizesMatch(b);
  }

  /** Everything but the header, planned and then written in place. */
  method WriteObjects(b: Builder) returns (buf: array<byte>)
    requires WellFormed(b)
    ensures fresh(buf) && buf.Length == End(b) && Filled(buf, Front(b, |Objects(b)|))
  {
    hide WellFormed, End, PreSizes, Sizes, Start, Filled, PlanData, PlanArrays, Objects, AllPairs, Body, Front, Zeros;
    var data, first, n, byPair := CollectData(b);
    var dataStarts, afterData := PlaceData(b, data);
    var entryStarts, afterEntries := PlaceEntries(b, afterData);
    var arrayStarts, end := PlaceArrays(b, afterEntries);
    buf := new byte[end](_ => 0);
    Unwritten(buf, b);
    WriteTables(buf, b);
    WriteAllData(buf, b, data, first, n, dataStarts, entryStarts);
    WriteAllEntries(buf, b, data, byPair, dataStarts, entryStarts);
    WriteAllArrays(buf, b, arrayStarts);
  }

  /** The whole file, its header written last. */
  method BuildInPlace(b: Builder) returns (buf: array<byte>)
    requires WellFormed(b)
    ensures fresh(buf) && buf[..] == Build(b)
  {
    hide Sizes, Start, Filled, Header, Objects, Body, Front, Zeros, WellFormed, End;
    buf := WriteObjects(b);
    AllWritten(buf, b);
    WriteHeader(buf, Header(b), Body(Objects(b)));
  }

  lemma Unwritten(buf: array<byte>, b: Builder)
    requires WellFormed(b) && buf.Length == End(b) && forall i :: 0 <= i < buf.Length ==> buf[i] == 0
    ensures Filled(buf, Front(b, 0))
  {
    hide Objects, Sizes, Start;
    assert Objects(b)[..0] == [];
    Seqs.TakeAll(Zeros(HEADER_SIZE));
    assert buf[..] == Zeros(HEADER_SIZE) + Zeros(buf.Length - HEADER_SIZE);
  }

  lemma TableStarts(b: Builder)
    requires WellFormed(b)
    ensures |Objects(b)| >= 2 && Objects(b)[0] == Table(DATA_HASH_TABLE) && Objects(b)[1] == Table(FIELD_HASH_TABLE)
    ensures |Sizes(b)| >= 2 && Start(Sizes(b), 0) == HEADER_SIZE
    ensures Start(Sizes(b), 1) == Advance(HEADER_SIZE, TABLE_SIZE)
  {
    hide PlanData, PlanArrays, Table, DataObjects, EntryObjects, ArrayObjects, DataSizes, EntrySizes, ArraySizes;
    AdvanceIsNext(Sizes(b), 0);
  }

  lemma AllWritten(buf: array<byte>, b: Builder)
    requires WellFormed(b) && buf.Length == End(b) && Filled(buf, Front(b, |Objects(b)|))
    ensures buf[..] == Zeros(HEADER_SIZE) + Body(Objects(b))
  {
    hide Objects, Sizes, Start, Body;
    SizesMatch(b);
    BodyLength(Objects(b), Sizes(b));
    Seqs.TakeAll(Objects(b));
    Seqs.TakeAll(Zeros(HEADER_SIZE) + Body(Objects(b)));
  }
}
