/** The byte form of sync commands and replies. */
module SyncWire {
  import opened ByteStrings
  import opened Options
  import opened LittleEndian
  import Seqs

  type uint32 = n: int | 0 <= n < 0x1_0000_0000
  type uint63 = n: int | 0 <= n < TWO63

  /** One stat reply. Device, inode and size are the device's unsigned values, which must fit a
      signed word; times are signed. */
  datatype Stat = Stat(errno: uint32, dev: uint63, ino: uint63, mode: uint32, nlink: uint32,
                       uid: uint32, gid: uint32, size: uint63,
                       atime: int64, mtime: int64, ctime: int64)

  /** One entry of a listing; the name is raw bytes. */
  datatype Dirent = Dirent(stat: Stat, name: Bytes)

  function LstatId(): Bytes { Ascii("LST2") }
  function StatId(): Bytes { Ascii("STA2") }
  function ListId(): Bytes { Ascii("LIS2") }
  function RecvId(): Bytes { Ascii("RECV") }
  function DentId(): Bytes { Ascii("DNT2") }
  function DataId(): Bytes { Ascii("DATA") }
  function DoneId(): Bytes { Ascii("DONE") }
  function FailId(): Bytes { Ascii("FAIL") }

  lemma IdsDiffer()
    ensures |LstatId()| == |StatId()| == |ListId()| == |RecvId()| == 4
    ensures |DentId()| == |DataId()| == |DoneId()| == |FailId()| == 4
    ensures DentId() != DoneId() && DentId() != FailId() && DataId() != DoneId() && DataId() != FailId()
    ensures DoneId() != FailId()
    ensures LstatId() != FailId() && StatId() != FailId()
  {
    assert DentId()[1] == 78 && DoneId()[1] == 79 && FailId()[1] == 65 && DataId()[0] == 68;
    assert DataId()[1] == 65 && FailId()[0] == 70 && LstatId()[0] == 76 && StatId()[0] == 83;
  }

  const HEADER_LEN := 8
  const STAT_LEN := 72
  const DENT_LEN := 76
  const MAX_CHUNK := 65536
  const MAX_NAME := 4096
  const MAX_PATH := 4096

  // ---- Commands ----

  predicate PathOk(path: Bytes) {
    |path| <= MAX_PATH && forall i :: 0 <= i < |path| ==> path[i] != 0
  }

  function EncodeCommand(id: Bytes, path: Bytes): (b: Bytes) {
    id + Put(|path|, 4) + path
  }

  // ---- Stat bodies ----

  function Signed(v: int): (t: int64)
    requires 0 <= v < TWO64
  {
    if v < TWO63 then v else v - TWO64
  }

  function Unsigned(t: int64): (v: int)
    ensures 0 <= v < TWO64 && Signed(v) == t
  {
    if t < 0 then t + TWO64 else t
  }

  /** The 64 bytes after the error number. */
  function EncodeRest(st: Stat): (b: Bytes)
    ensures |b| == 64
  {
    Put(st.dev, 8) + Put(st.ino, 8) + Put(st.mode, 4) + Put(st.nlink, 4) + Put(st.uid, 4)
    + Put(st.gid, 4) + Put(st.size, 8) + Put(Unsigned(st.atime), 8) + Put(Unsigned(st.mtime), 8)
    + Put(Unsigned(st.ctime), 8)
  }

  function U32(b: Bytes): uint32
    requires |b| == 4
  {
    GetBounds(b);
    Get(b)
  }

  function U64(b: Bytes): (n: int)
    requires |b| == 8
    ensures 0 <= n < TWO64
  {
    GetBounds(b);
    Get(b)
  }

  /** Decodes a stat body; a device, inode or size with its high bit set does not fit. */
  function DecodeStat(errno: Bytes, rest: Bytes): (st: Option<Stat>)
    requires |errno| == 4 && |rest| == 64
  {
    var dev, ino, size := U64(rest[0..8]), U64(rest[8..16]), U64(rest[32..40]);
    if dev >= TWO63 || ino >= TWO63 || size >= TWO63 then None
    else
      Some(Stat(U32(errno), dev, ino, U32(rest[16..20]), U32(rest[20..24]), U32(rest[24..28]),
                U32(rest[28..32]), size, Signed(U64(rest[40..48])), Signed(U64(rest[48..56])),
                Signed(U64(rest[56..64]))))
  }

  /** What each field of a stat body is read from: its place and width on the wire, times in two's complement. */
  lemma StatStands(errno: Bytes, rest: Bytes)
    requires |errno| == 4 && |rest| == 64
    ensures
      var dev, ino, size := Get(rest[0..8]), Get(rest[8..16]), Get(rest[32..40]);
      var r := DecodeStat(errno, rest);
      && (r.Some? <==> dev < TWO63 && ino < TWO63 && size < TWO63)
      && (r.Some? ==>
            && r.value.errno == Get(errno) && r.value.dev == dev && r.value.ino == ino && r.value.size == size
            && r.value.mode == Get(rest[16..20]) && r.value.nlink == Get(rest[20..24])
            && r.value.uid == Get(rest[24..28]) && r.value.gid == Get(rest[28..32])
            && r.value.atime % TWO64 == Get(rest[40..48]) && r.value.mtime % TWO64 == Get(rest[48..56])
            && r.value.ctime % TWO64 == Get(rest[56..64]))
  {
    hide Get;
    GetBounds(rest[40..48]);
    GetBounds(rest[48..56]);
    GetBounds(rest[56..64]);
    WrapsBack(Get(rest[40..48]));
    WrapsBack(Get(rest[48..56]));
    WrapsBack(Get(rest[56..64]));
  }

  lemma WrapsBack(v: int)
    requires 0 <= v < TWO64
    ensures Signed(v) % TWO64 == v
  {
  }

  lemma RestSlices(dev: Bytes, ino: Bytes, mode: Bytes, nlink: Bytes, uid: Bytes, gid: Bytes,
                   size: Bytes, at: Bytes, mt: Bytes, ct: Bytes)
    requires |dev| == |ino| == |size| == |at| == |mt| == |ct| == 8
    requires |mode| == |nlink| == |uid| == |gid| == 4
    ensures
      var b := dev + ino + mode + nlink + uid + gid + size + at + mt + ct;
      && b[0..8] == dev && b[8..16] == ino && b[16..20] == mode && b[20..24] == nlink
      && b[24..28] == uid && b[28..32] == gid && b[32..40] == size && b[40..48] == at
      && b[48..56] == mt && b[56..64] == ct
  {
  }

  lemma RestJoins(b: Bytes)
    requires |b| == 64
    ensures b == b[0..8] + b[8..16] + b[16..20] + b[20..24] + b[24..28] + b[28..32] + b[32..40]
                 + b[40..48] + b[48..56] + b[56..64]
  {
  }

  /** Decoding what was encoded. */
  lemma DecodeEncodeStat(st: Stat)
    ensures DecodeStat(Put(st.errno, 4), EncodeRest(st)) == Some(st)
  {
    hide Put, Get;
    RestSlices(Put(st.dev, 8), Put(st.ino, 8), Put(st.mode, 4), Put(st.nlink, 4), Put(st.uid, 4),
               Put(st.gid, 4), Put(st.size, 8), Put(Unsigned(st.atime), 8),
               Put(Unsigned(st.mtime), 8), Put(Unsigned(st.ctime), 8));
    GetPut32(st.errno);
    GetPut32(st.mode);
    GetPut32(st.nlink);
    GetPut32(st.uid);
    GetPut32(st.gid);
    GetPut64(st.dev);
    GetPut64(st.ino);
    GetPut64(st.size);
    GetPut64(Unsigned(st.atime));
    GetPut64(Unsigned(st.mtime));
    GetPut64(Unsigned(st.ctime));
  }

  lemma PutSigned(b: Bytes)
    requires |b| == 8
    ensures Put(Unsigned(Signed(U64(b))), 8) == b
  {
    PutGet(b);
  }

  /** A body that decodes is the encoding of what it decodes to. */
  lemma EncodeDecodeStat(errno: Bytes, rest: Bytes)
    requires |errno| == 4 && |rest| == 64 && DecodeStat(errno, rest).Some?
    ensures
      var st := DecodeStat(errno, rest).value;
      Put(st.errno, 4) == errno && EncodeRest(st) == rest
  {
    hide Put, Get, Signed, Unsigned;
    PutGet(errno);
    PutGet(rest[0..8]);
    PutGet(rest[8..16]);
    PutGet(rest[16..20]);
    PutGet(rest[20..24]);
    PutGet(rest[24..28]);
    PutGet(rest[28..32]);
    PutGet(rest[32..40]);
    PutSigned(rest[40..48]);
    PutSigned(rest[48..56]);
    PutSigned(rest[56..64]);
    RestJoins(rest);
  }

  // ---- Whole replies ----

  function EncodeStatReply(id: Bytes, st: Stat): (b: Bytes) {
    id + Put(st.errno, 4) + EncodeRest(st)
  }

  function EncodeDirent(d: Dirent): (b: Bytes) {
    EncodeStatReply(DentId(), d.stat) + Put(|d.name|, 4) + d.name
  }

  function EncodeDirents(ds: seq<Dirent>): (b: Bytes) {
    if ds == [] then [] else EncodeDirent(ds[0]) + EncodeDirents(ds[1..])
  }

  /** A listing ends in a whole entry's worth of bytes after DONE, whatever they hold. */
  function EncodeList(ds: seq<Dirent>, body: Bytes): (b: Bytes) {
    EncodeDirents(ds) + (DoneId() + body)
  }

  function EncodeChunk(c: Bytes): (b: Bytes) {
    DataId() + Put(|c|, 4) + c
  }

  function EncodeChunks(cs: seq<Bytes>): (b: Bytes) {
    if cs == [] then [] else EncodeChunk(cs[0]) + EncodeChunks(cs[1..])
  }

  /** A transfer ends in DONE and four bytes, whatever they hold. */
  function EncodeTransfer(cs: seq<Bytes>, arg: Bytes): (b: Bytes) {
    EncodeChunks(cs) + (DoneId() + arg)
  }

  /** What each reply is written with: its four letters, and lengths in four bytes. */
  lemma RepliesAre(st: Stat, d: Dirent, ds: seq<Dirent>, c: Bytes, cs: seq<Bytes>, tail: Bytes)
    ensures EncodeStatReply(LstatId(), st) == Ascii("LST2") + Put(st.errno, 4) + EncodeRest(st)
    ensures EncodeStatReply(StatId(), st) == Ascii("STA2") + Put(st.errno, 4) + EncodeRest(st)
    ensures EncodeDirent(d) == Ascii("DNT2") + Put(d.stat.errno, 4) + EncodeRest(d.stat) + Put(|d.name|, 4) + d.name
    ensures EncodeList(ds, tail) == EncodeDirents(ds) + (Ascii("DONE") + tail)
    ensures EncodeChunk(c) == Ascii("DATA") + Put(|c|, 4) + c
    ensures EncodeTransfer(cs, tail) == EncodeChunks(cs) + (Ascii("DONE") + tail)
  {
    hide EncodeRest, Put;
  }

  // ---- Reading a reply off the head of a stream ----

  /** The stat reply at the head of `s`, when it is whole and well formed. */
  function ReadStat(id: Bytes, s: Bytes): (st: Option<Stat>) {
    if |s| < STAT_LEN || s[..4] != id then None else DecodeStat(s[4..8], s[8..72])
  }

  /** The entry at the head of `s` and its length. */
  function ReadDirent(s: Bytes): (r: Option<(Dirent, nat)>)
    ensures r.Some? ==> DENT_LEN <= r.value.1 <= |s|
  {
    if |s| < DENT_LEN then None
    else
      var st :- DecodeStat(s[4..8], s[8..72]);
      var n := U32(s[72..76]);
      if n > MAX_NAME || |s| < DENT_LEN + n then None
      else Some((Dirent(st, s[76..76 + n]), DENT_LEN + n))
  }

  /** What a listing delivers, how many bytes it takes, and whether it ends as it should. */
  datatype Listing = Listing(entries: seq<Dirent>, used: nat, done: bool)

  /** A callback: given every entry so far, whether it takes the last one. */
  type Taker = seq<Dirent> -> bool

  function ReadList(s: Bytes, got: seq<Dirent>, take: Taker): (l: Listing)
    decreases |s|
  {
    if |s| < HEADER_LEN then Listing(got, 0, false)
    else if s[..4] == DoneId() then
      if |s| < DENT_LEN then Listing(got, 0, false) else Listing(got, DENT_LEN, true)
    else if s[..4] != DentId() then Listing(got, 0, false)
    else
      match ReadDirent(s)
      case None => Listing(got, 0, false)
      case Some(r) =>
        if !take(got + [r.0]) then Listing(got + [r.0], 0, false)
        else
          var l := ReadList(s[r.1..], got + [r.0], take);
          l.(used := l.used + r.1)
  }

  /** A destination: given what it holds and a chunk, how much of it it takes; taking less than all
      of it is an error. */
  type Sink = (Bytes, Bytes) -> nat

  /** How much of `c` a sink holding `held` takes; never more than there is. */
  function Taken(sink: Sink, held: Bytes, c: Bytes): (n: nat)
    ensures n <= |c|
  {
    if sink(held, c) < |c| then sink(held, c) else |c|
  }

  datatype Transfer = Transfer(written: Bytes, used: nat, done: bool)

  function ReadTransfer(s: Bytes, held: Bytes, sink: Sink): (t: Transfer)
    decreases |s|
  {
    if |s| < HEADER_LEN then Transfer(held, 0, false)
    else if s[..4] == DoneId() then Transfer(held, HEADER_LEN, true)
    else if s[..4] != DataId() then Transfer(held, 0, false)
    else
      var n := U32(s[4..8]);
      if n > MAX_CHUNK || |s| < HEADER_LEN + n then Transfer(held, 0, false)
      else
        var c := s[8..8 + n];
        var k := Taken(sink, held, c);
        if k < n then Transfer(held + c[..k], 0, false)
        else
          var t := ReadTransfer(s[8 + n..], held + c, sink);
          t.(used := t.used + 8 + n)
  }

  // ---- Every whole reply is read exactly ----

  predicate DirentOk(d: Dirent) { |d.name| <= 4096 }

  lemma StatDelivered(id: Bytes, st: Stat, t: Bytes)
    requires |id| == 4
    ensures ReadStat(id, EncodeStatReply(id, st) + t) == Some(st)
    ensures |EncodeStatReply(id, st)| == STAT_LEN
  {
    hide EncodeRest, DecodeStat;
    var s := EncodeStatReply(id, st) + t;
    assert s[..4] == id && s[4..8] == Put(st.errno, 4) && s[8..72] == EncodeRest(st);
    DecodeEncodeStat(st);
  }

  lemma DirentDelivered(d: Dirent, t: Bytes)
    requires DirentOk(d)
    ensures
      var b := EncodeDirent(d);
      && |b| == DENT_LEN + |d.name| && (b + t)[..4] == DentId()
      && ReadDirent(b + t) == Some((d, |b|)) && (b + t)[|b|..] == t
  {
    hide EncodeRest, DecodeStat, DentId;
    IdsDiffer();
    var b := EncodeDirent(d);
    var s := b + t;
    DirentSlices(DentId(), Put(d.stat.errno, 4), EncodeRest(d.stat), Put(|d.name|, 4), d.name, t);
    DecodeEncodeStat(d.stat);
    GetPut32(|d.name|);
  }

  lemma DirentSlices(id: Bytes, errno: Bytes, rest: Bytes, len: Bytes, name: Bytes, t: Bytes)
    requires |id| == |errno| == |len| == 4 && |rest| == 64
    ensures
      var b := id + errno + rest + len + name;
      var s := b + t;
      && |b| == DENT_LEN + |name|
      && s[..4] == id && s[4..8] == errno && s[8..72] == rest && s[72..76] == len
      && s[76..76 + |name|] == name && s[|b|..] == t
  {
  }

  ghost predicate TakesAll(take: Taker, got: seq<Dirent>, ds: seq<Dirent>) {
    forall k :: 0 < k <= |ds| ==> take(got + ds[..k])
  }

  /** One whole entry off the head of a stream. */
  lemma ReadListStep(d: Dirent, tail: Bytes, got: seq<Dirent>, take: Taker)
    requires DirentOk(d)
    ensures ReadList(EncodeDirent(d) + tail, got, take) ==
            if !take(got + [d]) then Listing(got + [d], 0, false)
            else
              var l := ReadList(tail, got + [d], take);
              l.(used := l.used + |EncodeDirent(d)|)
  {
    hide ReadDirent, EncodeDirent, DentId, DoneId;
    IdsDiffer();
    DirentDelivered(d, tail);
  }

  lemma EncodeListHead(ds: seq<Dirent>, body: Bytes, t: Bytes)
    requires ds != []
    ensures EncodeList(ds, body) + t == EncodeDirent(ds[0]) + (EncodeList(ds[1..], body) + t)
    ensures |EncodeList(ds, body)| == |EncodeDirent(ds[0])| + |EncodeList(ds[1..], body)|
  {
    hide EncodeDirent, DoneId;
    Seqs.Assoc(EncodeDirent(ds[0]), EncodeDirents(ds[1..]), DoneId() + body);
    Seqs.Assoc(EncodeDirent(ds[0]), EncodeList(ds[1..], body), t);
  }

  lemma ListEnds(body: Bytes, t: Bytes, got: seq<Dirent>, take: Taker)
    requires |body| == 72
    ensures ReadList(EncodeList([], body) + t, got, take) == Listing(got, |EncodeList([], body)|, true)
  {
    IdsDiffer();
    var s := EncodeList([], body) + t;
    assert s == DoneId() + (body + t) && s[..4] == DoneId();
  }

  lemma TakesRest(take: Taker, got: seq<Dirent>, ds: seq<Dirent>)
    requires ds != [] && TakesAll(take, got, ds)
    ensures take(got + [ds[0]]) && TakesAll(take, got + [ds[0]], ds[1..])
    ensures got + [ds[0]] + ds[1..] == got + ds
  {
    assert ds[..1] == [ds[0]];
    forall k | 0 < k <= |ds| - 1 ensures take(got + [ds[0]] + ds[1..][..k]) {
      assert got + ds[..k + 1] == got + [ds[0]] + ds[1..][..k];
    }
  }

  ghost predicate AllOk(ds: seq<Dirent>) {
    forall i :: 0 <= i < |ds| ==> DirentOk(ds[i])
  }

  /** A whole listing delivers exactly its entries and takes exactly its bytes, whatever follows. */
  lemma {:induction false} ListDelivered(ds: seq<Dirent>, body: Bytes, t: Bytes, got: seq<Dirent>,
                                         take: Taker)
    requires |body| == 72 && AllOk(ds) && TakesAll(take, got, ds)
    ensures ReadList(EncodeList(ds, body) + t, got, take)
            == Listing(got + ds, |EncodeList(ds, body)|, true)
    decreases |ds|
  {
    hide EncodeDirent, EncodeList, ReadList, TakesAll;
    if ds == [] {
      ListEnds(body, t, got, take);
      Seqs.TakeAll(got);
    } else {
      EncodeListHead(ds, body, t);
      TakesRest(take, got, ds);
      ReadListStep(ds[0], EncodeList(ds[1..], body) + t, got, take);
      ListDelivered(ds[1..], body, t, got + [ds[0]], take);
    }
  }

  // ---- Every cut reply is refused ----

  /** How many of `ds` are whole in the first `n` bytes of their encoding. */
  function WholeEntries(ds: seq<Dirent>, n: int): (k: nat)
    ensures k <= |ds|
  {
    if ds == [] || n < |EncodeDirent(ds[0])| then 0
    else 1 + WholeEntries(ds[1..], n - |EncodeDirent(ds[0])|)
  }

  lemma CutDirent(d: Dirent, p: Bytes)
    requires DirentOk(d) && p <= EncodeDirent(d) && p != EncodeDirent(d)
    ensures ReadDirent(p) == None
    ensures |p| >= 4 ==> p[..4] == DentId()
  {
    hide EncodeRest, DecodeStat, DentId;
    IdsDiffer();
    DirentSlices(DentId(), Put(d.stat.errno, 4), EncodeRest(d.stat), Put(|d.name|, 4), d.name, []);
    var b := EncodeDirent(d);
    assert b + [] == b && p == b[..|p|];
    if |p| >= DENT_LEN {
      assert p[4..8] == b[4..8] && p[8..72] == b[8..72] && p[72..76] == b[72..76];
      GetPut32(|d.name|);
    }
  }

  /** A listing cut anywhere short of its end fails, having delivered exactly the entries that
      arrived whole. */
  lemma {:induction false} ListCut(ds: seq<Dirent>, body: Bytes, p: Bytes, got: seq<Dirent>,
                                   take: Taker)
    requires |body| == 72 && AllOk(ds) && TakesAll(take, got, ds)
    requires p <= EncodeList(ds, body) && p != EncodeList(ds, body)
    ensures
      var l := ReadList(p, got, take);
      !l.done && l.entries == got + ds[..WholeEntries(ds, |p|)]
    decreases |ds|
  {
    hide EncodeDirent, EncodeList, ReadList, TakesAll;
    if ds == [] {
      CutEnd(body, p, got, take);
      assert got + ds[..0] == got;
    } else {
      var b, rest := EncodeDirent(ds[0]), EncodeList(ds[1..], body);
      EncodeListHead(ds, body, []);
      Seqs.TakeAll(EncodeList(ds, body));
      Seqs.TakeAll(rest);
      TakesRest(take, got, ds);
      if |p| < |b| {
        PrefixOfFirst(b, rest, p);
        CutDirent(ds[0], p);
        CutFirst(p, got, take);
        assert got + ds[..0] == got;
      } else {
        var q := p[|b|..];
        PrefixPastFirst(b, rest, p);
        ReadListStep(ds[0], q, got, take);
        ListCut(ds[1..], body, q, got + [ds[0]], take);
        var k := WholeEntries(ds[1..], |q|);
        assert got + [ds[0]] + ds[1..][..k] == got + ds[..k + 1];
      }
    }
  }

  lemma PrefixOfFirst(b: Bytes, rest: Bytes, p: Bytes)
    requires p <= b + rest && |p| < |b|
    ensures p <= b && p != b
  {
  }

  lemma PrefixPastFirst(b: Bytes, rest: Bytes, p: Bytes)
    requires p <= b + rest && p != b + rest && |p| >= |b|
    ensures p == b + p[|b|..] && p[|b|..] <= rest && p[|b|..] != rest
  {
    assert (b + rest)[..|b|] == b && (b + rest)[|b|..] == rest;
    assert p[..|b|] == b && p == p[..|b|] + p[|b|..];
    assert p[|b|..] == rest[..|p| - |b|];
  }

  lemma CutFirst(p: Bytes, got: seq<Dirent>, take: Taker)
    requires ReadDirent(p) == None && (|p| >= 4 ==> p[..4] == DentId())
    ensures ReadList(p, got, take) == Listing(got, 0, false)
  {
    IdsDiffer();
    hide ReadDirent, DentId, DoneId;
  }

  lemma CutEnd(body: Bytes, p: Bytes, got: seq<Dirent>, take: Taker)
    requires |body| == 72 && p <= EncodeList([], body) && p != EncodeList([], body)
    ensures ReadList(p, got, take) == Listing(got, 0, false)
  {
    IdsDiffer();
    assert |p| < DENT_LEN;
    if |p| >= 4 {
      assert EncodeList([], body)[..4] == DoneId() && p[..4] == EncodeList([], body)[..4];
    }
  }

  // ---- What was read is a whole reply ----

  /** A stat reply that was read is whole, and is the encoding of what it gave. */
  lemma StatIsWhole(id: Bytes, s: Bytes)
    requires |id| == 4 && ReadStat(id, s).Some?
    ensures |s| >= STAT_LEN && s[..STAT_LEN] == EncodeStatReply(id, ReadStat(id, s).value)
  {
    hide EncodeRest, DecodeStat, Put;
    EncodeDecodeStat(s[4..8], s[8..72]);
    assert s[..72] == s[..4] + s[4..8] + s[8..72];
  }

  lemma DirentIsWhole(s: Bytes)
    requires |s| >= 4 && s[..4] == DentId() && ReadDirent(s).Some?
    ensures
      var r := ReadDirent(s).value;
      DirentOk(r.0) && s[..r.1] == EncodeDirent(r.0) && s == EncodeDirent(r.0) + s[r.1..]
  {
    hide EncodeRest, DecodeStat, Put, DentId;
    EncodeDecodeStat(s[4..8], s[8..72]);
    PutGet(s[72..76]);
    var n := |s[76..76 + U32(s[72..76])]|;
    assert s[..76 + n] == s[..4] + s[4..8] + s[8..72] + s[72..76] + s[76..76 + n];
  }

  /** A listing that ends took exactly the bytes of a whole reply: the encoding of the entries it
      delivered, each of which the callback took. */
  lemma {:induction false} ListIsWhole(s: Bytes, got: seq<Dirent>, take: Taker)
    requires ReadList(s, got, take).done
    ensures
      var l := ReadList(s, got, take);
      && DENT_LEN <= l.used <= |s| && got <= l.entries
      && var ds := l.entries[|got|..];
      && AllOk(ds) && TakesAll(take, got, ds)
      && s[..l.used] == EncodeList(ds, s[l.used - 72..l.used])
    decreases |s|
  {
    hide ReadDirent, EncodeDirent, DentId, DoneId, TakesAll, EncodeList;
    IdsDiffer();
    if s[..4] == DoneId() {
      WholeEnd(s, got, take);
    } else {
      var r := ReadDirent(s).value;
      DirentIsWhole(s);
      ListIsWhole(s[r.1..], got + [r.0], take);
      var l := ReadList(s[r.1..], got + [r.0], take);
      var es := l.entries[|got| + 1..];
      TakesMore(take, got, r.0, es);
      WholeBytes(s, r.0, r.1, es, l.used);
      assert l.entries[|got|..] == [r.0] + es;
    }
  }

  lemma WholeEnd(s: Bytes, got: seq<Dirent>, take: Taker)
    requires |s| >= DENT_LEN && s[..4] == DoneId()
    ensures TakesAll(take, got, []) && got[|got|..] == []
    ensures s[..DENT_LEN] == EncodeList([], s[DENT_LEN - 72..DENT_LEN])
  {
    assert s[..76] == s[..4] + s[4..76];
    assert [] + (DoneId() + s[4..76]) == DoneId() + s[4..76];
  }

  lemma TakesMore(take: Taker, got: seq<Dirent>, d: Dirent, es: seq<Dirent>)
    requires take(got + [d]) && TakesAll(take, got + [d], es)
    ensures TakesAll(take, got, [d] + es)
  {
    var ds := [d] + es;
    forall k | 0 < k <= |ds| ensures take(got + ds[..k]) {
      assert got + ds[..k] == got + [d] + es[..k - 1];
      if k == 1 { assert got + [d] + es[..0] == got + [d]; }
    }
  }

  lemma WholeBytes(s: Bytes, d: Dirent, n: nat, es: seq<Dirent>, used: nat)
    requires n <= |s| && s[..n] == EncodeDirent(d) && 72 <= used <= |s| - n
    requires s[n..][..used] == EncodeList(es, s[n..][used - 72..used])
    ensures s[..used + n] == EncodeList([d] + es, s[used + n - 72..used + n])
  {
    hide EncodeDirent, EncodeList;
    var u := used + n;
    var body := s[u - 72..u];
    assert s[n..][used - 72..used] == body;
    assert ([d] + es)[1..] == es;
    EncodeListHead([d] + es, body, []);
    Seqs.TakeAll(EncodeList([d] + es, body));
    Seqs.TakeAll(EncodeList(es, body));
    Seqs.TakeSplit(s, n, used);
  }

  // ---- Transfers ----

  /** The bytes of the chunks, end to end. */
  function Flat(cs: seq<Bytes>): (b: Bytes) {
    if cs == [] then [] else cs[0] + Flat(cs[1..])
  }

  ghost predicate ChunksOk(cs: seq<Bytes>) {
    forall i :: 0 <= i < |cs| ==> |cs[i]| <= 65536
  }

  /** The sink takes every chunk whole. */
  ghost predicate SinksAll(sink: Sink, held: Bytes, cs: seq<Bytes>)
    decreases |cs|
  {
    cs == [] || (Taken(sink, held, cs[0]) == |cs[0]| && SinksAll(sink, held + cs[0], cs[1..]))
  }

  lemma ChunkSlices(id: Bytes, len: Bytes, c: Bytes, t: Bytes)
    requires |id| == |len| == 4
    ensures
      var s := id + len + c + t;
      s[..4] == id && s[4..8] == len && s[8..8 + |c|] == c && s[8 + |c|..] == t
  {
  }

  /** One whole chunk off the head of a stream. */
  lemma ReadChunkStep(c: Bytes, tail: Bytes, held: Bytes, sink: Sink)
    requires |c| <= MAX_CHUNK
    ensures ReadTransfer(EncodeChunk(c) + tail, held, sink) ==
            var k := Taken(sink, held, c);
            if k < |c| then Transfer(held + c[..k], 0, false)
            else
              var t := ReadTransfer(tail, held + c, sink);
              t.(used := t.used + |EncodeChunk(c)|)
  {
    hide DataId, DoneId, Put, Get, Taken;
    IdsDiffer();
    GetPut32(|c|);
    ChunkSlices(DataId(), Put(|c|, 4), c, tail);
  }

  lemma EncodeTransferHead(cs: seq<Bytes>, arg: Bytes, t: Bytes)
    requires cs != []
    ensures EncodeTransfer(cs, arg) + t == EncodeChunk(cs[0]) + (EncodeTransfer(cs[1..], arg) + t)
    ensures |EncodeTransfer(cs, arg)| == |EncodeChunk(cs[0])| + |EncodeTransfer(cs[1..], arg)|
  {
    hide EncodeChunk, DoneId;
    Seqs.Assoc(EncodeChunk(cs[0]), EncodeChunks(cs[1..]), DoneId() + arg);
    Seqs.Assoc(EncodeChunk(cs[0]), EncodeTransfer(cs[1..], arg), t);
  }

  lemma TransferEnds(arg: Bytes, t: Bytes, held: Bytes, sink: Sink)
    requires |arg| == 4
    ensures ReadTransfer(EncodeTransfer([], arg) + t, held, sink) == Transfer(held, HEADER_LEN, true)
    ensures |EncodeTransfer([], arg)| == HEADER_LEN
  {
    IdsDiffer();
    var s := EncodeTransfer([], arg) + t;
    assert s == DoneId() + (arg + t) && s[..4] == DoneId();
  }

  /** Whatever the chunking, a whole transfer delivers exactly the payload and takes exactly its
      bytes; an empty file is DONE alone. */
  lemma {:induction false} TransferDelivered(cs: seq<Bytes>, arg: Bytes, t: Bytes, held: Bytes,
                                             sink: Sink)
    requires |arg| == 4 && ChunksOk(cs) && SinksAll(sink, held, cs)
    ensures ReadTransfer(EncodeTransfer(cs, arg) + t, held, sink)
            == Transfer(held + Flat(cs), |EncodeTransfer(cs, arg)|, true)
    decreases |cs|
  {
    hide EncodeChunk, EncodeTransfer, ReadTransfer, Taken;
    if cs == [] {
      TransferEnds(arg, t, held, sink);
      Seqs.TakeAll(held);
    } else {
      EncodeTransferHead(cs, arg, t);
      ReadChunkStep(cs[0], EncodeTransfer(cs[1..], arg) + t, held, sink);
      TransferDelivered(cs[1..], arg, t, held + cs[0], sink);
      Seqs.Assoc(held, cs[0], Flat(cs[1..]));
    }
  }

  /** How many of `cs` are whole in the first `n` bytes of their encoding. */
  function WholeChunks(cs: seq<Bytes>, n: int): (k: nat)
    ensures k <= |cs|
  {
    if cs == [] || n < |EncodeChunk(cs[0])| then 0
    else 1 + WholeChunks(cs[1..], n - |EncodeChunk(cs[0])|)
  }

  lemma CutChunk(c: Bytes, p: Bytes, held: Bytes, sink: Sink)
    requires |c| <= MAX_CHUNK && p <= EncodeChunk(c) && p != EncodeChunk(c)
    ensures ReadTransfer(p, held, sink) == Transfer(held, 0, false)
  {
    hide DataId, DoneId, Put, Get, Taken;
    IdsDiffer();
    GetPut32(|c|);
    var b := EncodeChunk(c);
    assert b + [] == b && p == b[..|p|];
    ChunkSlices(DataId(), Put(|c|, 4), c, []);
    if |p| >= HEADER_LEN {
      assert p[..4] == b[..4] && p[4..8] == b[4..8];
    }
  }

  lemma CutTransferEnd(arg: Bytes, p: Bytes, held: Bytes, sink: Sink)
    requires |arg| == 4 && p <= EncodeTransfer([], arg) && p != EncodeTransfer([], arg)
    ensures ReadTransfer(p, held, sink) == Transfer(held, 0, false)
  {
    assert |p| < HEADER_LEN by { TransferEnds(arg, [], held, sink); }
  }

  /** A transfer cut anywhere short of its end fails, having delivered exactly the chunks that arrived
      whole. */
  lemma {:induction false} TransferCut(cs: seq<Bytes>, arg: Bytes, p: Bytes, held: Bytes, sink: Sink)
    requires |arg| == 4 && ChunksOk(cs) && SinksAll(sink, held, cs)
    requires p <= EncodeTransfer(cs, arg) && p != EncodeTransfer(cs, arg)
    ensures
      var t := ReadTransfer(p, held, sink);
      !t.done && t.written == held + Flat(cs[..WholeChunks(cs, |p|)])
    decreases |cs|
  {
    hide EncodeChunk, EncodeTransfer, ReadTransfer, Taken;
    if cs == [] {
      CutTransferEnd(arg, p, held, sink);
      Seqs.TakeAll(held);
    } else {
      var b, rest := EncodeChunk(cs[0]), EncodeTransfer(cs[1..], arg);
      EncodeTransferHead(cs, arg, []);
      Seqs.TakeAll(EncodeTransfer(cs, arg));
      Seqs.TakeAll(rest);
      if |p| < |b| {
        PrefixOfFirst(b, rest, p);
        CutChunk(cs[0], p, held, sink);
        Seqs.TakeAll(held);
      } else {
        var q := p[|b|..];
        PrefixPastFirst(b, rest, p);
        ReadChunkStep(cs[0], q, held, sink);
        TransferCut(cs[1..], arg, q, held + cs[0], sink);
        var k := WholeChunks(cs[1..], |q|);
        assert cs[..k + 1][0] == cs[0] && cs[..k + 1][1..] == cs[1..][..k];
        Seqs.Assoc(held, cs[0], Flat(cs[1..][..k]));
      }
    }
  }

  /** A transfer that ends took exactly the bytes of a whole reply, and what reached the sink is that
      reply's payload. */
  lemma {:induction false} TransferIsWhole(s: Bytes, held: Bytes, sink: Sink) returns (cs: seq<Bytes>)
    requires ReadTransfer(s, held, sink).done
    ensures
      var t := ReadTransfer(s, held, sink);
      && HEADER_LEN <= t.used <= |s| && ChunksOk(cs) && t.written == held + Flat(cs)
      && SinksAll(sink, held, cs)
      && s[..t.used] == EncodeTransfer(cs, s[t.used - 4..t.used])
    decreases |s|
  {
    hide DataId, DoneId, Put, Get, Taken, EncodeTransfer, EncodeChunk, ReadTransfer, Flat;
    TransferHead(s, held, sink);
    if s[..4] == DoneId() {
      cs := [];
      WholeTransferEnd(s);
      Seqs.TakeAll(held);
    } else {
      var n := U32(s[4..8]);
      var c := s[8..8 + n];
      var more := TransferIsWhole(s[8 + n..], held + c, sink);
      cs := [c] + more;
      PutGet(s[4..8]);
      ChunkBytes(s, n);
      WholeTransferBytes(s, c, more, ReadTransfer(s[8 + n..], held + c, sink).used);
      Seqs.Assoc(held, c, Flat(more));
    }
  }

  /** The head of a transfer that ends. */
  lemma TransferHead(s: Bytes, held: Bytes, sink: Sink)
    requires ReadTransfer(s, held, sink).done
    ensures |s| >= HEADER_LEN
    ensures s[..4] == DoneId() ==> ReadTransfer(s, held, sink) == Transfer(held, HEADER_LEN, true)
    ensures s[..4] != DoneId() ==>
              var n := U32(s[4..8]);
              && s[..4] == DataId() && n <= MAX_CHUNK && 8 + n <= |s|
              && Taken(sink, held, s[8..8 + n]) == n
              && var t := ReadTransfer(s[8 + n..], held + s[8..8 + n], sink);
              t.done && ReadTransfer(s, held, sink) == t.(used := t.used + 8 + n)
  {
    hide DataId, DoneId, Get;
    if s[..4] != DoneId() {
      var n := U32(s[4..8]);
      assert s[8..8 + n][..n] == s[8..8 + n];
    }
  }

  lemma ChunkBytes(s: Bytes, n: nat)
    requires |s| >= 8 + n && s[..4] == DataId() && Put(n, 4) == s[4..8]
    ensures s[..8 + n] == EncodeChunk(s[8..8 + n]) && |EncodeChunk(s[8..8 + n])| == 8 + n
  {
    hide DataId, Put;
    assert s[..8 + n] == s[..4] + s[4..8] + s[8..8 + n];
  }

  lemma WholeTransferEnd(s: Bytes)
    requires |s| >= HEADER_LEN && s[..4] == DoneId()
    ensures s[..HEADER_LEN] == EncodeTransfer([], s[HEADER_LEN - 4..HEADER_LEN]) && Flat([]) == []
  {
    assert s[..8] == s[..4] + s[4..8];
    assert [] + (DoneId() + s[4..8]) == DoneId() + s[4..8];
  }

  lemma WholeTransferBytes(s: Bytes, c: Bytes, more: seq<Bytes>, used: nat)
    requires |EncodeChunk(c)| <= |s| && s[..|EncodeChunk(c)|] == EncodeChunk(c)
    requires 4 <= used <= |s| - |EncodeChunk(c)|
    requires
      var rest := s[|EncodeChunk(c)|..];
      rest[..used] == EncodeTransfer(more, rest[used - 4..used])
    ensures
      var u := used + |EncodeChunk(c)|;
      s[..u] == EncodeTransfer([c] + more, s[u - 4..u])
    ensures Flat([c] + more) == c + Flat(more)
  {
    hide EncodeChunk, EncodeTransfer;
    var n := |EncodeChunk(c)|;
    var u := used + n;
    var arg := s[u - 4..u];
    CutTwice(s, n, used);
    assert ([c] + more)[1..] == more;
    EncodeTransferHead([c] + more, arg, []);
    Seqs.TakeAll(EncodeTransfer([c] + more, arg));
    Seqs.TakeAll(EncodeTransfer(more, arg));
  }

  lemma CutTwice(s: Bytes, n: nat, used: nat)
    requires 4 <= used && n + used <= |s|
    ensures s[n..][used - 4..used] == s[n + used - 4..n + used] && s[..used + n] == s[..n] + s[n..][..used]
  {
  }

  // ---- A reader that is stopped by its caller ----

  /** A chunk that the sink takes only part of ends the transfer there, with just that part written. */
  lemma RefusedChunk(c: Bytes, t: Bytes, held: Bytes, sink: Sink)
    requires |c| <= MAX_CHUNK && sink(held, c) < |c|
    ensures ReadTransfer(EncodeChunk(c) + t, held, sink) == Transfer(held + c[..sink(held, c)], 0, false)
  {
    hide ReadTransfer, EncodeChunk;
    ReadChunkStep(c, t, held, sink);
  }

  /** An entry that the callback refuses ends the listing there, that entry the last one shown to it. */
  lemma RefusedEntry(d: Dirent, t: Bytes, got: seq<Dirent>, take: Taker)
    requires DirentOk(d) && !take(got + [d])
    ensures ReadList(EncodeDirent(d) + t, got, take) == Listing(got + [d], 0, false)
  {
    IdsDiffer();
    DirentDelivered(d, t);
    hide EncodeDirent, ReadDirent, DentId, DoneId;
  }
}
