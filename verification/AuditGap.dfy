/** The one length at which the log's two readers part: a last line that the verifier still takes and
    that the reopening scan no longer reaches. */
module AuditGap {
  import opened ByteStrings
  import opened Options
  import opened AuditRecord
  import opened AuditChain
  import opened AuditLog
  import opened AuditRuns
  import opened TailScan
  import JsonString
  import Timestamp

  /** A byte whose literal form is itself. */
  predicate IsPlain(b: byte) {
    0x20 <= b < 0x80 && b != JsonString.QUOTE && b != JsonString.BACKSLASH
  }

  predicate AllPlain(s: Bytes) {
    forall i :: 0 <= i < |s| ==> IsPlain(s[i])
  }

  lemma {:induction false} PlainEscaped(s: Bytes)
    requires AllPlain(s)
    ensures JsonString.Escaped(s) == s
  {
    if s != [] {
      assert JsonString.RuneSize(s) == 1;
      PlainEscaped(s[1..]);
      assert [s[0]] + s[1..] == s;
      assert JsonString.Escaped(s) == s;
    }
  }

  lemma {:induction false} HexIsPlain(d: Bytes)
    ensures AllPlain(Hex(d))
  {
    if d != [] { HexIsPlain(d[1..]); }
  }

  /** A record that names an operation of `n` letters and is otherwise empty. */
  function Named(n: nat): Record {
    ZERO_RECORD.(op := Letters(n))
  }

  function Letters(n: nat): (s: Bytes)
    ensures |s| == n && AllPlain(s)
  {
    seq(n, _ => 97)
  }

  /** As the log stores such a record at number `q`. */
  predicate IsStored(s: Record, q: uint64, n: nat) {
    && s.ts == ZERO_RECORD.ts && s.seq_ == q && |s.op| == n && AllPlain(s.op)
    && s.callerUid == s.bytes == s.dev == s.ino == 0
    && s.clientAsserted == s.serial == s.pathB64 == s.decision == s.result == s.sha256 == []
    && |s.prev| == 64 && |s.hash| == 64 && AllPlain(s.prev) && AllPlain(s.hash)
  }

  lemma {:induction false} RenderBound(ms: seq<Member>)
    requires forall i :: 0 <= i < |ms| ==> |Text(ms[i])| <= 100
    ensures |Render(ms)| <= 100 * |ms|
  {
    hide Text;
    if ms != [] { RenderBound(ms[1..]); }
  }

  /** Two lists whose members are as wide but at one place differ in width by as much as they do
      there. */
  lemma {:induction false} RenderDiffers(a: seq<Member>, b: seq<Member>, k: int)
    requires |a| == |b| && k < |a|
    requires forall i :: 0 <= i < |a| && i != k ==> |Text(a[i])| == |Text(b[i])|
    ensures |Render(a)| - |Render(b)| == if k < 0 then 0 else |Text(a[k])| - |Text(b[k])|
    decreases |a|
  {
    hide Text;
    if a != [] { RenderDiffers(a[1..], b[1..], k - 1); }
  }

  lemma KeyWidth(k: Key)
    ensures |KeyText(k)| <= 25
  {
  }

  ghost function All(s: Record, ts: Bytes): (ms: seq<Member>)
    ensures |ms| == 15
  {
    Members(s, ts) + [HashMember(s)]
  }

  /** The value at place `i` of a stored line. */
  function ValueAt(s: Record, ts: Bytes, i: nat): (v: Value)
    requires i < 15
  {
    if i == 0 then Num(s.seq_) else if i == 1 then Str(ts) else if i == 2 then Str(s.op)
    else if i == 3 then Num(s.callerUid) else if i == 4 then Str(s.clientAsserted)
    else if i == 5 then Str(s.serial) else if i == 6 then Str(s.pathB64)
    else if i == 7 then Str(s.decision) else if i == 8 then Str(s.result)
    else if i == 9 then Num(s.bytes) else if i == 10 then Str(s.sha256)
    else if i == 11 then Num(s.dev) else if i == 12 then Num(s.ino)
    else if i == 13 then Str(s.prev) else Str(s.hash)
  }

  lemma ValueIs(s: Record, ts: Bytes, i: nat)
    requires i < 15
    ensures All(s, ts)[i].value == ValueAt(s, ts, i)
  {
    if i < 14 { assert All(s, ts)[i] == Members(s, ts)[i]; }
  }

  lemma KeyIsSame(s: Record, s0: Record, ts: Bytes, i: nat)
    requires i < 15
    ensures All(s, ts)[i].key == All(s0, ts)[i].key
  {
    if i < 14 {
      assert All(s, ts)[i] == Members(s, ts)[i];
      assert All(s0, ts)[i] == Members(s0, ts)[i];
    }
  }

  predicate IsSmall(v: Value) {
    match v
    case Num(n) => 0 <= n < 10
    case Str(s) => AllPlain(s)
  }

  function Width(v: Value): (n: nat) {
    match v
    case Num(_) => 1
    case Str(s) => |s| + 2
  }

  lemma TextWidth(m: Member)
    requires IsSmall(m.value)
    ensures |Text(m)| == |KeyText(m.key)| + Width(m.value) && |KeyText(m.key)| <= 25
  {
    hide KeyText;
    KeyWidth(m.key);
    if m.value.Str? { PlainEscaped(m.value.s); }
  }

  lemma ValueIsSmall(s: Record, q: uint64, n: nat, s0: Record, ts: Bytes, i: nat)
    requires q < 10 && IsStored(s, q, n) && IsStored(s0, q, 0) && i < 15 && |ts| == 24 && AllPlain(ts)
    ensures IsSmall(ValueAt(s, ts, i)) && IsSmall(ValueAt(s0, ts, i))
    ensures Width(ValueAt(s0, ts, i)) <= 66
    ensures Width(ValueAt(s, ts, i)) == Width(ValueAt(s0, ts, i)) + if i == 2 then n else 0
  {
    hide AllPlain;
    NothingIsPlain();
  }

  lemma NothingIsPlain()
    ensures AllPlain([])
  {
  }

  /** Only the operation's name makes the stored lines differ in width. */
  lemma MemberWidth(s: Record, q: uint64, n: nat, s0: Record, ts: Bytes, i: nat)
    requires q < 10 && IsStored(s, q, n) && IsStored(s0, q, 0) && i < 15 && |ts| == 24 && AllPlain(ts)
    ensures |Text(All(s0, ts)[i])| <= 100
    ensures |Text(All(s, ts)[i])| == |Text(All(s0, ts)[i])| + if i == 2 then n else 0
  {
    hide Text, KeyText, IsStored, All, IsSmall, Width, ValueAt;
    ValueIs(s, ts, i);
    ValueIs(s0, ts, i);
    KeyIsSame(s, s0, ts, i);
    ValueIsSmall(s, q, n, s0, ts, i);
    TextWidth(All(s, ts)[i]);
    TextWidth(All(s0, ts)[i]);
  }

  lemma TimeIsPlain(t: Timestamp.Time)
    requires t.year >= 0 && Timestamp.CanonicalTime(t).Some?
    ensures AllPlain(Timestamp.CanonicalTime(t).value)
  {
    hide Timestamp.Padded;
  }

  lemma LineIsAll(s: Record, q: uint64, n: nat) returns (ts: Bytes)
    requires IsStored(s, q, n)
    ensures Timestamp.CanonicalTime(ZERO_RECORD.ts) == Some(ts) && |ts| == 24 && AllPlain(ts)
    ensures LineOf(s) == Render(All(s, ts)) + CLOSE + [NEWLINE]
  {
    hide Members, Render, AllPlain, Timestamp.CanonicalTime;
    Timestamp.Representable(ZERO_RECORD.ts);
    TimeIsPlain(ZERO_RECORD.ts);
    ts := Timestamp.CanonicalTime(ZERO_RECORD.ts).value;
  }

  lemma LineWidth(s: Record, q: uint64, n: nat, s0: Record)
    requires q < 10 && IsStored(s, q, n) && IsStored(s0, q, 0)
    ensures 0 < |LineOf(s0)| <= 1502 && |LineOf(s)| == |LineOf(s0)| + n
  {
    hide Text, IsStored, All, Render, LineOf, Timestamp.CanonicalTime;
    var ts := LineIsAll(s, q, n);
    var _ := LineIsAll(s0, q, 0);
    forall i | 0 <= i < 15
      ensures |Text(All(s0, ts)[i])| <= 100
      ensures |Text(All(s, ts)[i])| == |Text(All(s0, ts)[i])| + if i == 2 then n else 0
    {
      MemberWidth(s, q, n, s0, ts, i);
    }
    RenderBound(All(s0, ts));
    RenderDiffers(All(s, ts), All(s0, ts), 2);
  }

  lemma NamedIsPlain(n: nat)
    ensures Named(n).ts == ZERO_RECORD.ts && Named(n).hash == [] && Representable(Named(n))
  {
    hide Letters;
  }

  lemma NamedStays(n: nat)
    ensures Timestamp.Truncate(Named(n).ts) == Named(n).ts && Named(n).hash == [] && Representable(Named(n))
  {
    NamedIsPlain(n);
    Timestamp.TruncateWhole(ZERO_RECORD.ts);
    hide Named, Timestamp.Truncate;
  }

  lemma StampOfNamed(tools: Tools, head: Digest, q: uint64, n: nat)
    requires q < 9
    ensures
      var r := Named(n).(seq_ := q + 1, prev := Hex(head));
      && HashRecord(tools, head, r).Some?
      && Stamp(tools, head, q, Named(n)) == Some(r.(hash := Hex(HashRecord(tools, head, r).value)))
  {
    hide HashRecord, Hex, Named;
    NamedStays(n);
    HashMeansRepresentable(tools, head, Named(n).(seq_ := q + 1, prev := Hex(head)));
  }

  lemma StampIsStored(tools: Tools, head: Digest, q: uint64, n: nat)
    requires q < 9
    ensures Stamp(tools, head, q, Named(n)).Some?
    ensures
      var s := Stamp(tools, head, q, Named(n)).value;
      IsStored(s, q + 1, n) && s.seq_ == q + 1
  {
    hide HashRecord, AllPlain, Hex, Stamp, Letters;
    var r := Named(n).(seq_ := q + 1, prev := Hex(head));
    StampOfNamed(tools, head, q, n);
    HexIsPlain(head);
    HexIsPlain(HashRecord(tools, head, r).value);
  }

  lemma AppendLands(tools: Tools, st: LogState, q: uint64, n: nat)
    requires st.handle.Some? && st.handle.value.0 == q < 9
    ensures
      var landed := Landed(tools, st, Append(Named(n), true, true));
      var st' := Step(tools, st, Append(Named(n), true, true));
      && |landed| == 1 && IsStored(landed[0], q + 1, n)
      && st'.handle.Some? && st'.handle.value.0 == q + 1
  {
    hide HashRecord, Line, Stamp, IsStored, Named;
    StampIsStored(tools, st.handle.value.1, q, n);
  }

  /** The log after one record, and after a second as long as it takes. */
  function One(): (evs: seq<Event>) { [Append(Named(0), true, true)] }

  function Pair(n: nat): (evs: seq<Event>) { One() + [Append(Named(n), true, true)] }

  lemma RunSnoc(tools: Tools, evs: seq<Event>, e: Event)
    ensures
      var before := Run(tools, evs);
      Run(tools, evs + [e]) == (Step(tools, before.0, e), before.1 + Landed(tools, before.0, e))
  {
    hide Step, Landed;
    assert (evs + [e])[..|evs|] == evs;
  }

  lemma OneLands(tools: Tools)
    ensures
      var (st, rs) := Run(tools, One());
      |rs| == 1 && IsStored(rs[0], 1, 0) && st.handle.Some? && st.handle.value.0 == 1
  {
    hide Landed, Step, IsStored, Named;
    var start := LogState([], Some((0, ZeroDigest())));
    assert Run(tools, []) == (start, []);
    assert [] + One() == One();
    RunSnoc(tools, [], Append(Named(0), true, true));
    AppendLands(tools, start, 0, 0);
  }

  lemma PairLands(tools: Tools, n: nat)
    requires ReadsPrinted(tools)
    ensures
      var (st, rs) := Run(tools, Pair(n));
      && |rs| == 2 && IsStored(rs[0], 1, 0) && IsStored(rs[1], 2, n)
      && Sound(tools, st, rs) && st.handle.Some?
  {
    hide Landed, Step, IsStored, Sound, Named, ReadsPrinted, Run, One;
    OneLands(tools);
    var (st, rs) := Run(tools, One());
    RunSnoc(tools, One(), Append(Named(n), true, true));
    AppendLands(tools, st, 1, n);
    RunIsSound(tools, Pair(n));
  }

  /** The log can write a file, of two records, that its verifier accepts in full and that it refuses
      to open again. */
  lemma VerifiesButWillNotOpen(tools: Tools) returns (n: nat)
    requires ReadsPrinted(tools)
    ensures
      var (st, rs) := Run(tools, Pair(n));
      && st.handle.Some? && st.content == Content(rs)
      && |rs| == FitCount(rs) == 2 && !TailInReach(rs)
      && OpenState(tools, st.content) == None
      && forall v :: Faithful(tools, st.content, v) ==> v == Clean(WrittenSummary(tools, rs))
  {
    hide Run, IsStored, Pair, LineOf, Faithful, OpenState, Head, Hex, WrittenSummary, ReadsPrinted, Written,
         FitCount, Landed;
    PairLands(tools, 0);
    var short := Run(tools, Pair(0)).1;
    LineWidth(short[1], 2, 0, short[1]);
    n := MAX_LINE_BYTES - |LineOf(short[1])|;
    PairLands(tools, n);
    var (st, rs) := Run(tools, Pair(n));
    LineWidth(rs[1], 2, n, short[1]);
    LineWidth(rs[0], 1, 0, rs[0]);
    JustTooFar(rs);
    OpenResumes(tools, rs);
    forall v | Faithful(tools, st.content, v) ensures v == Clean(WrittenSummary(tools, rs)) {
      VerifierAcceptsWritten(tools, rs, v);
    }
  }

  lemma JustTooFar(rs: seq<Record>)
    requires |rs| == 2 && 0 < |LineOf(rs[0])| <= MAX_LINE_BYTES && |LineOf(rs[1])| == MAX_LINE_BYTES
    ensures FitCount(rs) == 2 && !TailInReach(rs)
  {
    hide LineOf;
    FitCountAll(rs);
    assert Front(rs) == [rs[0]] && Last(rs) == rs[1] && Front([rs[0]]) == [];
    assert Content([rs[0]]) == LineOf(rs[0]) && Content(rs) == LineOf(rs[0]) + LineOf(rs[1]);
  }
}
