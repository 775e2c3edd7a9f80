/** One audit record: its canonical bytes, its hash, and its line in the log file. */
module AuditRecord {
  import opened ByteStrings
  import opened Options
  import opened JsonString
  import Decimal
  import Seqs
  import Timestamp

  /** A SHA-256 digest (section 6.2 of FIPS 180-4). */
  type Digest = d: Bytes | |d| == 32 witness seq(32, _ => 0)

  datatype Record = Record(
    seq_: uint64, ts: Timestamp.Time, op: Bytes, callerUid: int64, clientAsserted: Bytes,
    serial: Bytes, pathB64: Bytes, decision: Bytes, result: Bytes, bytes: int64,
    sha256: Bytes, dev: int64, ino: int64, prev: Bytes, hash: Bytes)

  // ---- Rendering: a record is a list of members, each a literal key then a value ----

  datatype Value = Num(n: int) | Str(s: Bytes)

  /** The literal text before each value. */
  datatype Key = KSeq | KTs | KOp | KCallerUid | KClientAsserted | KSerial | KPathB64 | KDecision
               | KResult | KBytes | KSha256 | KDev | KIno | KPrev | KHash

  function KeyText(k: Key): (t: Bytes)
    ensures forall i :: 0 <= i < |t| ==> t[i] >= 0x20
  {
    match k
    case KSeq => Ascii("{\"seq\":")
    case KTs => Ascii(",\"ts\":")
    case KOp => Ascii(",\"op\":")
    case KCallerUid => Ascii(",\"caller_uid\":")
    case KClientAsserted => Ascii(",\"client_asserted\":")
    case KSerial => Ascii(",\"serial\":")
    case KPathB64 => Ascii(",\"path_b64\":")
    case KDecision => Ascii(",\"decision\":")
    case KResult => Ascii(",\"result\":")
    case KBytes => Ascii(",\"bytes\":")
    case KSha256 => Ascii(",\"sha256\":")
    case KDev => Ascii(",\"volume\":{\"dev\":")
    case KIno => Ascii(",\"ino\":")
    case KPrev => Ascii("},\"prev\":")
    case KHash => Ascii(",\"hash\":")
  }

  /** A key starts outside the digits, so it ends a number before it, and holds no control
      byte. */
  ghost predicate Delimits(t: Bytes) {
    t != [] && !Decimal.IsDigit(t[0]) && forall i :: 0 <= i < |t| ==> t[i] >= 0x20
  }

  lemma KeyDelimits(k: Key)
    ensures Delimits(KeyText(k))
  {
    assert KeyText(k) != [] && (KeyText(k)[0] == 123 || KeyText(k)[0] == 44 || KeyText(k)[0] == 125);
  }

  datatype Member = Member(key: Key, value: Value)

  ghost function ValueText(v: Value): (t: Bytes) {
    match v
    case Num(n) => Decimal.Int(n)
    case Str(s) => Quoted(s)
  }

  ghost function Text(m: Member): (t: Bytes) {
    KeyText(m.key) + ValueText(m.value)
  }

  ghost function Render(ms: seq<Member>): (t: Bytes) {
    if ms == [] then [] else Text(ms[0]) + Render(ms[1..])
  }

  /** The members the chain hashes, in their fixed order; `hash` is not among them. */
  function Members(r: Record, ts: Bytes): (ms: seq<Member>)
    ensures |ms| == 14
  {
    [ Member(KSeq, Num(r.seq_)),
      Member(KTs, Str(ts)),
      Member(KOp, Str(r.op)),
      Member(KCallerUid, Num(r.callerUid)),
      Member(KClientAsserted, Str(r.clientAsserted)),
      Member(KSerial, Str(r.serial)),
      Member(KPathB64, Str(r.pathB64)),
      Member(KDecision, Str(r.decision)),
      Member(KResult, Str(r.result)),
      Member(KBytes, Num(r.bytes)),
      Member(KSha256, Str(r.sha256)),
      Member(KDev, Num(r.dev)),
      Member(KIno, Num(r.ino)),
      Member(KPrev, Str(r.prev)) ]
  }

  function HashMember(r: Record): Member {
    Member(KHash, Str(r.hash))
  }

  const CLOSE: Bytes := [0x7d]

  /** The canonical form, or nothing when the timestamp has no fixed-width form. */
  ghost function CanonicalForm(r: Record): (c: Option<Bytes>) {
    match Timestamp.CanonicalTime(r.ts)
    case None => None
    case Some(ts) => Some(Render(Members(r, ts)) + CLOSE)
  }

  /** The stored line, its final line feed included. */
  ghost function Line(r: Record): (l: Option<Bytes>) {
    match Timestamp.CanonicalTime(r.ts)
    case None => None
    case Some(ts) => Some(Render(Members(r, ts) + [HashMember(r)]) + CLOSE + [NEWLINE])
  }

  lemma {:induction false} RenderSnoc(ms: seq<Member>, m: Member)
    ensures Render(ms + [m]) == Render(ms) + Text(m)
  {
    if ms == [] {
      assert ms + [m] == [m];
      assert Render([m]) == Text(m) + Render([]);
    } else {
      assert (ms + [m])[1..] == ms[1..] + [m];
      RenderSnoc(ms[1..], m);
    }
  }

  lemma RenderNext(ms: seq<Member>, i: nat)
    requires i < |ms|
    ensures Render(ms[..i + 1]) == Render(ms[..i]) + Text(ms[i])
  {
    assert ms[..i + 1] == ms[..i] + [ms[i]];
    RenderSnoc(ms[..i], ms[i]);
  }

  /** `m` is member `i` of `ms`, and `b` holds the ones before it. */
  ghost predicate Next(b: Bytes, ms: seq<Member>, i: int, m: Member) {
    0 <= i < |ms| && ms[i] == m && b == Render(ms[..i])
  }

  /** Appends member `i` of `ms`, a string. */
  method AppendString(b: Bytes, key: Key, s: Bytes, ghost ms: seq<Member>, ghost i: int)
    returns (r: Bytes)
    requires Next(b, ms, i, Member(key, Str(s)))
    ensures r == Render(ms[..i + 1])
  {
    r := AppendJSONString(b + KeyText(key), s);
    RenderNext(ms, i);
    Seqs.Assoc(b, KeyText(key), Quoted(s));
  }

  /** Appends member `i` of `ms`, a number. */
  method AppendNumber(b: Bytes, key: Key, n: int, ghost ms: seq<Member>, ghost i: int)
    returns (r: Bytes)
    requires Next(b, ms, i, Member(key, Num(n)))
    ensures r == Render(ms[..i + 1])
  {
    r := b + KeyText(key) + Decimal.Int(n);
    RenderNext(ms, i);
    Seqs.Assoc(b, KeyText(key), Decimal.Int(n));
  }

  /** The canonical form up to the path: who asked for what, and when. */
  method CanonicalFront(r: Record, time: Bytes) returns (b: Bytes)
    ensures b == Render(Members(r, time)[..7])
  {
    hide KeyText, ValueText;
    ghost var ms := Members(r, time);
    b := AppendNumber([], KSeq, r.seq_, ms, 0);
    b := AppendString(b, KTs, time, ms, 1);
    b := AppendString(b, KOp, r.op, ms, 2);
    b := AppendNumber(b, KCallerUid, r.callerUid, ms, 3);
    b := AppendString(b, KClientAsserted, r.clientAsserted, ms, 4);
    b := AppendString(b, KSerial, r.serial, ms, 5);
    b := AppendString(b, KPathB64, r.pathB64, ms, 6);
  }

  /** The rest of the canonical form: the outcome, the volume and the link to the chain. */
  method CanonicalBack(r: Record, time: Bytes, front: Bytes) returns (b: Bytes)
    requires front == Render(Members(r, time)[..7])
    ensures b == Render(Members(r, time))
  {
    hide KeyText, ValueText;
    ghost var ms := Members(r, time);
    b := AppendString(front, KDecision, r.decision, ms, 7);
    b := AppendString(b, KResult, r.result, ms, 8);
    b := AppendNumber(b, KBytes, r.bytes, ms, 9);
    b := AppendString(b, KSha256, r.sha256, ms, 10);
    b := AppendNumber(b, KDev, r.dev, ms, 11);
    b := AppendNumber(b, KIno, r.ino, ms, 12);
    b := AppendString(b, KPrev, r.prev, ms, 13);
    assert ms[..14] == ms;
  }

  /** Grows the canonical form member by member. */
  method Canonical(r: Record) returns (c: Option<Bytes>)
    ensures c == CanonicalForm(r)
  {
    var ts := Timestamp.CanonicalTime(r.ts);
    if ts.None? { return None; }
    var b := CanonicalFront(r, ts.value);
    b := CanonicalBack(r, ts.value, b);
    return Some(b + CLOSE);
  }

  /** Cuts the closing brace off the canonical form and adds the hash as a last member. */
  method EncodeLine(r: Record) returns (l: Option<Bytes>)
    ensures l == Line(r)
  {
    var c := Canonical(r);
    if c.None? { return None; }
    var ms := Members(r, Timestamp.CanonicalTime(r.ts).value);
    RenderSnoc(ms, HashMember(r));
    assert c.value[..|c.value| - 1] == Render(ms);
    Seqs.Assoc(Render(ms), KeyText(KHash), Quoted(r.hash));
    var line := AppendJSONString(c.value[..|c.value| - 1] + KeyText(KHash), r.hash);
    return Some(line + CLOSE + [NEWLINE]);
  }

  // ---- Parsing ----

  /** What a reader expects of one member: its key, and whether its value is a string. */
  datatype Slot = Slot(key: Key, isString: bool)

  predicate Fits(m: Member, p: Slot) {
    m.key == p.key && m.value.Str? == p.isString
  }

  predicate AllFit(ms: seq<Member>, shape: seq<Slot>) {
    |ms| == |shape| && forall i :: 0 <= i < |ms| ==> Fits(ms[i], shape[i])
  }

  function Expect(key: Bytes, s: Bytes): (r: Option<Bytes>) {
    if key <= s then Some(s[|key|..]) else None
  }

  function ParseValue(isString: bool, s: Bytes): (r: Option<(Value, Bytes)>)
    ensures r.Some? ==> r.value.0.Str? == isString
  {
    if isString then
      var v :- ParseString(s);
      Some((Str(v.0), v.1))
    else
      var v :- Decimal.ParseInt(s);
      Some((Num(v.0), v.1))
  }

  lemma FitNext(m: Member, ms: seq<Member>, shape: seq<Slot>)
    requires shape != [] && Fits(m, shape[0]) && AllFit(ms, shape[1..])
    ensures AllFit([m] + ms, shape)
  {
    hide Fits;
  }

  function ParseMembers(shape: seq<Slot>, s: Bytes): (r: Option<(seq<Member>, Bytes)>)
    ensures r.Some? ==> AllFit(r.value.0, shape)
  {
    if shape == [] then Some(([], s))
    else
      var afterKey :- Expect(KeyText(shape[0].key), s);
      var v :- ParseValue(shape[0].isString, afterKey);
      var rest :- ParseMembers(shape[1..], v.1);
      FitNext(Member(shape[0].key, v.0), rest.0, shape);
      Some(([Member(shape[0].key, v.0)] + rest.0, rest.1))
  }

  /** A value as a reader gets it back. */
  ghost function CleanValue(v: Value): Value {
    match v
    case Num(n) => Num(n)
    case Str(s) => Str(Sanitize(s))
  }

  ghost function Cleaned(ms: seq<Member>): (r: seq<Member>)
    ensures |r| == |ms|
  {
    seq(|ms|, i requires 0 <= i < |ms| => Member(ms[i].key, CleanValue(ms[i].value)))
  }

  predicate NonDigitHead(s: Bytes) {
    s != [] && !Decimal.IsDigit(s[0])
  }

  lemma ExpectOwn(key: Bytes, t: Bytes)
    ensures Expect(key, key + t) == Some(t)
  {
    assert (key + t)[|key|..] == t;
  }

  lemma ParseValuePrinted(v: Value, t: Bytes)
    requires NonDigitHead(t)
    ensures ParseValue(v.Str?, ValueText(v) + t) == Some((CleanValue(v), t))
  {
    match v {
      case Num(n) => Decimal.ParseIntPrinted(n, t);
      case Str(x) => ParseQuoted(x, t);
    }
  }

  lemma RenderHead(ms: seq<Member>, t: Bytes)
    requires ms != []
    ensures Render(ms) + t == KeyText(ms[0].key) + (ValueText(ms[0].value) + (Render(ms[1..]) + t))
  {
    hide KeyText, ValueText;
  }

  lemma ParseMembersStep(shape: seq<Slot>, s: Bytes, v: Value, afterKey: Bytes, tail: Bytes)
    requires shape != [] && Expect(KeyText(shape[0].key), s) == Some(afterKey)
    requires ParseValue(shape[0].isString, afterKey) == Some((v, tail))
    ensures ParseMembers(shape, s) ==
            match ParseMembers(shape[1..], tail)
            case None => None
            case Some(rest) => Some(([Member(shape[0].key, v)] + rest.0, rest.1))
  {
    hide KeyText, ParseValue, Expect;
  }

  lemma CleanedHead(ms: seq<Member>)
    requires ms != []
    ensures Cleaned(ms) == [Member(ms[0].key, CleanValue(ms[0].value))] + Cleaned(ms[1..])
  {
    hide CleanValue;
  }

  /** Members read back as printed, strings cleaned, and reading stops where printing did. */
  lemma {:induction false} ParseRendered(ms: seq<Member>, shape: seq<Slot>, t: Bytes)
    requires AllFit(ms, shape) && NonDigitHead(t)
    ensures ParseMembers(shape, Render(ms) + t) == Some((Cleaned(ms), t))
  {
    hide KeyText, ParseValue, ValueText, Expect, CleanValue;
    if ms == [] {
      assert Render(ms) + t == t && Cleaned(ms) == [];
    } else {
      var key, v, tail := KeyText(ms[0].key), ms[0].value, Render(ms[1..]) + t;
      assert NonDigitHead(tail) by { if |ms| > 1 { KeyDelimits(ms[1].key); } }
      assert Fits(ms[0], shape[0]);
      RenderHead(ms, t);
      CleanedHead(ms);
      hide Render, Cleaned;
      ExpectOwn(key, ValueText(v) + tail);
      ParseValuePrinted(v, tail);
      ParseMembersStep(shape, Render(ms) + t, CleanValue(v), ValueText(v) + tail, tail);
      assert forall i :: 0 <= i < |ms[1..]| ==> Fits(ms[1..][i], shape[1..][i]);
      hide ParseMembers;
      ParseRendered(ms[1..], shape[1..], t);
    }
  }

  function ShapeOf(ms: seq<Member>): (shape: seq<Slot>)
    ensures AllFit(ms, shape)
  {
    seq(|ms|, i requires 0 <= i < |ms| => Slot(ms[i].key, ms[i].value.Str?))
  }

  const ZERO_RECORD := Record(0, Timestamp.Calendar(1, 1, 1, 0, 0, 0, 0), [], 0, [], [], [], [],
                              [], 0, [], 0, 0, [], [])

  /** The shape every record shares. */
  const SHAPE: seq<Slot> := ShapeOf(Members(ZERO_RECORD, []))

  const LINE_SHAPE: seq<Slot> := ShapeOf(Members(ZERO_RECORD, []) + [HashMember(ZERO_RECORD)])

  predicate IsUint64(n: int) { 0 <= n < TWO64 }

  predicate IsInt64(n: int) { -TWO63 <= n < TWO63 }

  function TextOf(m: Member): Bytes { if m.value.Str? then m.value.s else [] }

  function NumberOf(m: Member): int { if m.value.Num? then m.value.n else 0 }

  /** A record from the values of its members, when every one is in range. */
  function FromMembers(ms: seq<Member>): (r: Option<Record>)
    requires |ms| == 15
  {
    var ts :- Timestamp.Parse(TextOf(ms[1]));
    if IsUint64(NumberOf(ms[0])) && IsInt64(NumberOf(ms[3])) && IsInt64(NumberOf(ms[9]))
       && IsInt64(NumberOf(ms[11])) && IsInt64(NumberOf(ms[12])) then
      Some(Record(NumberOf(ms[0]), ts, TextOf(ms[2]), NumberOf(ms[3]), TextOf(ms[4]),
                  TextOf(ms[5]), TextOf(ms[6]), TextOf(ms[7]), TextOf(ms[8]), NumberOf(ms[9]),
                  TextOf(ms[10]), NumberOf(ms[11]), NumberOf(ms[12]), TextOf(ms[13]),
                  TextOf(ms[14])))
    else None
  }

  /** Reads one stored line, without its line feed. Nothing may follow the record. */
  function DecodeLine(line: Bytes): (r: Option<Record>) {
    var ms :- ParseMembers(LINE_SHAPE, line);
    if ms.1 == CLOSE then FromMembers(ms.0) else None
  }

  // ---- Round trips ----

  /** `r` as the log file can hold it: strings in valid UTF-8, time in whole milliseconds. */
  ghost function Normal(r: Record): (n: Record) {
    r.(ts := Timestamp.Truncate(r.ts), op := Sanitize(r.op),
       clientAsserted := Sanitize(r.clientAsserted), serial := Sanitize(r.serial),
       pathB64 := Sanitize(r.pathB64), decision := Sanitize(r.decision),
       result := Sanitize(r.result), sha256 := Sanitize(r.sha256), prev := Sanitize(r.prev),
       hash := Sanitize(r.hash))
  }

  ghost predicate Representable(r: Record) {
    0 <= r.ts.year <= 9999
  }

  /** The fourteen canonical members of any record follow the same keys and kinds. */
  lemma MembersShape(r: Record, ts: Bytes)
    ensures AllFit(Members(r, ts), SHAPE)
    ensures AllFit(Members(r, ts) + [HashMember(r)], LINE_SHAPE)
  {
  }

  /** Reading a stored line gives the record back as the file can hold it. */
  lemma DecodeEncode(r: Record)
    requires Representable(r)
    ensures Line(r).Some? && DecodeLine(Line(r).value[..|Line(r).value| - 1]) == Some(Normal(r))
  {
    hide KeyText, Render, Timestamp.CanonicalTime, Timestamp.Parse, Members;
    Timestamp.ParseCanonicalTime(r.ts);
    var ts := Timestamp.CanonicalTime(r.ts).value;
    var ms := Members(r, ts) + [HashMember(r)];
    MembersShape(r, ts);
    ParseRendered(ms, LINE_SHAPE, CLOSE);
    Timestamp.CanonicalTimeIsAscii(r.ts);
    AsciiStays(ts);
    CleanMembers(r, ts);
  }

  lemma CleanedAt(ms: seq<Member>, i: nat)
    requires i < |ms|
    ensures TextOf(Cleaned(ms)[i]) == Sanitize(TextOf(ms[i]))
    ensures NumberOf(Cleaned(ms)[i]) == NumberOf(ms[i])
  {
  }

  /** The values a record's cleaned members carry are those of the normal record. */
  lemma CleanMembers(r: Record, ts: Bytes)
    requires Timestamp.Parse(Sanitize(ts)) == Some(Timestamp.Truncate(r.ts))
    ensures FromMembers(Cleaned(Members(r, ts) + [HashMember(r)])) == Some(Normal(r))
  {
    hide Timestamp.Parse, Timestamp.Truncate, Sanitize, KeyText, Members;
    var ms := Members(r, ts) + [HashMember(r)];
    var cs := Cleaned(ms);
    forall i | 0 <= i < 15
      ensures TextOf(cs[i]) == Sanitize(TextOf(ms[i])) && NumberOf(cs[i]) == NumberOf(ms[i])
    {
      CleanedAt(ms, i);
    }
    hide Cleaned;
    TextsOf(r, ts);
    NumbersOf(r, ts);
  }

  lemma TextsOf(r: Record, ts: Bytes)
    ensures
      var ms := Members(r, ts) + [HashMember(r)];
      TextOf(ms[1]) == ts && TextOf(ms[2]) == r.op && TextOf(ms[4]) == r.clientAsserted
      && TextOf(ms[5]) == r.serial && TextOf(ms[6]) == r.pathB64 && TextOf(ms[7]) == r.decision
      && TextOf(ms[8]) == r.result && TextOf(ms[10]) == r.sha256 && TextOf(ms[13]) == r.prev
      && TextOf(ms[14]) == r.hash
  {
  }

  lemma NumbersOf(r: Record, ts: Bytes)
    ensures
      var ms := Members(r, ts) + [HashMember(r)];
      NumberOf(ms[0]) == r.seq_ && NumberOf(ms[3]) == r.callerUid && NumberOf(ms[9]) == r.bytes
      && NumberOf(ms[11]) == r.dev && NumberOf(ms[12]) == r.ino
  {
  }

  lemma {:induction false} RenderCleaned(ms: seq<Member>)
    ensures Render(Cleaned(ms)) == Render(ms)
  {
    hide KeyText;
    if ms != [] {
      assert Cleaned(ms)[1..] == Cleaned(ms[1..]);
      RenderCleaned(ms[1..]);
      match ms[0].value {
        case Num(n) =>
        case Str(x) => EscapedSanitize(x);
      }
    }
  }

  lemma MembersOfNormal(r: Record, ts: Bytes)
    requires Sanitize(ts) == ts
    ensures Members(Normal(r), ts) == Cleaned(Members(r, ts))
  {
    hide Sanitize, Timestamp.Truncate;
  }

  lemma TruncateTwice(t: Timestamp.Time)
    ensures Timestamp.CanonicalTime(Timestamp.Truncate(t)) == Timestamp.CanonicalTime(t)
  {
    hide Timestamp.Format;
    assert Timestamp.Truncate(Timestamp.Truncate(t)) == Timestamp.Truncate(t);
  }

  /** What a reader takes back hashes to what was written. */
  lemma CanonicalOfNormal(r: Record)
    ensures CanonicalForm(Normal(r)) == CanonicalForm(r)
  {
    hide Timestamp.CanonicalTime, Sanitize, Members, Cleaned, Render;
    TruncateTwice(r.ts);
    Timestamp.Representable(r.ts);
    if Representable(r) {
      Timestamp.CanonicalTimeIsAscii(r.ts);
      var ts := Timestamp.CanonicalTime(r.ts).value;
      AsciiStays(ts);
      MembersOfNormal(r, ts);
      RenderCleaned(Members(r, ts));
    }
  }

  /** The stored line is the canonical form with the hash spliced in before the brace. */
  lemma LineIsCanonicalWithHash(r: Record)
    requires Representable(r)
    ensures CanonicalForm(r).Some? && Line(r).Some? && CanonicalForm(r).value != []
    ensures
      var c := CanonicalForm(r).value;
      Line(r).value == c[..|c| - 1] + KeyText(KHash) + Quoted(r.hash) + CLOSE + [NEWLINE]
  {
    hide KeyText, Members, Render, Quoted, Timestamp.CanonicalTime;
    Timestamp.Representable(r.ts);
    var ms := Members(r, Timestamp.CanonicalTime(r.ts).value);
    RenderSnoc(ms, HashMember(r));
    Seqs.Assoc(Render(ms), KeyText(KHash), Quoted(r.hash));
    assert (Render(ms) + CLOSE)[..|Render(ms)|] == Render(ms);
  }

  /** Two records have one canonical form exactly when they agree in everything but their
      hashes, once strings are cleaned and times cut to milliseconds. */
  lemma CanonicalInjective(a: Record, b: Record)
    requires Representable(a) && Representable(b)
    ensures CanonicalForm(a) == CanonicalForm(b) <==> Normal(a.(hash := [])) == Normal(b.(hash := []))
  {
    hide CanonicalForm, Line, DecodeLine, Normal;
    var a0, b0 := a.(hash := []), b.(hash := []);
    HashNotCovered(a);
    HashNotCovered(b);
    LineIsCanonicalWithHash(a0);
    LineIsCanonicalWithHash(b0);
    DecodeEncode(a0);
    DecodeEncode(b0);
    CanonicalOfNormal(a0);
    CanonicalOfNormal(b0);
  }

  /** A record does not cover its own digest. */
  lemma HashNotCovered(r: Record)
    ensures CanonicalForm(r.(hash := [])) == CanonicalForm(r)
  {
    hide Render, Timestamp.CanonicalTime;
  }

  /** A record the log file can hold as it stands comes back as itself. */
  lemma NormalFixes(r: Record)
    requires ValidUtf8(r.op) && ValidUtf8(r.clientAsserted) && ValidUtf8(r.serial)
    requires ValidUtf8(r.pathB64) && ValidUtf8(r.decision) && ValidUtf8(r.result)
    requires ValidUtf8(r.sha256) && ValidUtf8(r.prev) && ValidUtf8(r.hash)
    requires r.ts.nanos % 1_000_000 == 0
    ensures Normal(r) == r
  {
    hide ValidUtf8, Sanitize;
    SanitizeFixes(r.op);
    SanitizeFixes(r.clientAsserted);
    SanitizeFixes(r.serial);
    SanitizeFixes(r.pathB64);
    SanitizeFixes(r.decision);
    SanitizeFixes(r.result);
    SanitizeFixes(r.sha256);
    SanitizeFixes(r.prev);
    SanitizeFixes(r.hash);
  }

  lemma {:induction false} RenderHasNoControl(ms: seq<Member>)
    ensures forall i :: 0 <= i < |Render(ms)| ==> Render(ms)[i] >= 0x20
  {
    hide KeyText, Quoted, Decimal.Int;
    if ms != [] {
      RenderHasNoControl(ms[1..]);
      match ms[0].value {
        case Num(n) => Decimal.IntHasNoControl(n);
        case Str(x) => QuotedHasNoControl(x);
      }
      var v := ValueText(ms[0].value);
      assert forall i :: 0 <= i < |v| ==> v[i] >= 0x20;
    }
  }

  /** A stored line ends in its only line feed. */
  lemma LineEndsInOnlyNewline(r: Record)
    requires Line(r).Some?
    ensures
      var l := Line(r).value;
      |l| >= 2 && l[|l| - 1] == NEWLINE && l[|l| - 2] == 0x7d && NoNewline(l[..|l| - 1])
  {
    hide Members, Render, Timestamp.CanonicalTime;
    RenderHasNoControl(Members(r, Timestamp.CanonicalTime(r.ts).value) + [HashMember(r)]);
  }

  // ---- Hashes ----

  /** What a log is built on: its digest, and how a stored line is read back. */
  datatype Tools = Tools(digest: Bytes -> Digest, decode: Bytes -> Option<Record>)

  /** A stored line without its line feed. */
  ghost function Printed(r: Record): (b: Bytes)
    requires Representable(r)
  {
    DecodeEncode(r);
    LineEndsInOnlyNewline(r);
    Line(r).value[..|Line(r).value| - 1]
  }

  /** Every line the log prints is read back as the record a file can hold; of lines in any other
      spelling nothing is asked. */
  ghost predicate ReadsPrinted(tools: Tools) {
    forall r :: Representable(r) ==> tools.decode(Printed(r)) == Some(Normal(r))
  }

  /** The reader of exactly the printed spelling is one such. */
  lemma StrictReads(digest: Bytes -> Digest)
    ensures ReadsPrinted(Tools(digest, DecodeLine))
  {
    hide DecodeLine, Line, Normal;
    forall r | Representable(r) ensures DecodeLine(Printed(r)) == Some(Normal(r)) {
      DecodeEncode(r);
    }
  }

  /** The digest a record contributes to a chain whose head is `prev`. */
  ghost function HashRecord(tools: Tools, prev: Digest, r: Record): (h: Option<Digest>) {
    match CanonicalForm(r)
    case None => None
    case Some(c) => Some(tools.digest(prev + c))
  }

  function Hex(d: Bytes): (s: Bytes)
    ensures |s| == 2 * |d|
  {
    if d == [] then [] else [HexDigit(d[0] / 16), HexDigit(d[0] % 16)] + Hex(d[1..])
  }

  /** Each byte in two lower-case digits, the high one first. */
  lemma {:induction false} HexSpells(d: Bytes, i: nat)
    requires i < |d|
    ensures Hex(d)[2 * i] == Ascii("0123456789abcdef")[d[i] / 16]
    ensures Hex(d)[2 * i + 1] == Ascii("0123456789abcdef")[d[i] % 16]
    decreases |d|
  {
    hide HexDigit;
    HexDigitIs(d[0] / 16);
    HexDigitIs(d[0] % 16);
    if i > 0 {
      HexSpells(d[1..], i - 1);
      assert Hex(d)[2 * i] == Hex(d[1..])[2 * (i - 1)] && Hex(d)[2 * i + 1] == Hex(d[1..])[2 * (i - 1) + 1];
    }
  }

  function UnHex(s: Bytes): (d: Option<Bytes>)
    ensures d.Some? ==> 2 * |d.value| == |s|
  {
    if s == [] then Some([])
    else if |s| == 1 then None
    else
      var hi :- AnyHexValue(s[0]);
      var lo :- AnyHexValue(s[1]);
      var rest :- UnHex(s[2..]);
      Some([hi * 16 + lo] + rest)
  }

  function DecodeHash(s: Bytes): (d: Option<Digest>) {
    var b :- UnHex(s);
    if |b| == 32 then Some(b) else None
  }

  /** The head of a chain with no records. */
  function ZeroDigest(): Digest {
    seq(32, _ => 0)
  }

  lemma {:induction false} UnHexHex(d: Bytes)
    ensures UnHex(Hex(d)) == Some(d)
    ensures forall i :: 0 <= i < |Hex(d)| ==> Hex(d)[i] < 0x80
  {
    if d != [] {
      var h := Hex(d);
      assert h[2..] == Hex(d[1..]);
      UnHexHex(d[1..]);
      assert d[0] == d[0] / 16 * 16 + d[0] % 16;
      assert d == [d[0]] + d[1..];
    }
  }

  /** A digest is recovered from its hex, which is plain ASCII, so hex is injective. */
  lemma DecodeHex(d: Digest)
    ensures DecodeHash(Hex(d)) == Some(d) && Sanitize(Hex(d)) == Hex(d)
  {
    UnHexHex(d);
    AsciiStays(Hex(d));
  }
}
