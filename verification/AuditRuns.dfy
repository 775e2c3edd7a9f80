/** What every run of the log keeps, and what a crash can and cannot do to it. */
module AuditRuns {
  import opened ByteStrings
  import opened Options
  import opened AuditRecord
  import opened AuditChain
  import opened AuditLog
  import opened TailScan
  import JsonString
  import Seqs
  import Timestamp

  /** `rs` is a chain as Append writes it: each record names its predecessor's hash and carries its
      own. */
  ghost predicate Written(tools: Tools, rs: seq<Record>) {
    rs == []
    || (&& Written(tools, Front(rs))
        && Representable(Last(rs))
        && ChainHead(tools, rs).Some?
        && Last(rs).prev == Hex(Head(tools, Front(rs))))
  }

  /** The head of a chain that verifies. */
  ghost function Head(tools: Tools, rs: seq<Record>): (h: Digest) {
    match ChainHead(tools, rs)
    case None => ZeroDigest()
    case Some(h) => h
  }

  ghost function LineOf(r: Record): (l: Bytes) {
    match Line(r)
    case None => []
    case Some(l) => l
  }

  /** The file that holds `rs`. */
  ghost function Content(rs: seq<Record>): (c: Bytes) {
    if rs == [] then [] else Content(Front(rs)) + LineOf(Last(rs))
  }

  /** The state after `evs`, and the records whose lines reached the file. */
  ghost function Run(tools: Tools, evs: seq<Event>): (s: (LogState, seq<Record>)) {
    if evs == [] then (LogState([], Some((0, ZeroDigest()))), [])
    else
      var before := Run(tools, evs[..|evs| - 1]);
      var e := evs[|evs| - 1];
      (Step(tools, before.0, e), before.1 + Landed(tools, before.0, e))
  }

  /** The record an event adds to the file, if it adds one. */
  ghost function Landed(tools: Tools, st: LogState, e: Event): (rs: seq<Record>) {
    if e.Append? && e.lands && st.handle.Some? then
      match Stamp(tools, st.handle.value.1, st.handle.value.0, e.r)
      case None => []
      case Some(s) => [s]
    else []
  }

  /** The file holds exactly the records that landed, as one chain, and a live handle stands at its
      end. */
  ghost predicate Sound(tools: Tools, st: LogState, rs: seq<Record>) {
    && Written(tools, rs)
    && st.content == Content(rs)
    && (st.handle.Some? ==> st.handle.value == (|rs| % TWO64, Head(tools, rs)))
  }

  /** A stamped record verifies against the head it was stamped with. */
  lemma StampVerifies(tools: Tools, h: Digest, n: uint64, r: Record)
    requires Stamp(tools, h, n, r).Some?
    ensures
      var s := Stamp(tools, h, n, r).value;
      && Representable(s) && s.prev == Hex(h) && s.seq_ == Succ(n)
      && HashRecord(tools, h, s).Some? && VerifyRecord(tools, h, s) == HashRecord(tools, h, s)
      && s.hash == Hex(HashRecord(tools, h, s).value)
  {
    hide HashRecord, Hex, DecodeHash;
    var r1 := r.(ts := Timestamp.Truncate(r.ts), seq_ := Succ(n), prev := Hex(h), hash := []);
    var s := Stamp(tools, h, n, r).value;
    HashIgnoresHash(tools, h, r1, s.hash);
    HashMeansRepresentable(tools, h, s);
    DecodeHex(h);
  }

  lemma StampExtends(tools: Tools, rs: seq<Record>, r: Record)
    requires Written(tools, rs) && ValidChain(tools, rs)
    requires Stamp(tools, Head(tools, rs), |rs| % TWO64, r).Some?
    ensures
      var s := Stamp(tools, Head(tools, rs), |rs| % TWO64, r).value;
      && Written(tools, rs + [s])
      && ChainHead(tools, rs + [s]) == HashRecord(tools, Head(tools, rs), s)
      && s.seq_ == |rs + [s]| % TWO64
      && Content(rs + [s]) == Content(rs) + LineOf(s)
  {
    hide HashRecord, LineOf, Stamp, VerifyRecord, Hex, Representable;
    var h := Head(tools, rs);
    var s := Stamp(tools, h, |rs| % TWO64, r).value;
    StampVerifies(tools, h, |rs| % TWO64, r);
    ChainSnoc(tools, rs, s);
    SuccCounts(|rs|);
    assert Front(rs + [s]) == rs && Last(rs + [s]) == s;
  }

  lemma {:induction false} WrittenIsChain(tools: Tools, rs: seq<Record>)
    requires Written(tools, rs)
    ensures ValidChain(tools, rs)
  {
  }

  lemma StepKeepsSound(tools: Tools, st: LogState, rs: seq<Record>, e: Event)
    requires ReadsPrinted(tools)
    requires Sound(tools, st, rs)
    ensures Sound(tools, Step(tools, st, e), rs + Landed(tools, st, e))
  {
    hide HashRecord, Stamp, Line, LineOf, OpenState;
    WrittenIsChain(tools, rs);
    assert rs + [] == rs;
    match e {
      case Close =>
      case Open => OpenResumes(tools, rs);
      case Append(r, lands, _) =>
        if lands && st.handle.Some? && Stamp(tools, st.handle.value.1, st.handle.value.0, r).Some? {
          StampExtends(tools, rs, r);
          StampVerifies(tools, Head(tools, rs), |rs| % TWO64, r);
          StampHasLine(tools, Head(tools, rs), |rs| % TWO64, r);
        }
    }
  }

  lemma StampHasLine(tools: Tools, h: Digest, n: uint64, r: Record)
    requires Stamp(tools, h, n, r).Some?
    ensures LineOf(Stamp(tools, h, n, r).value) == Line(Stamp(tools, h, n, r).value).value
  {
    hide HashRecord, Line, Stamp;
    StampVerifies(tools, h, n, r);
    LineIsCanonicalWithHash(Stamp(tools, h, n, r).value);
  }

  // ---- Reading the file back ----

  /** The scan of the tail reaches the start of the last line of the file that holds `rs`. */
  ghost predicate TailInReach(rs: seq<Record>) {
    |Content(rs)| <= MAX_LINE_BYTES || (|rs| > 1 && 1 + |LineOf(Last(rs))| <= MAX_LINE_BYTES)
  }

  lemma {:induction false} ContentEndsInNewline(tools: Tools, rs: seq<Record>)
    requires Written(tools, rs) && rs != []
    ensures Content(rs) != [] && Content(rs)[|Content(rs)| - 1] == NEWLINE
  {
    hide Line, NoNewline, ChainHead, Hex, CanonicalForm;
    LineIsCanonicalWithHash(Last(rs));
    LineEndsInOnlyNewline(Last(rs));
  }

  /** The tail of the file is the last record that landed, when it is in reach. */
  lemma TailOfContent(tools: Tools, rs: seq<Record>)
    requires Written(tools, rs) && rs != []
    ensures TailOf(Content(rs)) ==
            if TailInReach(rs) then FinalLine(LineOf(Last(rs))[..|LineOf(Last(rs))| - 1]) else TooLong
  {
    hide Line, TailOf, NoNewline;
    LineIsCanonicalWithHash(Last(rs));
    LineEndsInOnlyNewline(Last(rs));
    if |rs| > 1 {
      ContentEndsInNewline(tools, Front(rs));
    } else {
      assert Front(rs) == [];
    }
    TailIsLastWritten(Content(Front(rs)), LineOf(Last(rs)));
  }

  /** Opening the log resumes after exactly the records that landed, or fails because the last line
      is out of reach. */
  lemma OpenResumes(tools: Tools, rs: seq<Record>)
    requires ReadsPrinted(tools)
    requires Written(tools, rs)
    ensures OpenState(tools, Content(rs)) ==
            if rs == [] || TailInReach(rs) then Some((|rs| % TWO64, Head(tools, rs))) else None
  {
    hide TailOf, VerifyRecord, TailInReach, DecodeHash, Normal, Content, Hex, LineOf;
    if rs == [] {
      EmptyTail();
    } else {
      hide ChainHead;
      TailOfContent(tools, rs);
      LastDecodes(tools, rs);
    }
  }

  lemma EmptyTail()
    ensures Content([]) == [] && TailOf([]) == Empty
  {
  }

  /** The stored form of the last record decodes, and verifies against the head before it. */
  lemma LastDecodes(tools: Tools, rs: seq<Record>)
    requires ReadsPrinted(tools)
    requires Written(tools, rs) && rs != []
    ensures
      var l := LineOf(Last(rs));
      var prev := Head(tools, Front(rs));
      && l != []
      && tools.decode(l[..|l| - 1]) == Some(Normal(Last(rs)))
      && Normal(Last(rs)).seq_ == |rs| % TWO64
      && Normal(Last(rs)).hash == Hex(Head(tools, rs)) && Hex(Head(tools, rs)) != []
      && DecodeHash(Normal(Last(rs)).prev) == Some(prev)
      && VerifyRecord(tools, prev, Normal(Last(rs))) == Some(Head(tools, rs))
  {
    hide Line, Hex, CanonicalForm, JsonString.Sanitize, DecodeHash;
    var r := Last(rs);
    LineIsCanonicalWithHash(r);
    LineEndsInOnlyNewline(r);
    DecodeEncode(r);
    CanonicalOfNormal(r);
    DecodeHex(Head(tools, Front(rs)));
    DecodeHex(Head(tools, rs));
    SuccCounts(|rs| - 1);
  }

  /** Every run keeps file, chain and handle in step, and numbers the records that landed
      1, 2, 3, ... */
  lemma {:induction false} RunIsSound(tools: Tools, evs: seq<Event>)
    requires ReadsPrinted(tools)
    ensures Sound(tools, Run(tools, evs).0, Run(tools, evs).1)
  {
    hide Step, Landed, Sound;
    if evs == [] {
      FreshIsSound(tools);
    } else {
      var front := evs[..|evs| - 1];
      RunIsSound(tools, front);
      StepKeepsSound(tools, Run(tools, front).0, Run(tools, front).1, evs[|evs| - 1]);
    }
  }

  lemma FreshIsSound(tools: Tools)
    ensures Sound(tools, LogState([], Some((0, ZeroDigest()))), [])
  {
  }

  // ---- Crash safety ----

  /** A crash that leaves any `k` bytes of the next line behind: the log opens exactly when no byte
      or every byte of it landed and the last whole line is in reach, and it resumes after the
      records that are whole. */
  lemma CrashSafe(tools: Tools, rs: seq<Record>, r: Record, k: nat)
    requires ReadsPrinted(tools)
    requires Written(tools, rs + [r]) && Written(tools, rs)
    requires k <= |LineOf(r)|
    ensures
      var whole := if k == |LineOf(r)| then rs + [r] else rs;
      OpenState(tools, Content(rs) + LineOf(r)[..k]) ==
      if (k == 0 || k == |LineOf(r)|) && (whole == [] || TailInReach(whole))
      then Some((|whole| % TWO64, Head(tools, whole))) else None
  {
    hide OpenState, Content, Head, LineOf, TailInReach, Written;
    var l := LineOf(r);
    OpenResumes(tools, rs);
    OpenResumes(tools, rs + [r]);
    AppendedContent(rs, r);
    if k == 0 {
      assert Content(rs) + l[..k] == Content(rs);
    } else if k == |l| {
      assert l[..k] == l;
    } else {
      WrittenLast(tools, rs, r);
      TornLine(tools, Content(rs), r, k);
    }
  }

  lemma AppendedContent(rs: seq<Record>, r: Record)
    ensures Content(rs + [r]) == Content(rs) + LineOf(r)
  {
    assert Front(rs + [r]) == rs && Last(rs + [r]) == r;
  }

  lemma WrittenLast(tools: Tools, rs: seq<Record>, r: Record)
    requires Written(tools, rs + [r])
    ensures Representable(r)
  {
    hide ChainHead, Hex, Head;
    assert Last(rs + [r]) == r;
  }

  lemma TornState(tools: Tools, content: Bytes)
    requires content != [] && content[|content| - 1] != NEWLINE
    ensures OpenState(tools, content) == None
  {
    hide VerifyRecord, DecodeHash;
    UnfinishedIsTorn(content);
  }

  lemma OnlyNewlineLast(r: Record)
    requires Representable(r)
    ensures LineOf(r) != [] && NoNewline(LineOf(r)[..|LineOf(r)| - 1])
  {
    hide Line, NoNewline;
    LineIsCanonicalWithHash(r);
    LineEndsInOnlyNewline(r);
  }

  lemma TornLine(tools: Tools, before: Bytes, r: Record, k: nat)
    requires Representable(r) && 0 < k < |LineOf(r)|
    ensures OpenState(tools, before + LineOf(r)[..k]) == None
  {
    hide Line, OpenState, LineOf;
    OnlyNewlineLast(r);
    var l := LineOf(r);
    assert l[k - 1] == l[..|l| - 1][k - 1];
    TornState(tools, before + l[..k]);
  }

  // ---- The whole-file verifier on what the log wrote ----

  /** A stored line without its line feed. */
  ghost function Body(r: Record): (b: Bytes) {
    if LineOf(r) == [] then [] else LineOf(r)[..|LineOf(r)| - 1]
  }

  ghost function Bodies(rs: seq<Record>): (ls: seq<Bytes>) {
    if rs == [] then [] else Bodies(Front(rs)) + [Body(Last(rs))]
  }

  ghost function NormalAll(rs: seq<Record>): (ns: seq<Record>)
    ensures |ns| == |rs|
  {
    if rs == [] then [] else NormalAll(Front(rs)) + [Normal(Last(rs))]
  }

  /** How many records a scanner reads before a line too long for it. */
  ghost function FitCount(rs: seq<Record>): (n: nat)
    ensures n <= |rs|
  {
    if rs == [] then 0
    else if FitCount(Front(rs)) < |rs| - 1 then FitCount(Front(rs))
    else if |LineOf(Last(rs))| <= MAX_LINE_BYTES then |rs|
    else |rs| - 1
  }

  lemma FitCountAll(rs: seq<Record>)
    ensures FitCount(rs) == |rs| <==> forall i :: 0 <= i < |rs| ==> |LineOf(rs[i])| <= 1_048_576
  {
    hide LineOf;
    if rs != [] { FitCountAll(Front(rs)); }
  }

  lemma LineLengthAppend(a: Bytes, x: Bytes)
    requires a != [] && a[|a| - 1] == NEWLINE
    ensures LineLength(a) < |a| && LineLength(a + x) == LineLength(a)
  {
    if a[0] != NEWLINE {
      assert (a + x)[1..] == a[1..] + x;
      LineLengthAppend(a[1..], x);
    }
  }

  /** One step of a scan. */
  lemma ScanOne(s: Bytes)
    requires s != []
    ensures
      var rest := s[NextLine(s)..];
      if LineLength(s) >= MAX_LINE_BYTES then Scanned(s) == [] && !ScansToEnd(s)
      else Scanned(s) == [DropCR(s[..LineLength(s)])] + Scanned(rest) && ScansToEnd(s) == ScansToEnd(rest)
  {
    hide LineLength, DropCR;
  }

  /** Scanning a file whose first part ends in a line feed. */
  lemma {:induction false} ScanAppend(a: Bytes, x: Bytes)
    requires a == [] || a[|a| - 1] == NEWLINE
    ensures ScansToEnd(a + x) <==> ScansToEnd(a) && ScansToEnd(x)
    ensures Scanned(a + x) == if ScansToEnd(a) then Scanned(a) + Scanned(x) else Scanned(a)
    decreases |a|
  {
    hide DropCR, LineLength;
    if a == [] {
      Seqs.TakeAll(x);
      Seqs.TakeAll(Scanned(x));
    } else {
      hide Scanned, ScansToEnd;
      LineLengthAppend(a, x);
      var rest := a[NextLine(a)..];
      assert NextLine(a + x) == NextLine(a);
      Seqs.DropOfAppend(a, x, NextLine(a));
      Seqs.DropOfAppend(a, x, LineLength(a));
      ScanAppend(rest, x);
      ScanOne(a);
      ScanOne(a + x);
      Seqs.Assoc([DropCR(a[..LineLength(a)])], Scanned(rest), Scanned(x));
    }
  }

  lemma LineLengthWhole(x: Bytes)
    requires NoNewline(x)
    ensures LineLength(x) == |x| && LineLength(x + [NEWLINE]) == |x|
  {
    if x != [] {
      assert (x + [NEWLINE])[1..] == x[1..] + [NEWLINE];
      LineLengthWhole(x[1..]);
    }
  }

  /** A record's line scans to its body, with or without its line feed, when it fits. */
  lemma ScanLine(r: Record, whole: bool)
    requires Representable(r)
    ensures
      var x := if whole then LineOf(r) else Body(r);
      && Body(r) != [] && |LineOf(r)| == |Body(r)| + 1
      && ScansToEnd(x) == (|LineOf(r)| <= MAX_LINE_BYTES)
      && Scanned(x) == if |LineOf(r)| <= MAX_LINE_BYTES then [Body(r)] else []
  {
    hide Line, LineLength;
    LineIsCanonicalWithHash(r);
    LineEndsInOnlyNewline(r);
    LineLengthWhole(Body(r));
    assert LineOf(r) == Body(r) + [NEWLINE];
    assert (Body(r) + [NEWLINE])[..|Body(r)|] == Body(r) && Body(r)[..|Body(r)|] == Body(r);
    assert Body(r)[|Body(r)| - 1] == 0x7d;
    var x := if whole then LineOf(r) else Body(r);
    assert x[NextLine(x)..] == [];
  }

  lemma BodiesSnoc(rs: seq<Record>, r: Record)
    ensures Bodies(rs + [r]) == Bodies(rs) + [Body(r)]
  {
    hide Body;
    assert Front(rs + [r]) == rs && Last(rs + [r]) == r;
  }

  lemma {:induction false} ScanContent(tools: Tools, rs: seq<Record>)
    requires Written(tools, rs)
    ensures ScansToEnd(Content(rs)) <==> FitCount(rs) == |rs|
    ensures Scanned(Content(rs)) == Bodies(rs[..FitCount(rs)])
  {
    hide LineOf, Body, Scanned, ScansToEnd, Bodies, ChainHead, Head, Hex;
    if rs == [] {
      NothingScans();
    } else {
      var front, r := Front(rs), Last(rs);
      ScanContent(tools, front);
      if front != [] { ContentEndsInNewline(tools, front); }
      ScanAppend(Content(front), LineOf(r));
      ScanLine(r, true);
      Seqs.TakeOfFront(rs, FitCount(front)) by { assert FitCount(front) < |rs|; }
      Seqs.TakeAll(front);
      Seqs.TakeAll(rs);
      Seqs.TakeAll(Bodies(front));
      Seqs.FrontThenLast(rs);
      BodiesSnoc(front, r);
    }
  }

  lemma NothingScans()
    ensures ScansToEnd(Content([])) && Scanned(Content([])) == [] && Bodies([]) == []
  {
  }

  /** What the verifier decodes is the chain that was written, as a file can hold it. */
  lemma {:induction false} DecodeBodies(tools: Tools, rs: seq<Record>)
    requires ReadsPrinted(tools)
    requires Written(tools, rs)
    ensures Decoded(tools, Bodies(rs)) == Some(NormalAll(rs))
    ensures ChainHead(tools, NormalAll(rs)) == ChainHead(tools, rs) && ValidChain(tools, rs)
  {
    hide Blank, LineOf, Normal, VerifyRecord, Hex, Decoded, ChainHead, Body, DecodeHash, Succ,
         ReadsPrinted, Representable;
    if rs == [] {
      NothingDecodes(tools);
    } else {
      var front, r := Front(rs), Last(rs);
      DecodeBodies(tools, front);
      LastDecodes(tools, rs);
      BodyOf(r);
      DecodedSnoc(tools, Bodies(front), Body(r));
      ChainSnoc(tools, NormalAll(front), Normal(r));
      SuccCounts(|front|);
    }
  }

  lemma NothingDecodes(tools: Tools)
    ensures Decoded(tools, Bodies([])) == Some(NormalAll([])) && ChainHead(tools, []) == Some(ZeroDigest())
  {
  }

  lemma BodyOf(r: Record)
    requires Representable(r)
    ensures LineOf(r) != [] && Body(r) == LineOf(r)[..|LineOf(r)| - 1] && !Blank(Body(r))
  {
    hide Line;
    LineIsCanonicalWithHash(r);
    LineEndsInOnlyNewline(r);
    assert Body(r)[|Body(r)| - 1] == 0x7d;
  }

  lemma {:induction false} AcceptedPrefix(tools: Tools, ls: seq<Bytes>, n: nat)
    requires n <= |ls| && Accepted(tools, ls)
    ensures Accepted(tools, ls[..n])
    decreases |ls|
  {
    hide Blank, VerifyRecord;
    if n == |ls| {
      assert ls[..n] == ls;
    } else {
      var front, raw := ls[..|ls| - 1], ls[|ls| - 1];
      assert ls == front + [raw] && front[..n] == ls[..n];
      DecodedSnoc(tools, front, raw);
      if !Blank(raw) { ChainSnoc(tools, Decoded(tools, front).value, tools.decode(raw).value); }
      AcceptedPrefix(tools, front, n);
    }
  }

  /** When every line scanned is accepted, the verifier can only say so. */
  lemma VerdictWhenAccepted(tools: Tools, content: Bytes, v: Verdict)
    requires Faithful(tools, content, v) && Accepted(tools, Scanned(content))
    ensures
      var sum := SummaryOf(Decoded(tools, Scanned(content)).value);
      v == if ScansToEnd(content) then Clean(sum) else Unreadable(sum)
  {
    hide Decoded, Scanned, SummaryOf, ScansToEnd;
    if v.Diverges? {
      AcceptedPrefix(tools, Scanned(content), v.line);
      assert false;
    }
  }

  lemma WrittenPrefix(tools: Tools, rs: seq<Record>, n: nat)
    requires Written(tools, rs) && n <= |rs|
    ensures Written(tools, rs[..n])
  {
    hide Hex, Head, ChainHead;
    if n == |rs| {
      assert rs[..n] == rs;
    } else {
      assert Front(rs)[..n] == rs[..n];
      WrittenPrefix(tools, Front(rs), n);
    }
  }

  /** What the verifier says of the first `n` records that were written. */
  ghost function WrittenSummary(tools: Tools, rs: seq<Record>): Summary {
    Summary(|rs|, |rs| % TWO64, if rs == [] then [] else Hex(Head(tools, rs)))
  }

  /** The verifier accepts what the log wrote exactly when every line fits its reader, and then
      counts every record; otherwise it reads up to the first line that does not fit. */
  lemma VerifierAcceptsWritten(tools: Tools, rs: seq<Record>, v: Verdict)
    requires ReadsPrinted(tools)
    requires Written(tools, rs) && Faithful(tools, Content(rs), v)
    ensures v == if FitCount(rs) == |rs| then Clean(WrittenSummary(tools, rs))
                 else Unreadable(WrittenSummary(tools, rs[..FitCount(rs)]))
  {
    hide FitCount, Content, Written, Faithful, Scanned, ScansToEnd, Bodies, Decoded, SummaryOf,
         WrittenSummary, ChainHead;
    var fit := rs[..FitCount(rs)];
    ScanContent(tools, rs);
    WrittenPrefix(tools, rs, FitCount(rs));
    assert FitCount(rs) == |rs| ==> fit == rs;
    DecodeBodies(tools, fit);
    VerdictWhenAccepted(tools, Content(rs), v);
    SummaryOfNormal(tools, fit);
  }

  lemma SummaryOfNormal(tools: Tools, rs: seq<Record>)
    requires ReadsPrinted(tools)
    requires Written(tools, rs)
    ensures SummaryOf(NormalAll(rs)) == WrittenSummary(tools, rs)
  {
    if rs != [] { LastDecodes(tools, rs); }
    hide Hex, ChainHead, VerifyRecord, LineOf, Normal;
  }

  /** A file that lacks only its final line feed satisfies the verifier, which counts the unfinished
      record, while the log refuses to open on it. */
  lemma MissingNewlineSplitsReaders(tools: Tools, rs: seq<Record>, r: Record, v: Verdict)
    requires ReadsPrinted(tools)
    requires Written(tools, rs) && Written(tools, rs + [r]) && FitCount(rs + [r]) == |rs| + 1
    requires Faithful(tools, Content(rs) + Body(r), v)
    ensures v == Clean(WrittenSummary(tools, rs + [r]))
    ensures OpenState(tools, Content(rs) + Body(r)) == None
  {
    hide FitCount, Content, Written, LineOf, Body, OpenState, Scanned, ScansToEnd, Faithful, Bodies,
         ReadsPrinted, Decoded, ChainHead, SummaryOf, WrittenSummary;
    var all := rs + [r];
    assert all[..|all|] == all;
    UnfinishedScans(tools, rs, r);
    WrittenLast(tools, rs, r);
    BodyOf(r);
    TornLine(tools, Content(rs), r, |LineOf(r)| - 1);
    DecodeBodies(tools, all);
    VerdictWhenAccepted(tools, Content(rs) + Body(r), v);
    SummaryOfNormal(tools, all);
  }

  lemma UnfinishedScans(tools: Tools, rs: seq<Record>, r: Record)
    requires Written(tools, rs) && Written(tools, rs + [r]) && FitCount(rs + [r]) == |rs| + 1
    ensures Scanned(Content(rs) + Body(r)) == Bodies(rs + [r])
    ensures ScansToEnd(Content(rs) + Body(r))
  {
    hide FitCount, Content, LineOf, Body, Scanned, ScansToEnd, Bodies, ChainHead, Hex, Written;
    var all := rs + [r];
    Seqs.TakeAll(all);
    WrittenLast(tools, rs, r);
    ScanContent(tools, all);
    AppendedContent(rs, r);
    if rs != [] { ContentEndsInNewline(tools, rs); } else { EmptyTail(); }
    ScanAppend(Content(rs), Body(r));
    ScanAppend(Content(rs), LineOf(r));
    ScanLine(r, true);
    ScanLine(r, false);
  }
}
