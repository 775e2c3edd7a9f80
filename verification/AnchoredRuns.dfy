/** Whole runs of the broker: every recorded operation is anchored, and verify compares the file with
    the anchors. */
module AnchoredRuns {
  import opened ByteStrings
  import opened Options
  import opened AuditRecord
  import opened AuditChain
  import opened AuditLog
  import opened AuditRuns
  import opened AuditAnchors
  import opened TailScan

  /** One thing a broker process does. `Record` is an operation's record or a refusal at the flag
      boundary; `up` says the journal socket takes datagrams at that moment. */
  datatype Action = Record(r: AuditRecord.Record, lands: bool, syncs: bool, up: bool) | Close | Open

  /** The log, and the anchors that name it. */
  datatype World = World(log: LogState, anchors: seq<Anchor>)

  function ActionEvent(a: Action): Event {
    match a
    case Record(r, lands, syncs, _) => Event.Append(r, lands, syncs)
    case Close => Event.Close
    case Open => Event.Open
  }

  ghost function TailAnchor(st: LogState, path: Bytes): (as_: seq<Anchor>) {
    match st.handle
    case None => []
    case Some(h) => [Anchor(h.0, Hex(h.1), path)]
  }

  /** What publishing adds: nothing when the socket is down or the path cannot be sent. */
  ghost function Publish(st: LogState, path: Bytes, up: bool): (as_: seq<Anchor>) {
    if up && ValueOk(path) then TailAnchor(st, path) else []
  }

  ghost function Act(tools: Tools, path: Bytes, w: World, a: Action): (w': World) {
    var log := Step(tools, w.log, ActionEvent(a));
    match a
    case Close => World(log, w.anchors)
    case Open => World(log, w.anchors)
    case Record(r, lands, syncs, up) =>
      World(log, w.anchors + if Appended(tools, w.log, r, lands, syncs).Some?
                             then Publish(log, path, up) else [])
  }

  /** A log created from nothing anchors itself before anything else happens. */
  ghost function Created(path: Bytes, up: bool): World {
    var log := LogState([], Some((0, ZeroDigest())));
    World(log, Publish(log, path, up))
  }

  /** The journal, as far as one process can reach it: anchors are added and never removed. */
  class Journal {
    var anchors: seq<Anchor>

    constructor ()
      ensures anchors == []
    {
      anchors := [];
    }
  }

  /** Appends one record per operation and then anchors the tail, reporting at most one failure. */
  class Recorder {
    const log: Log
    const journal: Journal
    const path: Bytes
    var reported: nat

    ghost predicate Valid()
      reads this, log
    {
      log.Valid() && reported <= 1
    }

    ghost function State(): World
      reads log, log.disk, journal
    {
      World(log.State(), journal.anchors)
    }

    /** Takes over a log this process opened, or created just now. */
    constructor (log: Log, journal: Journal, path: Bytes)
      requires log.Valid()
      ensures Valid() && this.log == log && this.journal == journal && this.path == path
      ensures reported == 0
    {
      this.log, this.journal, this.path, this.reported := log, journal, path, 0;
    }

    /** Publishes the tail of the log as it stands; false when it could not be published. */
    method AnchorTail(up: bool) returns (ok: bool)
      requires Valid() && log.f != null
      modifies journal
      ensures journal.anchors == old(journal.anchors) + Publish(log.State(), path, up)
      ensures ok <==> up && ValueOk(path)
    {
      var a := Anchor(log.seq_, Hex(log.head), path);
      SendableByPath(a, log.head);
      var payload := EncodeAnchor(a);
      if payload.None? || !up { return false; }
      journal.anchors := journal.anchors + [a];
      return true;
    }

    /** Records one operation and anchors it. A failure to anchor is reported once per run and
        changes nothing else. */
    method Record(r: AuditRecord.Record, lands: bool, syncs: bool, up: bool)
      requires Valid()
      modifies this, log, log.disk, journal
      ensures Valid()
      ensures State() == Act(log.tools, path, old(State()), Action.Record(r, lands, syncs, up))
      ensures reported == if Appended(log.tools, old(log.State()), r, lands, syncs).Some? && !(up && ValueOk(path))
                          then 1 else old(reported)
    {
      var stored := log.Append(r, lands, syncs);
      if stored.None? { return; }
      var ok := AnchorTail(up);
      if !ok && reported == 0 { reported := 1; }
    }
  }

  // ---- Whole runs ----

  ghost function Advance(tools: Tools, path: Bytes, s: (World, seq<AuditRecord.Record>, seq<nat>), a: Action)
    : (t: (World, seq<AuditRecord.Record>, seq<nat>))
  {
    var w := Act(tools, path, s.0, a);
    var rs := s.1 + Landed(tools, s.0.log, ActionEvent(a));
    (w, rs, if |w.anchors| == |s.0.anchors| then s.2 else s.2 + [|rs|])
  }

  /** The world after a log was created and `acts` happened, the records that landed, and for each
      anchor how many records the log held when it was published. */
  ghost function Run(tools: Tools, path: Bytes, up: bool, acts: seq<Action>)
    : (s: (World, seq<AuditRecord.Record>, seq<nat>))
  {
    if acts == [] then
      var w := Created(path, up);
      (w, [], if w.anchors == [] then [] else [0])
    else
      Advance(tools, path, Run(tools, path, up, acts[..|acts| - 1]), acts[|acts| - 1])
  }

  /** The anchor of a log that holds `rs`. */
  ghost function AnchorOf(tools: Tools, rs: seq<AuditRecord.Record>, path: Bytes): Anchor {
    Anchor(|rs| % TWO64, Hex(Head(tools, rs)), path)
  }

  /** Every anchor is the state of the chain after the number of records it was published at. */
  ghost predicate AnchorsTrue(tools: Tools, path: Bytes, anchors: seq<Anchor>,
                              rs: seq<AuditRecord.Record>, counts: seq<nat>) {
    && |counts| == |anchors|
    && forall i :: 0 <= i < |counts| ==>
         counts[i] <= |rs| && anchors[i] == AnchorOf(tools, rs[..counts[i]], path)
  }

  lemma AnchorsStayTrue(tools: Tools, path: Bytes, anchors: seq<Anchor>,
                        rs: seq<AuditRecord.Record>, counts: seq<nat>,
                        more: seq<AuditRecord.Record>)
    requires AnchorsTrue(tools, path, anchors, rs, counts)
    ensures AnchorsTrue(tools, path, anchors, rs + more, counts)
  {
    hide AnchorOf;
    forall i | 0 <= i < |counts|
      ensures anchors[i] == AnchorOf(tools, (rs + more)[..counts[i]], path)
    {
      assert (rs + more)[..counts[i]] == rs[..counts[i]];
    }
  }

  /** A record that Append reports durable has landed, and the handle stands right after it. */
  lemma DurableLanded(tools: Tools, st: LogState, rs: seq<AuditRecord.Record>,
                      r: AuditRecord.Record, lands: bool, syncs: bool)
    requires Sound(tools, st, rs) && Appended(tools, st, r, lands, syncs).Some?
    ensures
      var e := Event.Append(r, lands, syncs);
      Step(tools, st, e).handle.Some? && |Landed(tools, st, e)| == 1
  {
    hide Sound, Stamp, HashRecord, Line;
  }

  lemma TailAnchorIsTrue(tools: Tools, st: LogState, rs: seq<AuditRecord.Record>, path: Bytes)
    requires Sound(tools, st, rs) && st.handle.Some?
    ensures TailAnchor(st, path) == [AnchorOf(tools, rs, path)]
  {
    hide Written, Content, Head, Hex;
  }

  /** In every run of one writer, the file holds the records that landed and each published anchor
      is the chain state after the records it was published at. */
  lemma {:induction false} RunIsAnchored(tools: Tools, path: Bytes, up: bool, acts: seq<Action>)
    requires ReadsPrinted(tools)
    ensures
      var (w, rs, counts) := Run(tools, path, up, acts);
      Sound(tools, w.log, rs) && AnchorsTrue(tools, path, w.anchors, rs, counts)
  {
    hide Step, Landed, Sound, AnchorOf;
    if acts == [] {
      FreshIsSound(tools);
      TailAnchorIsTrue(tools, LogState([], Some((0, ZeroDigest()))), [], path);
    } else {
      var front, a := acts[..|acts| - 1], acts[|acts| - 1];
      RunIsAnchored(tools, path, up, front);
      var (w, rs, counts) := Run(tools, path, up, front);
      ActKeepsAnchored(tools, path, w, a, rs, counts);
    }
  }

  lemma ActKeepsAnchored(tools: Tools, path: Bytes, w: World, a: Action,
                         rs: seq<AuditRecord.Record>, counts: seq<nat>)
    requires ReadsPrinted(tools)
    requires Sound(tools, w.log, rs) && AnchorsTrue(tools, path, w.anchors, rs, counts)
    ensures
      var w' := Act(tools, path, w, a);
      var rs' := rs + Landed(tools, w.log, ActionEvent(a));
      && Sound(tools, w'.log, rs')
      && AnchorsTrue(tools, path, w'.anchors, rs',
                     if |w'.anchors| == |w.anchors| then counts else counts + [|rs'|])
  {
    hide Step, Landed, Sound, AnchorOf, Appended, TailAnchor;
    var e := ActionEvent(a);
    var more := Landed(tools, w.log, e);
    var w' := Act(tools, path, w, a);
    StepKeepsSound(tools, w.log, rs, e);
    AnchorsStayTrue(tools, path, w.anchors, rs, counts, more);
    if a.Record? && Appended(tools, w.log, a.r, a.lands, a.syncs).Some? && a.up && ValueOk(path) {
      DurableLanded(tools, w.log, rs, a.r, a.lands, a.syncs);
      TailAnchorIsTrue(tools, w'.log, rs + more, path);
      assert (rs + more)[..|rs + more|] == rs + more;
    } else {
      assert w'.anchors == w.anchors;
    }
  }

  /** A log created while the journal can be reached is anchored before anything else happens. */
  lemma CreationIsAnchored(tools: Tools, path: Bytes)
    requires ValueOk(path)
    ensures
      var (w, rs, counts) := Run(tools, path, true, []);
      w.anchors == [AnchorOf(tools, [], path)] && rs == [] && counts == [0]
  {
    FreshIsSound(tools);
    TailAnchorIsTrue(tools, LogState([], Some((0, ZeroDigest()))), [], path);
  }

  /** The last thing a run does is to record an operation durably while the journal can be reached. */
  ghost predicate EndsDurably(tools: Tools, path: Bytes, up: bool, acts: seq<Action>) {
    && acts != [] && ValueOk(path)
    && var a := acts[|acts| - 1];
       a.Record? && a.up
       && Appended(tools, Run(tools, path, up, acts[..|acts| - 1]).0.log, a.r, a.lands, a.syncs).Some?
  }

  /** Such a run leaves the newest anchor on all of its records. */
  lemma LastOperationIsAnchored(tools: Tools, path: Bytes, up: bool, acts: seq<Action>)
    requires ReadsPrinted(tools) && EndsDurably(tools, path, up, acts)
    ensures
      var (w, rs, counts) := Run(tools, path, up, acts);
      && counts != [] && counts[|counts| - 1] == NewestCount(counts) == |rs| > 0
      && w.anchors != [] && w.anchors[|w.anchors| - 1] == AnchorOf(tools, rs, path)
  {
    hide Step, Landed, Sound, AnchorOf, Appended, TailAnchor, ReadsPrinted, ValueOk, NewestCount;
    var front, a := acts[..|acts| - 1], acts[|acts| - 1];
    RunIsAnchored(tools, path, up, front);
    RunIsAnchored(tools, path, up, acts);
    var (w, rs, counts) := Run(tools, path, up, front);
    DurableLanded(tools, w.log, rs, a.r, a.lands, a.syncs);
    StepKeepsSound(tools, w.log, rs, ActionEvent(a));
    TailAnchorIsTrue(tools, Act(tools, path, w, a).log, rs + Landed(tools, w.log, ActionEvent(a)), path);
  }

  // ---- Verifying against the anchors ----

  /** The most records any anchor covers. */
  ghost function NewestCount(counts: seq<nat>): (n: nat)
    requires counts != []
    ensures exists i :: 0 <= i < |counts| && counts[i] == n
    ensures forall i :: 0 <= i < |counts| ==> counts[i] <= n
  {
    var last := counts[|counts| - 1];
    if |counts| == 1 then last
    else
      var m := NewestCount(counts[..|counts| - 1]);
      if last > m then last else m
  }

  lemma NewestIsNewestCount(tools: Tools, path: Bytes, anchors: seq<Anchor>,
                            rs: seq<AuditRecord.Record>, counts: seq<nat>)
    requires AnchorsTrue(tools, path, anchors, rs, counts) && counts != [] && |rs| < TWO64
    ensures NewestCount(counts) <= |rs|
    ensures Newest(anchors) == AnchorOf(tools, rs[..NewestCount(counts)], path)
  {
    hide Hex, Head, NewestCount, Newest;
    var n, newest := NewestCount(counts), Newest(anchors);
    var i :| 0 <= i < |counts| && counts[i] == n;
    var j :| 0 <= j < |anchors| && anchors[j] == newest;
    AnchorSeq(tools, path, anchors, rs, counts, i);
    AnchorSeq(tools, path, anchors, rs, counts, j);
    hide AnchorsTrue, AnchorOf;
    assert anchors[i] in anchors;
  }

  lemma AnchorSeq(tools: Tools, path: Bytes, anchors: seq<Anchor>, rs: seq<AuditRecord.Record>,
                  counts: seq<nat>, i: nat)
    requires AnchorsTrue(tools, path, anchors, rs, counts) && i < |counts| && |rs| < TWO64
    ensures counts[i] <= |rs| && anchors[i] == AnchorOf(tools, rs[..counts[i]], path)
    ensures anchors[i].seq_ == counts[i]
  {
    hide Hex, Head;
  }

  /** What verify says of the first `m` records of a log, given the anchors of the whole run: it sees
      a truncation exactly when the newest anchor covers more than is left, and never an alteration;
      the chain fails exactly when some line is too long for the reader. */
  lemma VerifyAfterTruncation(tools: Tools, path: Bytes, up: bool, acts: seq<Action>, m: nat, v: Verdict)
    requires ReadsPrinted(tools)
    requires
      var (w, rs, counts) := Run(tools, path, up, acts);
      && m <= |rs| && |rs| < TWO64
      && Faithful(tools, Content(rs[..m]), v)
    ensures
      var (w, rs, counts) := Run(tools, path, up, acts);
      Conclude(v, w.anchors) ==
      if FitCount(rs[..m]) < m then ChainFails
      else if counts == [] then Unanchored
      else if m < NewestCount(counts) then Truncated
      else if m == NewestCount(counts) then Matches
      else Behind
  {
    hide Run, Written, Content, Faithful, FitCount, Head, Hex, NewestCount, Newest, Conclude,
         WrittenSummary, AnchorsTrue;
    var (w, rs, counts) := Run(tools, path, up, acts);
    RunIsAnchored(tools, path, up, acts);
    WrittenPrefix(tools, rs, m);
    assert rs[..m][..m] == rs[..m];
    VerifierAcceptsWritten(tools, rs[..m], v);
    if FitCount(rs[..m]) < m {
      BrokenChainFails(v, w.anchors);
    } else {
      ConcludeOnWritten(tools, path, w.anchors, rs, counts, m);
    }
  }

  lemma BrokenChainFails(v: Verdict, anchors: seq<Anchor>)
    requires !v.Clean?
    ensures Conclude(v, anchors) == ChainFails
  {
  }

  /** After a run that ends durably, every shorter prefix of the log is seen to be cut. */
  lemma EveryCutIsSeen(tools: Tools, path: Bytes, up: bool, acts: seq<Action>, m: nat, v: Verdict)
    requires ReadsPrinted(tools) && EndsDurably(tools, path, up, acts)
    requires
      var (w, rs, counts) := Run(tools, path, up, acts);
      m < |rs| < TWO64 && Faithful(tools, Content(rs[..m]), v)
    ensures
      var (w, rs, counts) := Run(tools, path, up, acts);
      Conclude(v, w.anchors) == if FitCount(rs[..m]) < m then ChainFails else Truncated
  {
    hide Run, Content, Faithful, FitCount, NewestCount, Conclude, ReadsPrinted, EndsDurably;
    LastOperationIsAnchored(tools, path, up, acts);
    VerifyAfterTruncation(tools, path, up, acts, m, v);
  }

  lemma ConcludeOnWritten(tools: Tools, path: Bytes, anchors: seq<Anchor>,
                          rs: seq<AuditRecord.Record>, counts: seq<nat>, m: nat)
    requires AnchorsTrue(tools, path, anchors, rs, counts) && m <= |rs| < TWO64
    ensures Conclude(Clean(WrittenSummary(tools, rs[..m])), anchors) ==
            if counts == [] then Unanchored
            else if m < NewestCount(counts) then Truncated
            else if m == NewestCount(counts) then Matches
            else Behind
  {
    hide Head, Hex, NewestCount, Newest;
    EmptyHead(tools);
    if counts != [] {
      NewestIsNewestCount(tools, path, anchors, rs, counts);
      hide AnchorsTrue;
      assert m == 0 ==> rs[..m] == [];
    }
  }

  lemma EmptyHead(tools: Tools)
    ensures Head(tools, []) == ZeroDigest()
  {
  }

  /** A log whose path cannot be sent is never anchored, whatever happens. */
  lemma {:induction false} UnsendablePathIsNeverAnchored(tools: Tools, path: Bytes, up: bool, acts: seq<Action>)
    requires |path| > 256 || 10 in path || 0 in path
    ensures Run(tools, path, up, acts).0.anchors == []
  {
    hide Step, Landed, Appended;
    if acts != [] {
      UnsendablePathIsNeverAnchored(tools, path, up, acts[..|acts| - 1]);
    }
  }

  // ---- What a match proves ----

  /** The largest file an operating system can report the size of. */
  const MAX_FILE := 0x7fff_ffff_ffff_ffff

  lemma {:induction false} ScannedCount(s: Bytes)
    ensures |Scanned(s)| <= |s|
  {
    hide LineLength, DropCR;
    if s != [] && LineLength(s) < MAX_LINE_BYTES { ScannedCount(s[NextLine(s)..]); }
  }

  lemma {:induction false} DecodedCount(tools: Tools, ls: seq<Bytes>)
    requires Decoded(tools, ls).Some?
    ensures |Decoded(tools, ls).value| <= |ls|
  {
    hide Blank;
    if ls != [] { DecodedCount(tools, ls[..|ls| - 1]); }
  }

  lemma {:induction false} NormalAllCanonical(rs: seq<AuditRecord.Record>)
    ensures forall i :: 0 <= i < |rs| ==> CanonicalForm(NormalAll(rs)[i]) == CanonicalForm(rs[i])
  {
    hide Normal, CanonicalForm;
    if rs != [] {
      NormalAllCanonical(Front(rs));
      CanonicalOfNormal(Last(rs));
    }
  }

  /** When verify finds that any file at all matches the anchors of a run, the file holds the records
      the newest anchor was published after, in their canonical form, unless two different inputs
      with one digest can be exhibited. */
  lemma MatchMeansSameRecords(tools: Tools, path: Bytes, up: bool, acts: seq<Action>, file: Bytes,
                              v: Verdict)
    returns (clash: Option<(Bytes, Bytes)>)
    requires ReadsPrinted(tools)
    requires |Run(tools, path, up, acts).1| < TWO64 && |file| <= MAX_FILE
    requires Faithful(tools, file, v) && Conclude(v, Run(tools, path, up, acts).0.anchors) == Matches
    ensures
      var (w, rs, counts) := Run(tools, path, up, acts);
      var held := Decoded(tools, Scanned(file));
      && held.Some? && counts != [] && |held.value| == NewestCount(counts) <= |rs|
      && match clash
         case Some(c) => Collision(tools, c.0, c.1)
         case None => forall i :: 0 <= i < NewestCount(counts) ==>
                        CanonicalForm(held.value[i]) == CanonicalForm(rs[i])
  {
    hide Run, Faithful, Head, Hex, NewestCount, Newest, FindCollision, CanonicalForm, Written;
    var (w, rs, counts) := Run(tools, path, up, acts);
    RunIsAnchored(tools, path, up, acts);
    NewestIsNewestCount(tools, path, w.anchors, rs, counts);
    var kept := rs[..NewestCount(counts)];
    WrittenPrefix(tools, rs, NewestCount(counts));
    var held := MatchedChain(tools, path, w.anchors, kept, file, v);
    DecodeBodies(tools, kept);
    clash := FindCollision(tools, NormalAll(kept), held);
    TamperEvident(tools, NormalAll(kept), held);
    NormalAllCanonical(kept);
  }

  /** The chain in a file that matches the newest anchor has that anchor's length and head. */
  lemma MatchedChain(tools: Tools, path: Bytes, anchors: seq<Anchor>, kept: seq<AuditRecord.Record>,
                     file: Bytes, v: Verdict)
    returns (held: seq<AuditRecord.Record>)
    requires |kept| < TWO64 && |file| <= MAX_FILE && anchors != [] && Written(tools, kept)
    requires Faithful(tools, file, v) && Conclude(v, anchors) == Matches
    requires Newest(anchors) == AnchorOf(tools, kept, path)
    ensures Decoded(tools, Scanned(file)) == Some(held) && |held| == |kept|
    ensures ValidChain(tools, held) && ChainHead(tools, held) == ChainHead(tools, kept)
  {
    hide Newest, Hex, Decoded, Scanned, ScansToEnd, Written, ChainHead;
    held := Decoded(tools, Scanned(file)).value;
    ScannedCount(file);
    DecodedCount(tools, Scanned(file));
    WrittenIsChain(tools, kept);
    HeadInSummary(tools, held);
    assert v == Clean(SummaryOf(held));
    hide Faithful;
    MatchedHead(anchors, SummaryOf(held));
    assert |held| == |kept|;
    DecodeHex(Head(tools, held));
    DecodeHex(Head(tools, kept));
  }

  lemma MatchedHead(anchors: seq<Anchor>, sum: Summary)
    requires Conclude(Clean(sum), anchors) == Matches
    ensures anchors != [] && Newest(anchors).seq_ == sum.lastSeq
    ensures Newest(anchors).hash == if sum.records == 0 then Hex(ZeroDigest()) else sum.lastHash
  {
    hide Newest, Hex;
  }

  lemma HeadInSummary(tools: Tools, rs: seq<AuditRecord.Record>)
    requires ValidChain(tools, rs)
    ensures rs != [] ==> Last(rs).hash == Hex(Head(tools, rs))
    ensures rs == [] ==> Head(tools, rs) == ZeroDigest()
  {
    hide Hex, HashRecord, DecodeHash;
  }
}
