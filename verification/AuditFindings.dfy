/** What verify finds of any file at all, told from the records it holds and the anchors that name it. */
module AuditFindings {
  import opened ByteStrings
  import opened Options
  import opened AuditRecord
  import opened AuditChain
  import AuditRuns
  import AuditTail
  import opened AuditAnchors
  import opened AnchoredRuns

  /** A file verifies exactly when it is scanned to its end and every line that is not blank decodes to the next
      record of a chain: numbered from one, each following the head before it. */
  lemma CleanExactly(tools: Tools, file: Bytes, v: Verdict)
    requires Faithful(tools, file, v)
    ensures v.Clean? <==> ScansToEnd(file) && Decoded(tools, Scanned(file)).Some?
                          && exists heads :: AuditTail.HeadsOf(tools, Decoded(tools, Scanned(file)).value, heads)
  {
    hide Decoded, Scanned, ScansToEnd, ChainHead, AuditTail.HeadsOf;
    if Decoded(tools, Scanned(file)).Some? {
      var held := Decoded(tools, Scanned(file)).value;
      if ChainHead(tools, held).Some? { AuditTail.ChainIsFollowed(tools, held, ChainHead(tools, held).value); }
      if heads :| AuditTail.HeadsOf(tools, held, heads) {
        HeadsReach(tools, held, heads);
        AuditTail.ChainIsFollowed(tools, held, heads[|held|]);
      }
    }
    if v.Diverges? && Accepted(tools, Scanned(file)) { AcceptedFront(tools, Scanned(file), v.line); }
  }

  /** Lines that are accepted are accepted up to any of them. */
  lemma {:induction false} AcceptedFront(tools: Tools, ls: seq<Bytes>, n: nat)
    requires Accepted(tools, ls) && n <= |ls|
    ensures Accepted(tools, ls[..n])
    decreases |ls|
  {
    hide Blank, VerifyRecord;
    if n < |ls| {
      var front := ls[..|ls| - 1];
      DecodedSnoc(tools, front, ls[|ls| - 1]);
      assert front + [ls[|ls| - 1]] == ls;
      var rs := Decoded(tools, front).value;
      if !Blank(ls[|ls| - 1]) { ChainSnoc(tools, rs, tools.decode(ls[|ls| - 1]).value); }
      AcceptedFront(tools, front, n);
      assert front[..n] == ls[..n];
    } else {
      assert ls[..n] == ls;
    }
  }

  lemma HeadsReach(tools: Tools, rs: seq<AuditRecord.Record>, heads: seq<Digest>)
    requires AuditTail.HeadsOf(tools, rs, heads)
    ensures |heads| == |rs| + 1
  {
  }

  /** What a file that verifies holds: its records and the head they leave. */
  lemma HeldByClean(tools: Tools, file: Bytes, v: Verdict)
    requires Faithful(tools, file, v) && v.Clean? && |file| <= MAX_FILE
    ensures
      var held := Decoded(tools, Scanned(file));
      && held.Some? && ValidChain(tools, held.value) && |held.value| < TWO64
      && v.sum.records == v.sum.lastSeq == |held.value|
      && Hex(AuditRuns.Head(tools, held.value)) == if held.value == [] then Hex(ZeroDigest()) else v.sum.lastHash
  {
    hide Hex, Decoded, Scanned, ScansToEnd, ChainHead;
    var held := Decoded(tools, Scanned(file)).value;
    ScannedCount(file);
    DecodedCount(tools, Scanned(file));
    HeadInSummary(tools, held);
  }

  /** What verify says of a file that verifies, whatever anchors it is compared with: truncated exactly when the
      newest anchor counts more records than are held, behind exactly when fewer, and of as many, altered
      exactly when the head held is not the one anchored. */
  lemma FindingIs(tools: Tools, file: Bytes, v: Verdict, anchors: seq<Anchor>)
    requires Faithful(tools, file, v) && |file| <= MAX_FILE
    ensures (Conclude(v, anchors) == ChainFails <==> !v.Clean?)
    ensures v.Clean? ==>
              var held := Decoded(tools, Scanned(file)).value;
              var found := Conclude(v, anchors);
              && (found == Unanchored <==> anchors == [])
              && (anchors != [] ==>
                    var a := Newest(anchors);
                    && (found == Truncated <==> |held| < a.seq_) && (found == Behind <==> |held| > a.seq_)
                    && (found == Altered <==> |held| == a.seq_ && a.hash != Hex(AuditRuns.Head(tools, held)))
                    && (found == Matches <==> |held| == a.seq_ && a.hash == Hex(AuditRuns.Head(tools, held))))
  {
    hide Hex, Newest, Faithful, Decoded, Scanned, AuditRuns.Head;
    if v.Clean? { HeldByClean(tools, file, v); }
  }

  /** The newest anchor of a run names the records it was published after, and their head. */
  lemma NewestNames(tools: Tools, path: Bytes, anchors: seq<Anchor>, rs: seq<AuditRecord.Record>, counts: seq<nat>)
    requires AnchorsTrue(tools, path, anchors, rs, counts) && counts != [] && |rs| < TWO64
    ensures anchors != [] && NewestCount(counts) <= |rs|
    ensures
      var n := NewestCount(counts);
      Newest(anchors).seq_ == n && Newest(anchors).hash == Hex(AuditRuns.Head(tools, rs[..n]))
  {
    hide Hex, NewestCount, Newest, AuditRuns.Head;
    NewestIsNewestCount(tools, path, anchors, rs, counts);
  }

  lemma HexTells(a: Digest, b: Digest)
    ensures Hex(a) == Hex(b) <==> a == b
  {
    hide Hex;
    DecodeHex(a);
    DecodeHex(b);
  }

  /** `found` of `held` is what the newest of `counts` says of it. */
  ghost predicate FoundOf(tools: Tools, rs: seq<AuditRecord.Record>, n: nat, held: seq<AuditRecord.Record>,
                          found: Finding)
    requires n <= |rs|
  {
    && (found == Truncated <==> |held| < n) && (found == Behind <==> |held| > n)
    && (found == Altered <==> |held| == n && AuditRuns.Head(tools, held) != AuditRuns.Head(tools, rs[..n]))
    && (found == Matches <==> |held| == n && AuditRuns.Head(tools, held) == AuditRuns.Head(tools, rs[..n]))
  }

  /** What verify says of any file put in place of the log of any run. */
  lemma FindingOnRun(tools: Tools, path: Bytes, up: bool, acts: seq<Action>, file: Bytes, v: Verdict)
    requires ReadsPrinted(tools) && |Run(tools, path, up, acts).1| < TWO64
    requires Faithful(tools, file, v) && v.Clean? && |file| <= MAX_FILE
    ensures
      var (w, rs, counts) := Run(tools, path, up, acts);
      var held := Decoded(tools, Scanned(file));
      && held.Some?
      && if counts == [] then Conclude(v, w.anchors) == Unanchored
         else
           && NewestCount(counts) <= |rs|
           && FoundOf(tools, rs, NewestCount(counts), held.value, Conclude(v, w.anchors))
  {
    hide Run, Faithful, AuditRuns.Head, Hex, NewestCount, Newest, Decoded, Scanned, Conclude, AuditRuns.Sound,
         ReadsPrinted, AnchorOf;
    var (w, rs, counts) := Run(tools, path, up, acts);
    RunIsAnchored(tools, path, up, acts);
    HeldByClean(tools, file, v);
    FindingIs(tools, file, v, w.anchors);
    if counts != [] {
      NewestNames(tools, path, w.anchors, rs, counts);
      var held := Decoded(tools, Scanned(file)).value;
      HexTells(AuditRuns.Head(tools, rs[..NewestCount(counts)]), AuditRuns.Head(tools, held));
    }
  }

  /** A file put in place of the log that holds as many records as the newest anchor covers, one of them other
      than what was recorded, is reported altered, unless two different inputs with one digest can be
      exhibited. */
  lemma AlteredIsSeen(tools: Tools, path: Bytes, up: bool, acts: seq<Action>, file: Bytes, v: Verdict, i: nat)
    returns (clash: Option<(Bytes, Bytes)>)
    requires ReadsPrinted(tools) && |Run(tools, path, up, acts).1| < TWO64
    requires Faithful(tools, file, v) && v.Clean? && |file| <= MAX_FILE
    requires
      var (w, rs, counts) := Run(tools, path, up, acts);
      var held := Decoded(tools, Scanned(file)).value;
      && counts != [] && |held| == NewestCount(counts) && i < |held| <= |rs|
      && CanonicalForm(held[i]) != CanonicalForm(rs[i])
    ensures
      match clash
      case Some(c) => Collision(tools, c.0, c.1)
      case None => Conclude(v, Run(tools, path, up, acts).0.anchors) == Altered
  {
    hide Run, Faithful, AuditRuns.Head, NewestCount, Decoded, Scanned, Conclude, ReadsPrinted, CanonicalForm;
    FindingOnRun(tools, path, up, acts, file, v);
    clash := None;
    if Conclude(v, Run(tools, path, up, acts).0.anchors) != Altered {
      clash := MatchMeansSameRecords(tools, path, up, acts, file, v);
    }
  }
}
