/** How a file is cut into lines, and which of them hold no record. */
module AuditLines {
  import opened ByteStrings
  import opened Options
  import opened AuditRecord
  import opened AuditChain
  import opened AuditRuns
  import opened TailScan
  import Seqs

  const CR: byte := 13

  /** A line as it may stand in a file: without a line feed of its own, not ending in a carriage return, and
      short enough with the ending it is given. */
  ghost predicate IsLine(l: Bytes, crlf: bool) {
    NoNewline(l) && (l == [] || l[|l| - 1] != CR) && |l + Ending(crlf)| <= MAX_LINE_BYTES
  }

  function Ending(crlf: bool): Bytes { if crlf then [CR, NEWLINE] else [NEWLINE] }

  ghost function Joined(ls: seq<Bytes>, crlf: seq<bool>): (s: Bytes)
    requires |ls| == |crlf|
  {
    if ls == [] then [] else ls[0] + Ending(crlf[0]) + Joined(ls[1..], crlf[1..])
  }

  lemma LineIsScanned(l: Bytes, crlf: bool)
    requires IsLine(l, crlf)
    ensures Scanned(l + Ending(crlf)) == [l] && ScansToEnd(l + Ending(crlf))
  {
    hide LineLength;
    var raw := if crlf then l + [CR] else l;
    var s := l + Ending(crlf);
    assert s == raw + [NEWLINE];
    LineLengthWhole(raw);
    assert s[..|raw|] == raw && s[NextLine(s)..] == [];
    assert DropCR(raw) == l;
    ScanOne(s);
  }

  /** A file of lines, each ended by a line feed with or without a carriage return before it, is cut into just
      those lines. */
  lemma {:induction false} LinesAreScanned(ls: seq<Bytes>, crlf: seq<bool>)
    requires |ls| == |crlf| && forall i :: 0 <= i < |ls| ==> IsLine(ls[i], crlf[i])
    ensures Scanned(Joined(ls, crlf)) == ls && ScansToEnd(Joined(ls, crlf))
  {
    hide Scanned, ScansToEnd, IsLine;
    if ls == [] {
      NothingScans();
    } else {
      LinesAreScanned(ls[1..], crlf[1..]);
      LineIsScanned(ls[0], crlf[0]);
      ScanAppend(ls[0] + Ending(crlf[0]), Joined(ls[1..], crlf[1..]));
      assert ls == [ls[0]] + ls[1..];
    }
  }

  /** What may follow the last line feed is one more line, if there is anything. */
  lemma UnendedIsScanned(ls: seq<Bytes>, crlf: seq<bool>, l: Bytes)
    requires |ls| == |crlf| && forall i :: 0 <= i < |ls| ==> IsLine(ls[i], crlf[i])
    requires IsLine(l, false) && l != []
    ensures Scanned(Joined(ls, crlf) + l) == ls + [l] && ScansToEnd(Joined(ls, crlf) + l)
  {
    hide Scanned, ScansToEnd;
    LinesAreScanned(ls, crlf);
    JoinedEnds(ls, crlf);
    ScanAppend(Joined(ls, crlf), l);
    hide LineLength;
    LineLengthWhole(l);
    assert l[..|l|] == l && l[NextLine(l)..] == [];
    ScanOne(l);
    NothingScans();
  }

  lemma {:induction false} JoinedEnds(ls: seq<Bytes>, crlf: seq<bool>)
    requires |ls| == |crlf|
    ensures
      var s := Joined(ls, crlf);
      s == [] || s[|s| - 1] == NEWLINE
  {
    if ls != [] { JoinedEnds(ls[1..], crlf[1..]); }
  }

  /** A line of 1 MiB or more, wherever it stands, ends the scan there. */
  lemma TooLongStops(ls: seq<Bytes>, crlf: seq<bool>, l: Bytes, t: Bytes)
    requires |ls| == |crlf| && forall i :: 0 <= i < |ls| ==> IsLine(ls[i], crlf[i])
    requires NoNewline(l) && |l| >= MAX_LINE_BYTES
    ensures Scanned(Joined(ls, crlf) + (l + t)) == ls && !ScansToEnd(Joined(ls, crlf) + (l + t))
  {
    hide Scanned, ScansToEnd;
    LinesAreScanned(ls, crlf);
    JoinedEnds(ls, crlf);
    ScanAppend(Joined(ls, crlf), l + t);
    hide LineLength;
    LineLengthAtLeast(l, t);
    ScanOne(l + t);
  }

  lemma {:induction false} LineLengthAtLeast(l: Bytes, t: Bytes)
    requires NoNewline(l)
    ensures LineLength(l + t) >= |l|
  {
    if l != [] {
      assert (l + t)[1..] == l[1..] + t;
      LineLengthAtLeast(l[1..], t);
    }
  }

  /** A line of spaces, tabs, feeds and returns counts for nothing; any other holds one record, in its place. */
  lemma {:induction false} BlankIsSkipped(tools: Tools, a: seq<Bytes>, l: Bytes, b: seq<Bytes>)
    ensures (forall i :: 0 <= i < |l| ==> l[i] in {9, 10, 11, 12, 13, 32}) ==>
              Decoded(tools, a + [l] + b) == Decoded(tools, a + b)
    ensures (exists i :: 0 <= i < |l| && l[i] !in {9, 10, 11, 12, 13, 32}) ==>
              (Decoded(tools, a + [l] + b).Some? ==>
                 tools.decode(l).Some? && Decoded(tools, a).Some?
                 && Decoded(tools, a).value + [tools.decode(l).value] <= Decoded(tools, a + [l] + b).value)
    decreases |b|
  {
    hide Decoded;
    if b == [] {
      assert a + [l] + b == a + [l] && a + b == a;
      DecodedSnoc(tools, a, l);
      if Decoded(tools, a + [l]).Some? { Seqs.TakeAll(Decoded(tools, a + [l]).value); }
    } else {
      var front, last := b[..|b| - 1], b[|b| - 1];
      BlankIsSkipped(tools, a, l, front);
      assert a + [l] + b == (a + [l] + front) + [last] && a + b == (a + front) + [last];
      DecodedSnoc(tools, a + [l] + front, last);
      DecodedSnoc(tools, a + front, last);
    }
  }
}
