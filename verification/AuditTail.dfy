/** What opening a log makes of its last record, and of one that was edited. */
module AuditTail {
  import opened ByteStrings
  import opened Options
  import opened AuditRecord
  import opened AuditChain
  import opened AuditLog
  import opened AuditRuns
  import opened TailScan
  import JsonString
  import Seqs

  function LowerByte(b: byte): byte { if 65 <= b <= 90 then b + 32 else b }

  function Lowered(s: Bytes): (r: Bytes)
    ensures |r| == |s|
  {
    seq(|s|, i requires 0 <= i < |s| => LowerByte(s[i]))
  }

  lemma NibbleIs(b: byte, n: int)
    requires 0 <= n < 16
    ensures JsonString.AnyHexValue(b) == Some(n) <==> LowerByte(b) == JsonString.HexDigit(n)
  {
  }

  lemma LoweredPair(s: Bytes, d: Bytes)
    requires |s| >= 2 && d != []
    ensures Lowered(s) == Hex(d) <==>
              && LowerByte(s[0]) == JsonString.HexDigit(d[0] / 16) && LowerByte(s[1]) == JsonString.HexDigit(d[0] % 16)
              && Lowered(s[2..]) == Hex(d[1..])
  {
    hide LowerByte, JsonString.HexDigit;
    var h := [JsonString.HexDigit(d[0] / 16), JsonString.HexDigit(d[0] % 16)];
    assert Hex(d) == h + Hex(d[1..]);
    assert Lowered(s) == [LowerByte(s[0]), LowerByte(s[1])] + Lowered(s[2..]);
    Seqs.AppendParts([LowerByte(s[0]), LowerByte(s[1])], Lowered(s[2..]));
    Seqs.AppendParts(h, Hex(d[1..]));
  }

  lemma PairOfNibbles(hi: nat, lo: nat)
    requires hi < 16 && lo < 16
    ensures (hi * 16 + lo) / 16 == hi && (hi * 16 + lo) % 16 == lo
  {
  }

  /** Hex in either case stands for the bytes it spells. */
  lemma {:induction false} UnHexSpells(s: Bytes)
    requires UnHex(s).Some?
    ensures Lowered(s) == Hex(UnHex(s).value)
  {
    hide JsonString.AnyHexValue, Hex, Lowered;
    if s == [] {
      NothingSpelled();
    } else {
      var hi, lo := JsonString.AnyHexValue(s[0]).value, JsonString.AnyHexValue(s[1]).value;
      var d := UnHex(s).value;
      UnHexSpells(s[2..]);
      PairOfNibbles(hi, lo);
      NibbleIs(s[0], hi);
      NibbleIs(s[1], lo);
      assert d[1..] == UnHex(s[2..]).value;
      LoweredPair(s, d);
    }
  }

  lemma NothingSpelled()
    ensures Lowered([]) == Hex([])
  {
  }

  lemma {:induction false} HexIsRead(s: Bytes, d: Bytes)
    requires Lowered(s) == Hex(d)
    ensures UnHex(s) == Some(d)
  {
    hide JsonString.AnyHexValue, Hex, Lowered, JsonString.HexDigit, LowerByte;
    if d != [] {
      LoweredPair(s, d);
      NibbleIs(s[0], d[0] / 16);
      NibbleIs(s[1], d[0] % 16);
      HexIsRead(s[2..], d[1..]);
      assert d == [d[0]] + d[1..];
    }
  }

  lemma UnHexIs(s: Bytes, d: Bytes)
    ensures UnHex(s) == Some(d) <==> Lowered(s) == Hex(d)
  {
    hide UnHex, Hex, Lowered;
    if UnHex(s).Some? { UnHexSpells(s); }
    if Lowered(s) == Hex(d) { HexIsRead(s, d); }
  }

  /** `r` names `prev` and carries the digest of that link and its own canonical form, which is `head`. */
  ghost predicate Follows(tools: Tools, prev: Digest, r: Record, head: Digest) {
    && Lowered(r.prev) == Hex(prev)
    && CanonicalForm(r).Some? && head == tools.digest(prev + CanonicalForm(r).value) && r.hash == Hex(head)
  }

  /** A record is accepted after a head exactly when it follows it. */
  lemma VerifiesIsFollows(tools: Tools, prev: Digest, r: Record, head: Digest)
    ensures VerifyRecord(tools, prev, r) == Some(head) <==> Follows(tools, prev, r, head)
  {
    hide Hex, UnHex, Lowered, CanonicalForm;
    UnHexIs(r.prev, prev);
  }

  /** The heads a chain runs through: one before each record, and the last. */
  ghost predicate HeadsOf(tools: Tools, rs: seq<Record>, heads: seq<Digest>) {
    && |heads| == |rs| + 1 && heads[0] == ZeroDigest()
    && forall i :: 0 <= i < |rs| ==> rs[i].seq_ == (i + 1) % TWO64 && Follows(tools, heads[i], rs[i], heads[i + 1])
  }

  /** A chain verifies, with some head, exactly when its records are numbered from one and each follows the
      head before it. */
  lemma {:induction false} ChainIsFollowed(tools: Tools, rs: seq<Record>, head: Digest)
    ensures ChainHead(tools, rs) == Some(head) <==>
              exists heads :: HeadsOf(tools, rs, heads) && heads[|rs|] == head
  {
    hide Follows, VerifyRecord;
    if rs == [] {
      assert HeadsOf(tools, rs, [ZeroDigest()]) && [ZeroDigest()][0] == ZeroDigest();
    } else {
      SuccCounts(|rs| - 1);
      if ChainHead(tools, rs) == Some(head) {
        var prev := ChainHead(tools, Front(rs)).value;
        ChainIsFollowed(tools, Front(rs), prev);
        VerifiesIsFollows(tools, prev, Last(rs), head);
        var front :| HeadsOf(tools, Front(rs), front) && front[|rs| - 1] == prev;
        HeadsSnoc(tools, rs, front, head);
      }
      if heads :| HeadsOf(tools, rs, heads) && heads[|rs|] == head {
        HeadsFront(tools, rs, heads);
        ChainIsFollowed(tools, Front(rs), heads[|rs| - 1]);
        VerifiesIsFollows(tools, heads[|rs| - 1], Last(rs), head);
      }
    }
  }

  lemma HeadsSnoc(tools: Tools, rs: seq<Record>, front: seq<Digest>, head: Digest)
    requires rs != [] && HeadsOf(tools, Front(rs), front)
    requires Last(rs).seq_ == |rs| % TWO64 && Follows(tools, front[|rs| - 1], Last(rs), head)
    ensures HeadsOf(tools, rs, front + [head]) && (front + [head])[|rs|] == head
  {
    hide Follows;
    var heads := front + [head];
    forall i | 0 <= i < |rs|
      ensures rs[i].seq_ == (i + 1) % TWO64 && Follows(tools, heads[i], rs[i], heads[i + 1])
    {
      if i < |rs| - 1 { assert Front(rs)[i] == rs[i]; }
    }
  }

  lemma HeadsFront(tools: Tools, rs: seq<Record>, heads: seq<Digest>)
    requires rs != [] && HeadsOf(tools, rs, heads)
    ensures HeadsOf(tools, Front(rs), heads[..|rs|]) && heads[..|rs|][|rs| - 1] == heads[|rs| - 1]
  {
    hide Follows;
  }

  /** Opening any file at all whose last line holds a record, not the zero one, resumes after it exactly when it
      follows the head it names, recomputed; and then at its number and that digest. */
  lemma OpenRecomputes(tools: Tools, content: Bytes, text: Bytes, r: Record, n: uint64, head: Digest)
    requires TailOf(content) == FinalLine(text) && tools.decode(text) == Some(r)
    requires r.seq_ != 0 || r.hash != []
    ensures OpenState(tools, content) == Some((n, head)) <==>
              n == r.seq_ && exists prev :: Follows(tools, prev, r, head)
  {
    hide TailOf, Follows, VerifyRecord, Hex, UnHex, Lowered;
    if prev :| Follows(tools, prev, r, head) {
      VerifiesIsFollows(tools, prev, r, head);
      FollowsNames(tools, prev, r, head);
    }
    if DecodeHash(r.prev).Some? { VerifiesIsFollows(tools, DecodeHash(r.prev).value, r, head); }
  }

  /** And opening anything else: a file that does not end in a line feed is refused, as is one whose last line is
      out of reach or holds no record; a file with no line in it starts an empty chain, and so does one whose
      last line holds the zero record. */
  lemma OpenElse(tools: Tools, content: Bytes, text: Bytes)
    ensures content != [] && content[|content| - 1] != 10 ==> OpenState(tools, content) == None
    ensures (forall i :: 0 <= i < |content| ==> content[i] == 10) ==>
              OpenState(tools, content) == if |content| > 1_048_576 then None else Some((0, ZeroDigest()))
    ensures TailOf(content).TooLong? ==> OpenState(tools, content) == None
    ensures TailOf(content) == FinalLine(text) && tools.decode(text).None? ==> OpenState(tools, content) == None
    ensures TailOf(content) == FinalLine(text) && tools.decode(text).Some?
            && tools.decode(text).value.seq_ == 0 && tools.decode(text).value.hash == [] ==>
              OpenState(tools, content) == Some((0, ZeroDigest()))
  {
    hide VerifyRecord, DecodeHash, LastNewline;
    if forall i :: 0 <= i < |content| ==> content[i] == NEWLINE { OnlyFeeds(content); }
  }

  lemma {:induction false} OnlyFeeds(s: Bytes)
    requires forall i :: 0 <= i < |s| ==> s[i] == NEWLINE
    ensures TrimNewlines(s) == []
  {
    if s != [] { OnlyFeeds(s[..|s| - 1]); }
  }

  lemma FollowsNames(tools: Tools, prev: Digest, r: Record, head: Digest)
    requires Follows(tools, prev, r, head)
    ensures DecodeHash(r.prev) == Some(prev)
  {
    hide Hex, UnHex, Lowered, CanonicalForm;
    UnHexIs(r.prev, prev);
  }

  lemma LastFollows(tools: Tools, rs: seq<Record>)
    requires Written(tools, rs) && rs != []
    ensures Follows(tools, Head(tools, Front(rs)), Last(rs), Head(tools, rs)) && Representable(Last(rs))
  {
    hide Hex, CanonicalForm, VerifyRecord, Follows;
    VerifiesIsFollows(tools, Head(tools, Front(rs)), Last(rs), Head(tools, rs));
  }

  /** The last line of a file that ends in the line of `r`, unless it is out of reach. */
  lemma TailOfLine(tools: Tools, rs: seq<Record>, r: Record)
    requires ReadsPrinted(tools) && Written(tools, rs) && Representable(r)
    ensures
      var tail := TailOf(Content(rs) + LineOf(r));
      tail == TooLong || (tail.FinalLine? && tools.decode(tail.text) == Some(Normal(r)))
  {
    hide Line, TailOf, NoNewline, Normal, CanonicalForm;
    LineIsCanonicalWithHash(r);
    LineEndsInOnlyNewline(r);
    if rs != [] { ContentEndsInNewline(tools, rs); }
    TailIsLastWritten(Content(rs), LineOf(r));
    assert LineOf(r)[..|LineOf(r)| - 1] == Printed(r);
  }

  /** A record whose link and hash are hex is read back with them. */
  lemma HexStays(r: Record, prev: Digest, head: Digest)
    requires r.prev == Hex(prev) && r.hash == Hex(head)
    ensures Normal(r).prev == r.prev && Normal(r).hash == r.hash && r.hash != []
  {
    hide Hex;
    DecodeHex(prev);
    DecodeHex(head);
  }

  lemma HexIsOne(a: Digest, b: Digest)
    requires Hex(a) == Hex(b)
    ensures a == b
  {
    hide Hex, UnHex;
    DecodeHex(a);
    DecodeHex(b);
  }

  lemma HexIsLow(d: Digest)
    ensures Lowered(Hex(d)) == Hex(d)
  {
    hide Hex, UnHex, Lowered;
    DecodeHex(d);
    UnHexIs(Hex(d), d);
  }

  /** A line put in place of the last one written, under its own link and hash but saying something else, is
      caught when the log is opened, unless two different inputs with one digest can be exhibited. */
  lemma EditedTailIsCaught(tools: Tools, rs: seq<Record>, r: Record) returns (clash: Option<(Bytes, Bytes)>)
    requires ReadsPrinted(tools) && Written(tools, rs) && rs != []
    requires Representable(r) && r.prev == Last(rs).prev && r.hash == Last(rs).hash
    requires CanonicalForm(r) != CanonicalForm(Last(rs))
    ensures
      match clash
      case Some(c) => Collision(tools, c.0, c.1)
      case None => OpenState(tools, Content(Front(rs)) + LineOf(r)) == None
  {
    hide TailOf, CanonicalForm, Hex, LineOf, Content, Normal, Head, ReadsPrinted, Representable, ResumeAfter, Lowered;
    var prev, head := Head(tools, Front(rs)), Head(tools, rs);
    var content := Content(Front(rs)) + LineOf(r);
    LastFollows(tools, rs);
    LastLinks(tools, rs);
    hide Written;
    TailOfLine(tools, Front(rs), r);
    HexStays(r, prev, head);
    CanonicalOfNormal(r);
    clash := None;
    if OpenState(tools, content).Some? {
      var n, h := OpenState(tools, content).value.0, OpenState(tools, content).value.1;
      OpenRecomputes(tools, content, TailOf(content).text, Normal(r), n, h);
      var p :| Follows(tools, p, Normal(r), h);
      HexIsOne(h, head);
      HexIsLow(prev);
      HexIsOne(p, prev);
      var x, y := prev + CanonicalForm(Last(rs)).value, prev + CanonicalForm(r).value;
      Seqs.AppendParts(prev, CanonicalForm(Last(rs)).value);
      Seqs.AppendParts(prev, CanonicalForm(r).value);
      clash := Some((x, y));
    }
  }

  lemma LastLinks(tools: Tools, rs: seq<Record>)
    requires Written(tools, rs) && rs != []
    ensures Last(rs).prev == Hex(Head(tools, Front(rs))) && Written(tools, Front(rs))
  {
    hide Hex, ChainHead;
  }
}
