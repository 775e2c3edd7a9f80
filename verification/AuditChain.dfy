/** The hash chain over records, its whole-file verifier, and what a verified chain proves. */
module AuditChain {
  import opened ByteStrings
  import opened Options
  import opened AuditRecord
  import TailScan

  /** The sequence number after `n`, in 64 bits. */
  function Succ(n: uint64): uint64 {
    if n == TWO64 - 1 then 0 else n + 1
  }

  /** Checks `r` against the running head `prev`: it must name that head and carry the hash its own
      contents produce. Gives `r`'s hash. */
  ghost function VerifyRecord(tools: Tools, prev: Digest, r: Record): (h: Option<Digest>) {
    if DecodeHash(r.prev) != Some(prev) then None
    else
      match HashRecord(tools, prev, r)
      case None => None
      case Some(sum) => if Hex(sum) == r.hash then Some(sum) else None
  }

  ghost function Front(rs: seq<Record>): seq<Record>
    requires rs != []
  {
    rs[..|rs| - 1]
  }

  ghost function Last(rs: seq<Record>): Record
    requires rs != []
  {
    rs[|rs| - 1]
  }

  /** The head a chain of records leaves, or nothing when it diverges somewhere. */
  ghost function ChainHead(tools: Tools, rs: seq<Record>): (h: Option<Digest>) {
    if rs == [] then Some(ZeroDigest())
    else
      match ChainHead(tools, Front(rs))
      case None => None
      case Some(prev) =>
        if Last(rs).seq_ == Succ((|rs| - 1) % TWO64) then VerifyRecord(tools, prev, Last(rs)) else None
  }

  ghost predicate ValidChain(tools: Tools, rs: seq<Record>) {
    ChainHead(tools, rs).Some?
  }

  // ---- The verifier ----

  datatype Summary = Summary(records: nat, lastSeq: uint64, lastHash: Bytes)

  datatype Verdict = Clean(sum: Summary)
                   | Diverges(line: nat, atSeq: nat, sum: Summary)
                   | Unreadable(sum: Summary)

  ghost function SummaryOf(rs: seq<Record>): Summary {
    Summary(|rs|, |rs| % TWO64, if rs == [] then [] else Last(rs).hash)
  }

  /** How long the first line of `s` is, its line feed not counted. */
  function LineLength(s: Bytes): (n: nat)
    ensures n <= |s| && NoNewline(s[..n]) && (n < |s| ==> s[n] == NEWLINE)
  {
    if s == [] || s[0] == NEWLINE then 0
    else
      var n := 1 + LineLength(s[1..]);
      assert s[..n] == [s[0]] + s[1..][..n - 1];
      n
  }

  function DropCR(s: Bytes): Bytes {
    if s != [] && s[|s| - 1] == 13 then s[..|s| - 1] else s
  }

  /** Where the line after the first starts. */
  function NextLine(s: Bytes): (n: nat)
    requires s != []
    ensures 0 < n <= |s|
  {
    if LineLength(s) < |s| then LineLength(s) + 1 else |s|
  }

  /** The lines a scanner yields before it ends or meets a line too long for its buffer. */
  ghost function Scanned(s: Bytes): (ls: seq<Bytes>) {
    if s == [] || LineLength(s) >= TailScan.MAX_LINE_BYTES then []
    else [DropCR(s[..LineLength(s)])] + Scanned(s[NextLine(s)..])
  }

  ghost predicate ScansToEnd(s: Bytes) {
    s == [] || (LineLength(s) < TailScan.MAX_LINE_BYTES && ScansToEnd(s[NextLine(s)..]))
  }

  predicate IsSpace(b: byte) { b == 32 || 9 <= b <= 13 }

  predicate Blank(s: Bytes) {
    forall i :: 0 <= i < |s| ==> IsSpace(s[i])
  }

  /** The records on the lines that are not blank, or nothing when one does not decode. */
  ghost function Decoded(tools: Tools, ls: seq<Bytes>): (all: Option<seq<Record>>) {
    if ls == [] then Some([])
    else
      match Decoded(tools, ls[..|ls| - 1])
      case None => None
      case Some(rs) =>
        if Blank(ls[|ls| - 1]) then Some(rs)
        else
          match tools.decode(ls[|ls| - 1])
          case None => None
          case Some(r) => Some(rs + [r])
  }

  /** Every line that is not blank holds a record, and the records form a chain. */
  ghost predicate Accepted(tools: Tools, ls: seq<Bytes>) {
    Decoded(tools, ls).Some? && ValidChain(tools, Decoded(tools, ls).value)
  }

  /** The sequence number a diverging line shows, 0 when it holds no record. */
  function SeqOn(tools: Tools, line: Bytes): nat {
    match tools.decode(line)
    case None => 0
    case Some(r) => r.seq_
  }

  lemma SuccCounts(n: nat)
    ensures Succ(n % TWO64) == (n + 1) % TWO64
  {
  }

  lemma DecodedSnoc(tools: Tools, ls: seq<Bytes>, raw: Bytes)
    ensures Decoded(tools, ls + [raw]) ==
            match Decoded(tools, ls)
            case None => None
            case Some(rs) =>
              if Blank(raw) then Some(rs)
              else match tools.decode(raw) case None => None case Some(r) => Some(rs + [r])
  {
    hide Blank;
    assert (ls + [raw])[..|ls|] == ls;
  }

  lemma ChainSnoc(tools: Tools, rs: seq<Record>, r: Record)
    ensures ChainHead(tools, rs + [r]) ==
            match ChainHead(tools, rs)
            case None => None
            case Some(prev) =>
              if r.seq_ == Succ(|rs| % TWO64) then VerifyRecord(tools, prev, r) else None
  {
    hide VerifyRecord, Succ;
    assert Front(rs + [r]) == rs;
  }

  /** The verdict on a scan that stopped after `done` lines with `rs` read from them. */
  ghost predicate Upto(tools: Tools, done: seq<Bytes>, rs: seq<Record>, head: Digest, sum: Summary) {
    Decoded(tools, done) == Some(rs) && ChainHead(tools, rs) == Some(head) && sum == SummaryOf(rs)
  }

  /** What the verifier promises of a verdict. */
  ghost predicate Faithful(tools: Tools, content: Bytes, v: Verdict) {
    var ls := Scanned(content);
    match v
    case Clean(sum) => ScansToEnd(content) && Accepted(tools, ls) && sum == SummaryOf(Decoded(tools, ls).value)
    case Diverges(n, s, sum) =>
      && 1 <= n <= |ls| && s == (match tools.decode(ls[n - 1]) case None => 0 case Some(r) => r.seq_)
      && Accepted(tools, ls[..n - 1]) && sum == SummaryOf(Decoded(tools, ls[..n - 1]).value)
      && !Accepted(tools, ls[..n])
    case Unreadable(sum) =>
      !ScansToEnd(content) && Accepted(tools, ls) && sum == SummaryOf(Decoded(tools, ls).value)
  }

  lemma FaithfulDivergence(tools: Tools, content: Bytes, done: seq<Bytes>, raw: Bytes, tail: seq<Bytes>,
                           rs: seq<Record>, head: Digest, sum: Summary)
    requires Scanned(content) == done + [raw] + tail
    requires Upto(tools, done, rs, head, sum) && !Accepted(tools, done + [raw])
    ensures Faithful(tools, content, Diverges(|done| + 1, SeqOn(tools, raw), sum))
  {
    hide Decoded, ChainHead, Scanned;
    var ls := Scanned(content);
    assert ls[..|done|] == done && ls[..|done| + 1] == done + [raw] && ls[|done|] == raw;
  }

  lemma FaithfulEnd(tools: Tools, content: Bytes, rs: seq<Record>, head: Digest, sum: Summary)
    requires Upto(tools, Scanned(content), rs, head, sum)
    ensures Faithful(tools, content, if ScansToEnd(content) then Clean(sum) else Unreadable(sum))
  {
    hide Decoded, ChainHead, Scanned, ScansToEnd;
  }

  /** Takes one line into account: the head after it, or nothing when it diverges. */
  method ReadLine(tools: Tools, raw: Bytes, sum: Summary, head: Digest, ghost done: seq<Bytes>,
                  ghost rs: seq<Record>)
    returns (r: Option<(Summary, Digest)>, ghost now: seq<Record>)
    requires Upto(tools, done, rs, head, sum)
    ensures if r.Some? then Upto(tools, done + [raw], now, r.value.1, r.value.0)
            else !Accepted(tools, done + [raw])
  {
    DecodedSnoc(tools, done, raw);
    now := rs;
    hide Decoded;
    if Blank(raw) { return Some((sum, head)), rs; }
    var rec := tools.decode(raw);
    if rec.None? { return None, rs; }
    ChainSnoc(tools, rs, rec.value);
    SuccCounts(|rs|);
    hide ChainHead, VerifyRecord;
    if rec.value.seq_ != Succ(sum.lastSeq) { return None, rs; }
    var next := CheckRecord(tools, head, rec.value);
    if next.None? { return None, rs; }
    now := rs + [rec.value];
    return Some((Summary(sum.records + 1, rec.value.seq_, rec.value.hash), next.value)), now;
  }

  method ComputeHash(tools: Tools, prev: Digest, r: Record) returns (h: Option<Digest>)
    ensures h == HashRecord(tools, prev, r)
  {
    var c := Canonical(r);
    return if c.None? then None else Some(tools.digest(prev + c.value));
  }

  method CheckRecord(tools: Tools, prev: Digest, r: Record) returns (h: Option<Digest>)
    ensures h == VerifyRecord(tools, prev, r)
  {
    if DecodeHash(r.prev) != Some(prev) { return None; }
    var sum := ComputeHash(tools, prev, r);
    return if sum.Some? && Hex(sum.value) == r.hash then sum else None;
  }

  lemma ScanStep(content: Bytes, at: nat, done: seq<Bytes>)
    requires at < |content| && LineLength(content[at..]) < TailScan.MAX_LINE_BYTES
    ensures
      var rest := content[at..];
      var after := content[at + NextLine(rest)..];
      && done + Scanned(rest) == done + [DropCR(rest[..LineLength(rest)])] + Scanned(after)
      && ScansToEnd(rest) == ScansToEnd(after)
  {
    hide DropCR, LineLength;
    var rest := content[at..];
    assert content[at + NextLine(rest)..] == rest[NextLine(rest)..];
  }

  /** Recomputes every hash and reports the first divergence. */
  method VerifyChain(tools: Tools, content: Bytes) returns (v: Verdict)
    ensures Faithful(tools, content, v)
  {
    hide Decoded, ChainHead, SeqOn, DropCR, SummaryOf, LineLength, ValidChain, Upto, Faithful;
    var sum, head := Summary(0, 0, []), ZeroDigest();
    var at, line := 0, 1;
    ghost var done: seq<Bytes>, rs: seq<Record> := [], [];
    NothingRead(tools);
    while at < |content|
      invariant 0 <= at <= |content| && line == |done| + 1
      invariant Scanned(content) == done + Scanned(content[at..])
      invariant ScansToEnd(content) == ScansToEnd(content[at..])
      invariant Upto(tools, done, rs, head, sum)
      decreases |content| - at
    {
      var rest := content[at..];
      var n := LineLength(rest);
      if n >= TailScan.MAX_LINE_BYTES {
        assert done + [] == done;
        FaithfulEnd(tools, content, rs, head, sum);
        return Unreadable(sum);
      }
      var raw := DropCR(rest[..n]);
      var after := at + NextLine(rest);
      ScanStep(content, at, done);
      hide Scanned, ScansToEnd;
      var next, now := ReadLine(tools, raw, sum, head, done, rs);
      if next.None? {
        FaithfulDivergence(tools, content, done, raw, Scanned(content[after..]), rs, head, sum);
        return Diverges(line, SeqOn(tools, raw), sum);
      }
      sum, head, at, line := next.value.0, next.value.1, after, line + 1;
      done, rs := done + [raw], now;
    }
    assert content[at..] == [] && done + [] == done;
    FaithfulEnd(tools, content, rs, head, sum);
    return Clean(sum);
  }

  lemma NothingRead(tools: Tools)
    ensures Upto(tools, [], [], ZeroDigest(), Summary(0, 0, []))
  {
  }

  // ---- Tamper evidence ----

  /** Two different inputs with one digest. */
  ghost predicate Collision(tools: Tools, x: Bytes, y: Bytes) {
    x != y && tools.digest(x) == tools.digest(y)
  }

  /** The last place where two chains feed the digest different inputs, if there is one. */
  ghost function FindCollision(tools: Tools, a: seq<Record>, b: seq<Record>): (c: Option<(Bytes, Bytes)>)
    requires |a| == |b| && ValidChain(tools, a) && ValidChain(tools, b)
  {
    if a == [] then None
    else
      var x, y := Input(tools, a), Input(tools, b);
      if x != y then Some((x, y)) else FindCollision(tools, Front(a), Front(b))
  }

  /** What the last record of a chain was hashed over. */
  ghost function Input(tools: Tools, rs: seq<Record>): (x: Bytes)
    requires rs != [] && ValidChain(tools, rs)
    ensures ChainHead(tools, rs) == Some(tools.digest(x))
    ensures |x| >= 32 && ChainHead(tools, Front(rs)) == Some(x[..32])
    ensures CanonicalForm(Last(rs)) == Some(x[32..])
  {
    var prev := ChainHead(tools, Front(rs)).value;
    var c := CanonicalForm(Last(rs)).value;
    assert (prev + c)[..32] == prev && (prev + c)[32..] == c;
    prev + c
  }

  /** Two verified chains of one length and one head hold the same records, byte for byte in their
      canonical form, unless two different inputs with one digest can be exhibited. */
  lemma {:induction false} TamperEvident(tools: Tools, a: seq<Record>, b: seq<Record>)
    requires |a| == |b| && ValidChain(tools, a) && ValidChain(tools, b)
    requires ChainHead(tools, a) == ChainHead(tools, b)
    ensures
      match FindCollision(tools, a, b)
      case Some(c) => Collision(tools, c.0, c.1)
      case None => forall i :: 0 <= i < |a| ==> CanonicalForm(a[i]) == CanonicalForm(b[i])
  {
    hide VerifyRecord, CanonicalForm;
    if a != [] {
      var x, y := Input(tools, a), Input(tools, b);
      if x == y {
        TamperEvident(tools, Front(a), Front(b));
      }
    }
  }
}
