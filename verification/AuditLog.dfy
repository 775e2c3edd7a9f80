/** The append-only log file: its handle, its runs, and what survives a crash. */
module AuditLog {
  import opened ByteStrings
  import opened Options
  import opened AuditRecord
  import opened AuditChain
  import opened TailScan
  import Timestamp

  /** `r` as the log would store it after a chain with `n` records and head `head`. */
  ghost function Stamp(tools: Tools, head: Digest, n: uint64, r: Record): (s: Option<Record>) {
    var r1 := r.(ts := Timestamp.Truncate(r.ts), seq_ := Succ(n), prev := Hex(head), hash := []);
    match HashRecord(tools, head, r1)
    case None => None
    case Some(sum) => Some(r1.(hash := Hex(sum)))
  }

  /** `s` says of the operation what `r` says: every member the caller gives, and its time cut down to
      whole milliseconds. */
  ghost predicate Carries(s: Record, r: Record) {
    && s.op == r.op && s.callerUid == r.callerUid && s.clientAsserted == r.clientAsserted
    && s.serial == r.serial && s.pathB64 == r.pathB64 && s.decision == r.decision && s.result == r.result
    && s.bytes == r.bytes && s.sha256 == r.sha256 && s.dev == r.dev && s.ino == r.ino
    && s.ts == r.ts.(nanos := r.ts.nanos / 1_000_000 * 1_000_000)
  }

  /** `s` is `r` as record number `n` of a chain whose head was `head`: numbered, linked, and hashed over the
      link and its own canonical form. */
  ghost predicate Seals(tools: Tools, head: Digest, n: nat, r: Record, s: Record) {
    && Carries(s, r) && s.seq_ == n % TWO64 && s.prev == Hex(head)
    && CanonicalForm(s).Some? && s.hash == Hex(tools.digest(head + CanonicalForm(s).value))
  }

  /** Stamping seals, whenever the time can be rendered. */
  lemma StampSeals(tools: Tools, head: Digest, n: uint64, r: Record)
    ensures Stamp(tools, head, n, r).Some? <==> Representable(r)
    ensures Stamp(tools, head, n, r).Some? ==> Seals(tools, head, n + 1, r, Stamp(tools, head, n, r).value)
  {
    hide CanonicalForm, Hex;
    var r1 := r.(ts := Timestamp.Truncate(r.ts), seq_ := Succ(n), prev := Hex(head), hash := []);
    HashMeansRepresentable(tools, head, r1);
    if HashRecord(tools, head, r1).Some? {
      HashIgnoresHash(tools, head, r1, Stamp(tools, head, n, r).value.hash);
    }
    SuccCounts(n);
    Timestamp.TruncateCuts(r.ts);
  }

  /** Where the chain stands after its last record `r`, recomputed; a zero record stands for an
      empty log. */
  ghost function ResumeAfter(tools: Tools, r: Record): (h: Option<(uint64, Digest)>) {
    if r.seq_ == 0 && r.hash == [] then Some((0, ZeroDigest()))
    else
      match DecodeHash(r.prev)
      case None => None
      case Some(prev) =>
        match VerifyRecord(tools, prev, r)
        case None => None
        case Some(head) => Some((r.seq_, head))
  }

  /** The sequence number and head a fresh handle on `content` starts from. Only the last record is
      recomputed. */
  ghost function OpenState(tools: Tools, content: Bytes): (h: Option<(uint64, Digest)>) {
    match TailOf(content)
    case Torn => None
    case TooLong => None
    case Empty => Some((0, ZeroDigest()))
    case FinalLine(text) =>
      match tools.decode(text)
      case None => None
      case Some(r) => ResumeAfter(tools, r)
  }

  method CheckTail(tools: Tools, r: Record) returns (h: Option<(uint64, Digest)>)
    ensures h == ResumeAfter(tools, r)
  {
    if r.seq_ == 0 && r.hash == [] { return Some((0, ZeroDigest())); }
    var prev := DecodeHash(r.prev);
    if prev.None? { return None; }
    var head := CheckRecord(tools, prev.value, r);
    return if head.None? then None else Some((r.seq_, head.value));
  }

  method FindResume(tools: Tools, content: Bytes) returns (h: Option<(uint64, Digest)>)
    ensures h == OpenState(tools, content)
  {
    hide TailOf, ResumeAfter;
    var tail := TailLine(content);
    match tail {
      case Empty => return Some((0, ZeroDigest()));
      case FinalLine(text) =>
        var r := tools.decode(text);
        if r.None? { return None; }
        h := CheckTail(tools, r.value);
      case _ => return None;
    }
  }

  // ---- The log as a state machine ----

  /** The bytes on disk and the live handle, if there is one. */
  datatype LogState = LogState(content: Bytes, handle: Option<(uint64, Digest)>)

  /** What a process does with the log. `lands` says the write succeeded, `syncs` the flush. */
  datatype Event = Append(r: Record, lands: bool, syncs: bool) | Close | Open

  ghost function Step(tools: Tools, st: LogState, e: Event): (s: LogState) {
    match e
    case Close => st.(handle := None)
    case Open => st.(handle := OpenState(tools, st.content))
    case Append(r, lands, _) =>
      match st.handle
      case None => st
      case Some(h) =>
        match Stamp(tools, h.1, h.0, r)
        case None => st
        case Some(s) =>
          if !lands then st
          else LogState(st.content + Line(s).value,
                        Some((s.seq_, HashRecord(tools, h.1, s).value)))
  }

  /** What Append hands back: the record as stored, or nothing when it is not known durable. */
  ghost function Appended(tools: Tools, st: LogState, r: Record, lands: bool, syncs: bool)
    : (s: Option<Record>)
  {
    if st.handle.None? || !lands || !syncs then None
    else Stamp(tools, st.handle.value.1, st.handle.value.0, r)
  }

  /** A file on disk. */
  class File {
    var content: Bytes

    constructor ()
      ensures content == []
    {
      content := [];
    }
  }

  /** An open handle on the log file. */
  class Log {
    const tools: Tools
    const disk: File
    var f: File?
    var seq_: uint64
    var head: Digest

    ghost predicate Valid()
      reads this
    {
      f == null || f == disk
    }

    ghost function State(): LogState
      reads this, disk
    {
      LogState(disk.content, if f == null then None else Some((seq_, head)))
    }

    constructor (tools: Tools, disk: File, seq_: uint64, head: Digest)
      ensures Valid() && this.tools == tools && this.disk == disk && f == disk
      ensures this.seq_ == seq_ && this.head == head
    {
      this.tools, this.disk, this.f, this.seq_, this.head := tools, disk, disk, seq_, head;
    }

    /** Opens an existing log and validates its tail; a missing file is a failure. */
    static method Open(tools: Tools, disk: File?) returns (l: Log?)
      ensures disk == null ==> l == null
      ensures disk != null ==>
                disk.content == old(disk.content)
                && (l != null <==> OpenState(tools, disk.content).Some?)
      ensures l != null ==>
                && fresh(l) && l.Valid() && l.tools == tools && l.disk == disk
                && l.State() == Step(tools, LogState(disk.content, None), Event.Open)
    {
      if disk == null { return null; }
      hide OpenState;
      var at := FindResume(tools, disk.content);
      if at.None? { return null; }
      l := new Log(tools, disk, at.value.0, at.value.1);
    }

    /** Brings a new log into existence, refusing to adopt a file already there. */
    static method Create(tools: Tools, existing: File?) returns (l: Log?)
      ensures l != null <==> existing == null
      ensures l != null ==>
                && fresh(l) && fresh(l.disk) && l.Valid() && l.tools == tools
                && l.State() == LogState([], Some((0, ZeroDigest())))
    {
      if existing != null { return null; }
      var disk := new File();
      l := new Log(tools, disk, 0, ZeroDigest());
    }

    /** Assigns sequence number, link and hash from the live chain, writes one line, flushes it. */
    method Append(r: Record, lands: bool, syncs: bool) returns (stored: Option<Record>)
      requires Valid()
      modifies this, disk
      ensures Valid()
      ensures State() == Step(tools, old(State()), Event.Append(r, lands, syncs))
      ensures stored == Appended(tools, old(State()), r, lands, syncs)
      ensures stored.Some? <==> old(f) != null && lands && syncs && Representable(r)
      ensures stored.Some? ==> Seals(tools, old(head), old(seq_) + 1, r, stored.value)
    {
      StampSeals(tools, head, seq_, r);
      hide Seals;
      if f == null { return None; }
      var r1 := r.(ts := Timestamp.Truncate(r.ts), seq_ := Succ(seq_), prev := Hex(head), hash := []);
      var sum := ComputeHash(tools, head, r1);
      if sum.None? { return None; }
      var s := r1.(hash := Hex(sum.value));
      HashIgnoresHash(tools, head, r1, s.hash);
      HashMeansRepresentable(tools, head, r1);
      LineIsCanonicalWithHash(s);
      var line := EncodeLine(s);
      if !lands { return None; }
      f.content := f.content + line.value;
      seq_, head := s.seq_, sum.value;
      if !syncs { return None; }
      return Some(s);
    }

    method Close()
      requires Valid()
      modifies this
      ensures Valid() && State() == Step(tools, old(State()), Event.Close)
    {
      f := null;
    }
  }

  lemma HashIgnoresHash(tools: Tools, head: Digest, r: Record, h: Bytes)
    ensures HashRecord(tools, head, r.(hash := h)) == HashRecord(tools, head, r)
  {
    hide CanonicalForm;
    HashNotCovered(r);
    HashNotCovered(r.(hash := h));
    assert r.(hash := h).(hash := []) == r.(hash := []);
  }

  lemma HashMeansRepresentable(tools: Tools, head: Digest, r: Record)
    ensures HashRecord(tools, head, r).Some? <==> Representable(r)
  {
    hide Timestamp.CanonicalTime, Members, Render;
    Timestamp.Representable(r.ts);
  }
}
