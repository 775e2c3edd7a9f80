/** What every run of commands on one session keeps. */
module SyncRuns {
  import opened ByteStrings
  import opened SyncWire
  import opened SyncSession
  import opened LittleEndian
  import Seqs

  /** `reply` is one whole reply to `c`, and `a` is what it says. */
  ghost predicate Replies(c: Command, reply: Bytes, a: Answer) {
    match c
    case Lstat(_) => a.Stated? && reply == EncodeStatReply(LstatId(), a.st)
    case Follow(_) => a.Stated? && reply == EncodeStatReply(StatId(), a.st)
    case List(_, take) =>
      && a.Listed? && AllOk(a.entries) && TakesAll(take, [], a.entries)
      && |reply| >= 72 && reply == EncodeList(a.entries, reply[|reply| - 72..])
    case Recv(_, sink) =>
      a.Received? && exists cs :: IsTransfer(cs, sink, reply, a.bytes)
  }

  ghost predicate IsTransfer(cs: seq<Bytes>, sink: Sink, reply: Bytes, payload: Bytes) {
    && ChunksOk(cs) && SinksAll(sink, [], cs) && payload == Flat(cs)
    && |reply| >= 4 && reply == EncodeTransfer(cs, reply[|reply| - 4..])
  }

  /** A command that the stream takes: its path may be sent and there is room for it. */
  predicate Sendable(s: Session, c: Command) {
    !s.dead && PathOk(c.path) && |EncodeCommand(Id(c), c.path)| <= s.room
  }

  /** A command can be sent exactly when its path is short enough and holds no NUL, and the socket takes it whole. */
  lemma SendableIs(s: Session, c: Command)
    ensures Sendable(s, c) <==> !s.dead && |c.path| <= 4096 && 0 !in c.path && 8 + |c.path| <= s.room
  {
    assert |EncodeCommand(Id(c), c.path)| == 8 + |c.path| by { hide PathOk; }
  }

  /** The session after a command was answered by the first `n` bytes of the stream. */
  function After(s: Session, c: Command, n: nat): Session
    requires Sendable(s, c) && n <= |s.rest|
  {
    var req := EncodeCommand(Id(c), c.path);
    Session(s.rest[n..], s.room - |req|, s.sent + req, false)
  }

  /** What a command that can be sent puts on the wire: four letters for what is asked, the length of the path in
      four bytes, and the path. */
  lemma SentIs(s: Session, c: Command)
    requires Sendable(s, c)
    ensures
      var id := match c
                case Lstat(_) => "LST2"
                case Follow(_) => "STA2"
                case List(_, _) => "LIS2"
                case Recv(_, _) => "RECV";
      Exec(s, c).0.sent == s.sent + (Ascii(id) + [|c.path| % 256, |c.path| / 256, 0, 0] + c.path)
  {
    hide ReadReply;
    ShortLength(|c.path|);
  }

  lemma ShortLength(n: nat)
    requires n <= MAX_PATH
    ensures Put(n, 4) == [n % 256, n / 256, 0, 0]
  {
    assert Put(n, 4) == [n % 256] + Put(n / 256, 3) && Put(n / 256, 3) == [n / 256 % 256] + Put(n / 256 / 256, 2);
    assert n / 256 < 256 && Put(0, 2) == [0] + Put(0, 1) && Put(0, 1) == [0] + Put(0, 0);
  }

  /** Reading succeeds only on a whole reply, and takes exactly it. */
  lemma ReadIsWhole(c: Command, s: Bytes)
    requires !ReadReply(c, s).0.Failed?
    ensures ReadReply(c, s).1 <= |s| && Replies(c, s[..ReadReply(c, s).1], ReadReply(c, s).0)
  {
    hide EncodeStatReply, EncodeList, EncodeTransfer, ReadList, ReadTransfer, ReadStat, TakesAll,
         SinksAll;
    IdsDiffer();
    var (a, used) := ReadReply(c, s);
    match c {
      case Lstat(_) => StatIsWhole(LstatId(), s);
      case Follow(_) => StatIsWhole(StatId(), s);
      case List(_, take) =>
        ListIsWhole(s, [], take);
        assert a.entries[0..] == a.entries;
        assert s[..used][used - 72..] == s[used - 72..used];
      case Recv(_, sink) =>
        var cs := TransferIsWhole(s, [], sink);
        Seqs.TakeAll(Flat(cs));
        assert s[..used][used - 4..] == s[used - 4..used];
        assert IsTransfer(cs, sink, s[..used], a.bytes);
    }
  }

  /** A whole reply is read whatever follows it. */
  lemma WholeIsRead(c: Command, reply: Bytes, a: Answer, t: Bytes)
    requires Replies(c, reply, a)
    ensures ReadReply(c, reply + t) == (a, |reply|)
  {
    hide EncodeStatReply, EncodeList, EncodeTransfer, ReadList, ReadTransfer, ReadStat, TakesAll,
         SinksAll;
    IdsDiffer();
    match c {
      case Lstat(_) => StatDelivered(LstatId(), a.st, t);
      case Follow(_) => StatDelivered(StatId(), a.st, t);
      case List(_, take) =>
        ListDelivered(a.entries, reply[|reply| - 72..], t, [], take);
        Seqs.TakeAll(a.entries);
      case Recv(_, sink) =>
        var cs :| IsTransfer(cs, sink, reply, a.bytes);
        TransferDelivered(cs, reply[|reply| - 4..], t, [], sink);
        Seqs.TakeAll(Flat(cs));
    }
  }

  /** A whole reply to `c` is next in the stream. */
  ghost predicate ReplyIsNext(c: Command, rest: Bytes) {
    exists n: nat, b: Answer :: n <= |rest| && Replies(c, rest[..n], b)
  }

  /** One command succeeds exactly when it can be sent and a whole reply to it is next in the stream,
      and then it takes that reply and nothing more. */
  lemma ExecAligned(s: Session, c: Command)
    ensures
      var (s', a) := Exec(s, c);
      && s'.dead == a.Failed?
      && (!a.Failed? <==> Sendable(s, c) && ReplyIsNext(c, s.rest))
      && (!a.Failed? ==>
            var n := ReadReply(c, s.rest).1;
            && n <= |s.rest| && Replies(c, s.rest[..n], a) && s' == After(s, c, n))
  {
    hide Replies, ReadReply, EncodeCommand, PathOk;
    if Sendable(s, c) {
      if !ReadReply(c, s.rest).0.Failed? {
        ReadIsWhole(c, s.rest);
      } else if ReplyIsNext(c, s.rest) {
        var n: nat, b :| n <= |s.rest| && Replies(c, s.rest[..n], b);
        WholeIsRead(c, s.rest[..n], b, s.rest[n..]);
        assert s.rest[..n] + s.rest[n..] == s.rest;
        RepliesNeverFail(c, s.rest[..n], b);
      }
    }
  }

  lemma RepliesNeverFail(c: Command, reply: Bytes, a: Answer)
    requires Replies(c, reply, a)
    ensures !a.Failed?
  {
  }

  // ---- Whole runs ----

  /** The session after `cs`, and the answers in order. */
  function ExecAll(s: Session, cs: seq<Command>): (r: (Session, seq<Answer>))
    ensures |r.1| == |cs|
    decreases |cs|
  {
    if cs == [] then (s, [])
    else
      var (s1, a) := Exec(s, cs[0]);
      var (s2, more) := ExecAll(s1, cs[1..]);
      (s2, [a] + more)
  }

  function Concat(bs: seq<Bytes>): (b: Bytes) {
    if bs == [] then [] else bs[0] + Concat(bs[1..])
  }

  function Commands(cs: seq<Command>): (b: Bytes) {
    if cs == [] then [] else EncodeCommand(Id(cs[0]), cs[0].path) + Commands(cs[1..])
  }

  ghost predicate AllReply(cs: seq<Command>, replies: seq<Bytes>, answers: seq<Answer>) {
    |cs| == |replies| == |answers| && forall i :: 0 <= i < |cs| ==> Replies(cs[i], replies[i], answers[i])
  }

  /** Once retired, a session answers nothing, reads nothing and writes nothing, for good. */
  lemma {:induction false} DeadStaysDead(s: Session, cs: seq<Command>)
    requires s.dead
    ensures ExecAll(s, cs).0 == s
    ensures forall i :: 0 <= i < |cs| ==> ExecAll(s, cs).1[i] == Failed([], [])
  {
    if cs != [] { DeadStaysDead(s, cs[1..]); }
  }

  /** After any run of commands that all succeed, the bytes taken are exactly whole replies, one for
      each command and in order, and the bytes sent exactly the commands. */
  lemma {:induction false} RunIsAligned(s: Session, cs: seq<Command>) returns (replies: seq<Bytes>)
    requires !s.dead && !ExecAll(s, cs).0.dead
    ensures
      var (s', answers) := ExecAll(s, cs);
      && AllReply(cs, replies, answers)
      && s.rest == Concat(replies) + s'.rest
      && s'.sent == s.sent + Commands(cs)
    decreases |cs|
  {
    hide Exec, Replies, EncodeCommand;
    if cs == [] {
      replies := [];
      Seqs.TakeAll(s.rest);
      Seqs.TakeAll(s.sent);
    } else {
      var (s1, a) := Exec(s, cs[0]);
      if s1.dead { DeadStaysDead(s1, cs[1..]); }
      ExecAligned(s, cs[0]);
      var n := ReadReply(cs[0], s.rest).1;
      var more := RunIsAligned(s1, cs[1..]);
      replies := [s.rest[..n]] + more;
      assert s.rest == s.rest[..n] + s.rest[n..];
      Seqs.Assoc(s.rest[..n], Concat(more), ExecAll(s1, cs[1..]).0.rest);
      Seqs.Assoc(s.sent, EncodeCommand(Id(cs[0]), cs[0].path), Commands(cs[1..]));
    }
  }

  ghost predicate AllSendable(cs: seq<Command>, room: int) {
    cs == [] || (var n := |EncodeCommand(Id(cs[0]), cs[0].path)|;
                 PathOk(cs[0].path) && n <= room && AllSendable(cs[1..], room - n))
  }

  /** When the device answers each command of a run with a whole reply, each command gets its own. */
  lemma {:induction false} RunIsAnswered(s: Session, cs: seq<Command>, replies: seq<Bytes>,
                                         answers: seq<Answer>, t: Bytes)
    requires !s.dead && AllSendable(cs, s.room) && AllReply(cs, replies, answers)
    requires s.rest == Concat(replies) + t
    ensures
      var (s', as_) := ExecAll(s, cs);
      !s'.dead && as_ == answers && s'.rest == t
    decreases |cs|
  {
    hide Replies, EncodeCommand, PathOk, ReadReply;
    if cs == [] {
      Seqs.TakeAll(t);
    } else {
      var tail := Concat(replies[1..]) + t;
      Seqs.Assoc(replies[0], Concat(replies[1..]), t);
      WholeIsRead(cs[0], replies[0], answers[0], tail);
      RepliesNeverFail(cs[0], replies[0], answers[0]);
      Seqs.AppendParts(replies[0], tail);
      var (s1, a) := Exec(s, cs[0]);
      RunIsAnswered(s1, cs[1..], replies[1..], answers[1..], t);
    }
  }

  /** A listing cut short fails and retires the session, having handed over exactly the entries that
      arrived whole. */
  lemma CutListing(s: Session, path: Bytes, take: Taker, ds: seq<Dirent>, body: Bytes)
    requires Sendable(s, List(path, take)) && |body| == 72 && AllOk(ds) && TakesAll(take, [], ds)
    requires s.rest <= EncodeList(ds, body) && s.rest != EncodeList(ds, body)
    ensures
      var (s', a) := Exec(s, List(path, take));
      s'.dead && a == Failed(ds[..WholeEntries(ds, |s.rest|)], [])
  {
    hide ReadList, EncodeList, EncodeCommand, PathOk, TakesAll;
    ListCut(ds, body, s.rest, [], take);
    Seqs.TakeAll(ds[..WholeEntries(ds, |s.rest|)]);
  }

  /** A transfer cut short fails and retires the session, having written exactly the chunks that
      arrived whole. */
  lemma CutTransfer(s: Session, path: Bytes, sink: Sink, cs: seq<Bytes>, arg: Bytes)
    requires Sendable(s, Recv(path, sink)) && |arg| == 4 && ChunksOk(cs) && SinksAll(sink, [], cs)
    requires s.rest <= EncodeTransfer(cs, arg) && s.rest != EncodeTransfer(cs, arg)
    ensures
      var (s', a) := Exec(s, Recv(path, sink));
      s'.dead && a == Failed([], Flat(cs[..WholeChunks(cs, |s.rest|)]))
  {
    hide ReadTransfer, EncodeTransfer, EncodeCommand, PathOk, SinksAll, Flat;
    TransferCut(cs, arg, s.rest, [], sink);
    Seqs.TakeAll(Flat(cs[..WholeChunks(cs, |s.rest|)]));
  }

  /** A path the device would cut at a NUL, or over the limit, sends nothing and retires the
      session. */
  lemma BadPathSendsNothing(s: Session, c: Command)
    requires !PathOk(c.path)
    ensures Exec(s, c).0.dead && Exec(s, c).0.sent == s.sent && Exec(s, c).1 == Failed([], [])
  {
  }
}
