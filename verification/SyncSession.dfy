/** A sync session: one command at a time on one stream, aligned to whole replies or dead. */
module SyncSession {
  import opened ByteStrings
  import opened Options
  import opened LittleEndian
  import opened SyncWire
  import Seqs

  datatype Command = Lstat(path: Bytes) | Follow(path: Bytes)
                   | List(path: Bytes, take: Taker) | Recv(path: Bytes, sink: Sink)

  datatype Answer = Stated(st: Stat) | Listed(entries: seq<Dirent>) | Received(bytes: Bytes)
                  | Failed(entries: seq<Dirent>, bytes: Bytes)

  /** What the stream still holds, how much it will still take, what was sent, and whether the session
      is retired. A retired session has no stream. */
  datatype Session = Session(rest: Bytes, room: nat, sent: Bytes, dead: bool)

  function Id(c: Command): (id: Bytes) {
    match c
    case Lstat(_) => LstatId()
    case Follow(_) => StatId()
    case List(_, _) => ListId()
    case Recv(_, _) => RecvId()
  }

  /** What reading the reply to `c` gives and how many bytes it takes, or what arrived before it
      failed. */
  function ReadReply(c: Command, s: Bytes): (r: (Answer, nat)) {
    match c
    case Lstat(_) => ReadStatReply(LstatId(), s)
    case Follow(_) => ReadStatReply(StatId(), s)
    case List(_, take) =>
      var l := ReadList(s, [], take);
      (if l.done then Listed(l.entries) else Failed(l.entries, []), l.used)
    case Recv(_, sink) =>
      var t := ReadTransfer(s, [], sink);
      (if t.done then Received(t.written) else Failed([], t.written), t.used)
  }

  function ReadStatReply(id: Bytes, s: Bytes): (r: (Answer, nat)) {
    match ReadStat(id, s)
    case None => (Failed([], []), 0)
    case Some(st) => (Stated(st), STAT_LEN)
  }

  function Retired(s: Session, sent: Bytes, room: nat): Session {
    Session([], room, sent, true)
  }

  /** One command. Any failure retires the session; a path that must not be sent costs no byte. */
  function Exec(s: Session, c: Command): (r: (Session, Answer)) {
    if s.dead then (s, Failed([], []))
    else if !PathOk(c.path) then (Retired(s, s.sent, s.room), Failed([], []))
    else
      var req := EncodeCommand(Id(c), c.path);
      if |req| > s.room then (Retired(s, s.sent + req[..s.room], 0), Failed([], []))
      else
        var sent, room := s.sent + req, s.room - |req|;
        var (a, used) := ReadReply(c, s.rest);
        if a.Failed? || used > |s.rest| then (Retired(s, sent, room), a)
        else (Session(s.rest[used..], room, sent, false), a)
  }

  /** What one turn of a reply's loop came to: it failed, ended, delivered something the caller did not
      take, or goes on. */
  datatype Turn<T> = Stop | End | Refused(part: T) | Next(item: T)

  /** The next turn of a listing and the bytes it takes. DONE carries a whole empty entry. */
  function EntryTurn(s: Bytes, got: seq<Dirent>, take: Taker): (r: (Turn<Dirent>, nat)) {
    if |s| < HEADER_LEN then (Stop, 0)
    else if s[..4] == DoneId() then if |s| < DENT_LEN then (Stop, 0) else (End, DENT_LEN)
    else if s[..4] != DentId() then (Stop, 0)
    else
      match ReadDirent(s)
      case None => (Stop, 0)
      case Some(d) => if !take(got + [d.0]) then (Refused(d.0), 0) else (Next(d.0), d.1)
  }

  /** The next turn of a transfer and the bytes it takes. */
  function ChunkTurn(s: Bytes, held: Bytes, sink: Sink): (r: (Turn<Bytes>, nat)) {
    if |s| < HEADER_LEN then (Stop, 0)
    else if s[..4] == DoneId() then (End, HEADER_LEN)
    else if s[..4] != DataId() then (Stop, 0)
    else
      var n := U32(s[4..8]);
      if n > MAX_CHUNK || |s| < HEADER_LEN + n then (Stop, 0)
      else
        var c := s[8..8 + n];
        var k := Taken(sink, held, c);
        if k < n then (Refused(c[..k]), 0) else (Next(c), HEADER_LEN + n)
  }

  /** A listing from `s` on, given its first turn. */
  function ListAfter(turn: Turn<Dirent>, used: nat, s: Bytes, got: seq<Dirent>, take: Taker): Listing
    requires used <= |s|
  {
    match turn
    case Stop => Listing(got, 0, false)
    case Refused(d) => Listing(got + [d], 0, false)
    case End => Listing(got, used, true)
    case Next(d) => var m := ReadList(s[used..], got + [d], take); m.(used := m.used + used)
  }

  /** A transfer from `s` on, given its first turn. */
  function TransferAfter(turn: Turn<Bytes>, used: nat, s: Bytes, held: Bytes, sink: Sink): Transfer
    requires used <= |s|
  {
    match turn
    case Stop => Transfer(held, 0, false)
    case Refused(part) => Transfer(held + part, 0, false)
    case End => Transfer(held, used, true)
    case Next(c) => var m := ReadTransfer(s[used..], held + c, sink); m.(used := m.used + used)
  }

  /** A listing is its turns. */
  lemma ListTurn(s: Bytes, got: seq<Dirent>, take: Taker)
    ensures
      var r := EntryTurn(s, got, take);
      r.1 <= |s| && (r.0.Next? ==> r.1 > 0) && ReadList(s, got, take) == ListAfter(r.0, r.1, s, got, take)
  {
    hide DentId, DoneId, ReadDirent;
  }

  /** A transfer is its turns. */
  lemma TransferTurn(s: Bytes, held: Bytes, sink: Sink)
    ensures
      var r := ChunkTurn(s, held, sink);
      r.1 <= |s| && (r.0.Next? ==> r.1 > 0)
      && ReadTransfer(s, held, sink) == TransferAfter(r.0, r.1, s, held, sink)
  {
    hide DataId, DoneId, Get, Taken;
  }

  // ---- The stream and the session object ----

  /** A connected stream: `input` is everything that arrives before the stream is cut, `capacity`
      everything it takes before a write fails. */
  class Socket {
    const input: Bytes
    const capacity: nat
    var pos: nat
    var output: Bytes

    ghost predicate Valid()
      reads this
    {
      pos <= |input| && |output| <= capacity
    }

    constructor (input: Bytes, capacity: nat)
      ensures Valid() && this.input == input && this.capacity == capacity
      ensures pos == 0 && output == []
    {
      this.input, this.capacity, this.pos, this.output := input, capacity, 0, [];
    }

    method WriteAll(p: Bytes) returns (ok: bool)
      requires Valid()
      modifies this`output
      ensures Valid()
      ensures ok <==> |p| <= capacity - |old(output)|
      ensures output == old(output) + if ok then p else p[..capacity - |old(output)|]
    {
      var room := capacity - |output|;
      ok := |p| <= room;
      output := output + if ok then p else p[..room];
    }

    /** Fills `n` bytes, or takes what is left and fails. */
    method ReadFull(n: nat) returns (r: Option<Bytes>)
      requires Valid()
      modifies this`pos
      ensures Valid()
      ensures pos >= old(pos) && (r.Some? <==> old(pos) + n <= |input|)
      ensures r.Some? ==> pos == old(pos) + n && r.value == input[old(pos)..pos]
    {
      if pos + n <= |input| {
        r := Some(input[pos..pos + n]);
        pos := pos + n;
      } else {
        r := None;
        pos := |input|;
      }
    }
  }

  class SyncConn {
    const sock: Socket
    var nc: Socket?
    var dead: bool

    ghost predicate Valid()
      reads this, sock
    {
      sock.Valid() && (if dead then nc == null else nc == sock)
    }

    ghost function State(): Session
      reads this, sock
      requires Valid()
    {
      Session(if dead then [] else sock.input[sock.pos..], sock.capacity - |sock.output|,
              sock.output, dead)
    }

    /** Takes ownership of a stream whose handshake is done. */
    constructor (sock: Socket)
      requires sock.Valid()
      ensures Valid() && this.sock == sock && !dead
    {
      this.sock, this.nc, this.dead := sock, sock, false;
    }

    method Close()
      requires Valid()
      modifies this
      ensures Valid() && dead
    {
      nc := null;
      dead := true;
    }

    /** Retires the session for good. */
    method Kill()
      requires Valid()
      modifies this
      ensures Valid() && dead
    {
      dead := true;
      nc := null;
    }

    /** Sends a command; a path the device would cut short or refuse is never put on the wire. */
    method SendPath(id: Bytes, path: Bytes) returns (ok: bool)
      requires Valid() && !dead
      modifies sock`output
      ensures Valid() && !dead && sock.pos == old(sock.pos)
      ensures
        var req := EncodeCommand(id, path);
        var room := sock.capacity - |old(sock.output)|;
        && ok == (PathOk(path) && |req| <= room)
        && sock.output == old(sock.output) + if !PathOk(path) then [] else if ok then req else req[..room]
    {
      if exists i :: 0 <= i < |path| && path[i] == 0 { return false; }
      if |path| > MAX_PATH { return false; }
      ok := nc.WriteAll(EncodeCommand(id, path));
    }

    /** A FAIL message is read so that it can be reported; the session does not survive it. */
    method ReadFailMessage(n: nat)
      requires Valid() && !dead
      modifies sock`pos
      ensures Valid() && sock.pos >= old(sock.pos)
    {
      if n <= MAX_PATH { var _ := nc.ReadFull(n); }
    }

    method StatCommand(follow: bool, path: Bytes) returns (a: Answer)
      requires Valid()
      modifies this, sock
      ensures Valid()
      ensures
        var c := if follow then Follow(path) else Lstat(path);
        (State(), a) == Exec(old(State()), c)
      ensures old(dead) ==> sock.pos == old(sock.pos) && sock.output == old(sock.output)
    {
      hide ReadStatReply, Put, PathOk, Ascii;
      if dead { return Failed([], []); }
      IdsDiffer();
      Seqs.TakeAll(sock.output);
      var id := if follow then StatId() else LstatId();
      var sent := SendPath(id, path);
      if !sent { Kill(); return Failed([], []); }
      a := ReadStatBody(id);
    }

    /** Reads one stat reply, retiring the session when it is anything else. */
    method ReadStatBody(id: Bytes) returns (a: Answer)
      requires Valid() && !dead && |id| == 4 && id != FailId()
      modifies this, sock`pos
      ensures Valid() && sock.output == old(sock.output)
      ensures
        var s := old(sock.input[sock.pos..]);
        && a == ReadStatReply(id, s).0
        && dead == a.Failed?
        && (!dead ==> ReadStatReply(id, s).1 == STAT_LEN <= |s| && sock.input[sock.pos..] == s[STAT_LEN..])
    {
      hide Get;
      ghost var s := sock.input[sock.pos..];
      var hdr := nc.ReadFull(HEADER_LEN);
      if hdr.None? { Kill(); return Failed([], []); }
      assert hdr.value == s[..8];
      if hdr.value[..4] != id {
        if hdr.value[..4] == FailId() { ReadFailMessage(U32(hdr.value[4..8])); }
        Kill();
        return Failed([], []);
      }
      var rest := nc.ReadFull(STAT_LEN - HEADER_LEN);
      if rest.None? { Kill(); return Failed([], []); }
      assert rest.value == s[8..72] && hdr.value[4..8] == s[4..8];
      var st := DecodeStat(hdr.value[4..8], rest.value);
      if st.None? { Kill(); return Failed([], []); }
      return Stated(st.value);
    }
  
    /** Lists one directory level, handing each entry to the caller as it arrives. */
    method ListDir(path: Bytes, take: Taker) returns (a: Answer)
      requires Valid()
      modifies this, sock
      ensures Valid()
      ensures (State(), a) == Exec(old(State()), List(path, take))
      ensures old(dead) ==> sock.pos == old(sock.pos) && sock.output == old(sock.output)
    {
      hide ReadList, Put, PathOk, Ascii;
      if dead { return Failed([], []); }
      Seqs.TakeAll(sock.output);
      var sent := SendPath(ListId(), path);
      if !sent { Kill(); return Failed([], []); }
      var entries, done := ReadEntries(take);
      return if done then Listed(entries) else Failed(entries, []);
    }

    method ReadEntries(take: Taker) returns (entries: seq<Dirent>, done: bool)
      requires Valid() && !dead
      modifies this, sock`pos
      ensures Valid() && sock.output == old(sock.output)
      ensures
        var s := old(sock.input[sock.pos..]);
        var l := ReadList(s, [], take);
        && entries == l.entries && done == l.done == !dead
        && (!dead ==> l.used <= |s| && sock.input[sock.pos..] == s[l.used..])
    {
      hide ReadList, EntryTurn;
      ghost var start := sock.pos;
      ghost var whole := ReadList(sock.input[start..], [], take);
      entries := [];
      while true
        invariant Valid() && !dead && sock.output == old(sock.output) && start <= sock.pos
        invariant
          var l := ReadList(sock.input[sock.pos..], entries, take);
          whole == l.(used := l.used + (sock.pos - start))
        decreases |sock.input| - sock.pos
      {
        ListTurn(sock.input[sock.pos..], entries, take);
        var turn := ReadEntry(entries, take);
        match turn {
          case Stop => return entries, false;
          case End => return entries, true;
          case Refused(d) => return entries + [d], false;
          case Next(d) => entries := entries + [d];
        }
      }
    }

    /** Reads one record of a listing. DONE carries a whole empty entry, which is read too. */
    method ReadEntry(got: seq<Dirent>, take: Taker) returns (turn: Turn<Dirent>)
      requires Valid() && !dead
      modifies this, sock`pos
      ensures Valid() && sock.output == old(sock.output) && sock.pos >= old(sock.pos)
      ensures dead == (turn.Stop? || turn.Refused?)
      ensures
        var s := old(sock.input[sock.pos..]);
        && turn == EntryTurn(s, got, take).0
        && (!dead ==> sock.pos == old(sock.pos) + EntryTurn(s, got, take).1 <= |sock.input|
                      && sock.input[sock.pos..] == s[EntryTurn(s, got, take).1..])
    {
      hide Get, DentId, DoneId, FailId, DecodeStat;
      IdsDiffer();
      ghost var s := sock.input[sock.pos..];
      var hdr := nc.ReadFull(HEADER_LEN);
      if hdr.None? { Kill(); return Stop; }
      assert hdr.value == s[..8] && hdr.value[..4] == s[..4] && hdr.value[4..8] == s[4..8];
      if hdr.value[..4] == DoneId() {
        var body := nc.ReadFull(DENT_LEN - HEADER_LEN);
        if body.None? { Kill(); return Stop; }
        return End;
      }
      if hdr.value[..4] != DentId() {
        if hdr.value[..4] == FailId() { ReadFailMessage(U32(hdr.value[4..8])); }
        Kill();
        return Stop;
      }
      var d := ReadDirentBody(hdr.value, s);
      if d.None? { Kill(); return Stop; }
      if !take(got + [d.value]) { Kill(); return Refused(d.value); }
      return Next(d.value);
    }

    /** The rest of an entry whose header was read from the head of `s`. */
    method ReadDirentBody(hdr: Bytes, ghost s: Bytes) returns (d: Option<Dirent>)
      requires Valid() && !dead && |s| >= 8 && hdr == s[..8] && sock.input[sock.pos..] == s[8..]
      modifies sock`pos
      ensures Valid() && !dead && sock.pos >= old(sock.pos)
      ensures
        match ReadDirent(s)
        case None => d == None
        case Some(r) => d == Some(r.0) && sock.input[sock.pos..] == s[r.1..]
                        && sock.pos == old(sock.pos) - 8 + r.1
    {
      hide Get, DecodeStat;
      var body := nc.ReadFull(DENT_LEN - HEADER_LEN);
      if body.None? { return None; }
      assert body.value == s[8..76];
      assert hdr[4..8] == s[4..8] && body.value[..64] == s[8..72] && body.value[64..68] == s[72..76];
      var st := DecodeStat(hdr[4..8], body.value[..64]);
      if st.None? { return None; }
      var n := U32(body.value[64..68]);
      if n > MAX_NAME { return None; }
      var name := nc.ReadFull(n);
      if name.None? { return None; }
      assert name.value == s[76..76 + n];
      return Some(Dirent(st.value, name.value));
    }

    /** Streams a file to the caller's sink. */
    method Receive(path: Bytes, sink: Sink) returns (a: Answer)
      requires Valid()
      modifies this, sock
      ensures Valid()
      ensures (State(), a) == Exec(old(State()), Recv(path, sink))
      ensures old(dead) ==> sock.pos == old(sock.pos) && sock.output == old(sock.output)
    {
      hide ReadTransfer, Put, PathOk, Ascii;
      if dead { return Failed([], []); }
      Seqs.TakeAll(sock.output);
      var sent := SendPath(RecvId(), path);
      if !sent { Kill(); return Failed([], []); }
      var written, done := ReadChunks(sink);
      return if done then Received(written) else Failed([], written);
    }

    method ReadChunks(sink: Sink) returns (written: Bytes, done: bool)
      requires Valid() && !dead
      modifies this, sock`pos
      ensures Valid() && sock.output == old(sock.output)
      ensures
        var s := old(sock.input[sock.pos..]);
        var t := ReadTransfer(s, [], sink);
        && written == t.written && done == t.done == !dead
        && (!dead ==> t.used <= |s| && sock.input[sock.pos..] == s[t.used..])
    {
      hide ReadTransfer, ChunkTurn;
      ghost var start := sock.pos;
      ghost var whole := ReadTransfer(sock.input[start..], [], sink);
      written := [];
      while true
        invariant Valid() && !dead && sock.output == old(sock.output) && start <= sock.pos
        invariant
          var t := ReadTransfer(sock.input[sock.pos..], written, sink);
          whole == t.(used := t.used + (sock.pos - start))
        decreases |sock.input| - sock.pos
      {
        TransferTurn(sock.input[sock.pos..], written, sink);
        var turn := ReadChunk(written, sink);
        match turn {
          case Stop => return written, false;
          case End => return written, true;
          case Refused(part) => return written + part, false;
          case Next(c) => written := written + c;
        }
      }
    }

    /** Reads one packet of a transfer and writes its payload to the sink. */
    method ReadChunk(held: Bytes, sink: Sink) returns (turn: Turn<Bytes>)
      requires Valid() && !dead
      modifies this, sock`pos
      ensures Valid() && sock.output == old(sock.output) && sock.pos >= old(sock.pos)
      ensures dead == (turn.Stop? || turn.Refused?)
      ensures
        var s := old(sock.input[sock.pos..]);
        && turn == ChunkTurn(s, held, sink).0
        && (!dead ==> sock.pos == old(sock.pos) + ChunkTurn(s, held, sink).1 <= |sock.input|
                      && sock.input[sock.pos..] == s[ChunkTurn(s, held, sink).1..])
    {
      hide Get, DataId, DoneId, FailId, Taken;
      IdsDiffer();
      ghost var s := sock.input[sock.pos..];
      var hdr := nc.ReadFull(HEADER_LEN);
      if hdr.None? { Kill(); return Stop; }
      assert hdr.value == s[..8] && hdr.value[..4] == s[..4] && hdr.value[4..8] == s[4..8];
      if hdr.value[..4] == DoneId() { return End; }
      if hdr.value[..4] != DataId() {
        if hdr.value[..4] == FailId() { ReadFailMessage(U32(hdr.value[4..8])); }
        Kill();
        return Stop;
      }
      var n := U32(hdr.value[4..8]);
      if n > MAX_CHUNK { Kill(); return Stop; }
      var chunk := nc.ReadFull(n);
      if chunk.None? { Kill(); return Stop; }
      assert chunk.value == s[8..8 + n] && sock.input[sock.pos..] == s[8 + n..];
      var k := Taken(sink, held, chunk.value);
      if k < n { Kill(); return Refused(chunk.value[..k]); }
      return Next(chunk.value);
    }
  }
}
