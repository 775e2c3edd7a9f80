/** A connection to the adb server: which requests may follow which on one socket, and when the socket is
    given up or handed over. */
module HostConn {
  import opened ByteStrings
  import opened Options
  import opened HostWire
  import SyncSession
  import Seqs

  // ---- Services ----

  /** All this side can ask: the server's version and devices, one device's features, a transport, and
      the sync service on it. */
  datatype Call = Version | Devices | Features(serial: Bytes) | TransportTo(serial: Bytes) | TransportAny
                | Sync | Close

  function SyncService(): Bytes { Ascii("sync:") }

  function Service(c: Call): Bytes {
    match c
    case Version => Ascii("host:version")
    case Devices => Ascii("host:devices")
    case Features(s) => Ascii("host-serial:") + s + Ascii(":features")
    case TransportTo(s) => Ascii("host:transport:") + s
    case TransportAny => Ascii("host:transport-any")
    case Sync => SyncService()
    case Close => []
  }

  predicate IsQuery(c: Call) { c.Version? || c.Devices? || c.Features? }

  predicate IsTransport(c: Call) { c.TransportTo? || c.TransportAny? }

  /** A serial that would corrupt a service string is refused before anything else. */
  predicate SafeInService(s: Bytes) { s != [] && 0 !in s && 10 !in s && 9 !in s }

  predicate Allowed(c: Call) { c.Features? || c.TransportTo? ==> SafeInService(c.serial) }

  /** A request whose length its prefix can say. */
  predicate Encodable(c: Call) { |Service(c)| <= MAX_REQUEST }

  function Request(c: Call): Bytes
    requires Encodable(c)
  {
    EncodeRequest(Service(c))
  }

  /** The requests that name no device, byte for byte, and what is read of those that do. */
  lemma RequestsAre(s: Bytes)
    ensures Request(Version) == Ascii("000c") + Ascii("host:version")
    ensures Request(Devices) == Ascii("000c") + Ascii("host:devices")
    ensures Request(TransportAny) == Ascii("0012") + Ascii("host:transport-any")
    ensures Request(Sync) == Ascii("0005") + Ascii("sync:")
    ensures Encodable(Features(s)) ==>
              ReadPayload(Request(Features(s))) == Some((Ascii("host-serial:") + s + Ascii(":features"), 25 + |s|))
    ensures Encodable(TransportTo(s)) ==>
              ReadPayload(Request(TransportTo(s))) == Some((Ascii("host:transport:") + s, 19 + |s|))
  {
    hide Hex4, ReadPayload;
    if Encodable(Features(s)) {
      RequestIsRead(Service(Features(s)), []);
      Seqs.TakeAll(Request(Features(s)));
    }
    if Encodable(TransportTo(s)) {
      RequestIsRead(Service(TransportTo(s)), []);
      Seqs.TakeAll(Request(TransportTo(s)));
    }
    FixedLengths();
  }

  lemma FixedLengths()
    ensures Hex4(12) == Ascii("000c") && Hex4(18) == Ascii("0012") && Hex4(5) == Ascii("0005")
  {
  }

  // ---- The connection ----

  /** A socket: what will still arrive, how much it will still take, and what was sent on it. */
  datatype Sock = Sock(rest: Bytes, room: nat, sent: Bytes)

  /** What each dial reaches, if anything. */
  type Server = nat -> Option<(Bytes, nat)>

  datatype Phase = Fresh | Spent | Transport | HandedOff | Closed

  /** `past` is what each socket given up had been sent, `handed` the socket now a sync session's. */
  datatype Conn = Conn(phase: Phase, nc: Option<Sock>, dials: nat, past: seq<Bytes>, handed: Option<Sock>)

  function Opened(r: (Bytes, nat)): Sock { Sock(r.0, r.1, []) }

  /** Makes sure there is a socket this request may be written to, dialling again if the last is spent. */
  function Prepare(w: Server, c: Conn, allowTransport: bool): (r: (Conn, bool)) {
    match c.phase
    case Closed => (c, false)
    case HandedOff => (c, false)
    case Fresh => (c, c.nc.Some?)
    case Transport => (c, allowTransport && c.nc.Some?)
    case Spent =>
      match w(c.dials)
      case None => (c.(dials := c.dials + 1), false)
      case Some(s) => (c.(phase := Fresh, nc := Some(Opened(s)), dials := c.dials + 1), true)
  }

  /** Closes the socket; the next request dials again. */
  function Spend(c: Conn): Conn {
    c.(phase := Spent, nc := None, past := c.past + if c.nc.Some? then [c.nc.value.sent] else [])
  }

  function Write(s: Sock, req: Bytes): (r: (Sock, bool)) {
    if |req| <= s.room then (Sock(s.rest, s.room - |req|, s.sent + req), true)
    else (Sock(s.rest, 0, s.sent + req[..s.room]), false)
  }

  /** A query: one request, one reply, and the socket is spent whatever the reply. */
  function Ask(w: Server, c: Conn, q: Call): (r: (Conn, Option<Bytes>)) {
    var (c1, ok) := Prepare(w, c, false);
    if !ok || !Encodable(q) || c1.nc.None? then (c1, None)
    else
      var (s, sent) := Write(c1.nc.value, Request(q));
      var c2 := c1.(nc := Some(s));
      (Spend(c2), if sent then Answered(s.rest) else None)
  }

  /** The payload of a reply, when it is OKAY and whole. */
  function Answered(s: Bytes): (p: Option<Bytes>) {
    var okay :- ReadStatus(s);
    var r :- ReadPayload(s[4..]);
    if okay then Some(r.0) else None
  }

  /** A request that turns the socket into a stream: after OKAY the next byte is the stream's. */
  function Switch(w: Server, c: Conn, q: Call): (r: (Conn, bool)) {
    var (c1, ok) := Prepare(w, c, q.Sync?);
    if !ok || !Encodable(q) || c1.nc.None? then (c1, false)
    else
      var (s, sent) := Write(c1.nc.value, Request(q));
      var c2 := c1.(nc := Some(s));
      if !sent || ReadStatus(s.rest) != Some(true) then (Spend(c2), false)
      else (c2.(nc := Some(Sock(s.rest[4..], s.room, s.sent))), true)
  }

  datatype Reply = Payload(bytes: Bytes) | Selected | Stream(sock: Sock) | Done | Refused

  function Step(w: Server, c: Conn, q: Call): (r: (Conn, Reply)) {
    if !Allowed(q) then (c, Refused)
    else if q.Close? then (CloseConn(c), Done)
    else if IsQuery(q) then
      var (c1, p) := Ask(w, c, q);
      (c1, match p case None => Refused case Some(b) => Payload(b))
    else
      var (c1, ok) := Switch(w, c, q);
      if !ok || c1.nc.None? then (c1, Refused)
      else if q.Sync? then
        (c1.(phase := HandedOff, nc := None, handed := c1.nc), Stream(c1.nc.value))
      else (c1.(phase := Transport), Selected)
  }

  /** Closing gives up the socket, unless it was handed over. */
  function CloseConn(c: Conn): Conn {
    Spend(c).(phase := Closed)
  }

  // ---- What a socket may carry ----

  /** One query, or a transport and then the sync service, or the sync service alone. */
  ghost predicate OneUse(whole: Bytes) {
    || (exists q: Call :: IsQuery(q) && Allowed(q) && Encodable(q) && whole == Request(q))
    || whole == EncodeRequest(SyncService())
    || (exists t: Call :: IsTransport(t) && Allowed(t) && Encodable(t)
                          && whole == Request(t) + EncodeRequest(SyncService()))
  }

  ghost predicate CarriesOneUse(sent: Bytes) {
    exists whole :: OneUse(whole) && sent <= whole
  }

  ghost predicate ReadyForSync(sent: Bytes) {
    exists t: Call :: IsTransport(t) && Allowed(t) && Encodable(t) && sent == Request(t)
  }

  ghost predicate EndsInSync(sent: Bytes) {
    || sent == EncodeRequest(SyncService())
    || exists t: Call :: IsTransport(t) && Allowed(t) && Encodable(t)
                         && sent == Request(t) + EncodeRequest(SyncService())
  }

  /** Every socket given up has carried at most one use; the current one nothing yet, or a transport;
      and one handed over ended in the request for the sync service. */
  ghost predicate Valid(c: Conn) {
    && (forall i :: 0 <= i < |c.past| ==> CarriesOneUse(c.past[i]))
    && (match c.phase
        case Fresh => c.nc.Some? && c.nc.value.sent == [] && c.handed.None?
        case Spent => c.nc.None? && c.handed.None?
        case Transport => c.nc.Some? && ReadyForSync(c.nc.value.sent) && c.handed.None?
        case HandedOff => c.nc.None? && c.handed.Some?
        case Closed => c.nc.None?)
    && (c.handed.Some? ==> EndsInSync(c.handed.value.sent))
  }

  /** How many of the first `n` dials reached the server, each opening one socket. */
  function Reached(w: Server, n: nat): (k: nat) {
    if n == 0 then 0 else Reached(w, n - 1) + if w(n - 1).Some? then 1 else 0
  }

  /** No socket is out of sight: each one a dial opened was given up, is the current one, or was handed
      over. */
  ghost predicate Accounted(w: Server, c: Conn) {
    |c.past| + (if c.nc.Some? then 1 else 0) + (if c.handed.Some? then 1 else 0) == Reached(w, c.dials)
  }

  lemma PrepareAccounts(w: Server, c: Conn, allowTransport: bool)
    requires Valid(c) && Accounted(w, c)
    ensures Accounted(w, Prepare(w, c, allowTransport).0)
  {
    hide CarriesOneUse, ReadyForSync, EndsInSync;
  }

  lemma StepAccounts(w: Server, c: Conn, q: Call)
    requires Valid(c) && Accounted(w, c)
    ensures Accounted(w, Step(w, c, q).0)
  {
    hide CarriesOneUse, ReadyForSync, EndsInSync, Service, Request, Encodable, SafeInService, Answered, ReadStatus,
         Reached, Prepare;
    PrepareAccounts(w, c, false);
    PrepareAccounts(w, c, q.Sync?);
    PrepareKeeps(w, c, false);
    PrepareKeeps(w, c, q.Sync?);
  }

  lemma PrefixCarries(sent: Bytes, whole: Bytes)
    requires OneUse(whole) && sent <= whole
    ensures CarriesOneUse(sent)
  {
  }

  lemma PrepareKeeps(w: Server, c: Conn, allowTransport: bool)
    requires Valid(c)
    ensures
      var (c1, ok) := Prepare(w, c, allowTransport);
      && Valid(c1) && c1.past == c.past && c1.handed == c.handed
      && (ok ==> c1.nc.Some? && c1.handed.None? && (c1.phase.Fresh? || (allowTransport && c1.phase.Transport?)))
  {
    hide CarriesOneUse, ReadyForSync, EndsInSync;
  }

  lemma SpendKeeps(c: Conn, sent: Bytes)
    requires Valid(c) && c.nc.Some? && CarriesOneUse(sent)
    ensures Valid(Spend(c.(nc := Some(Sock(c.nc.value.rest, c.nc.value.room, sent)))))
  {
    hide CarriesOneUse, ReadyForSync, EndsInSync;
  }

  lemma AskKeeps(w: Server, c: Conn, q: Call)
    requires Valid(c) && IsQuery(q) && Allowed(q)
    ensures Valid(Ask(w, c, q).0) && Ask(w, c, q).0.handed == c.handed
  {
    hide CarriesOneUse, ReadyForSync, EndsInSync, Valid, Answered, Service;
    PrepareKeeps(w, c, false);
    var (c1, ok) := Prepare(w, c, false);
    if ok && Encodable(q) {
      FreshIsUnused(c1);
      var s := Write(c1.nc.value, Request(q)).0;
      assert OneUse(Request(q));
      PrefixCarries(s.sent, Request(q));
      SpentSame(c1, s);
      SpendKeeps(c1, s.sent);
    }
  }

  lemma FreshIsUnused(c: Conn)
    requires Valid(c) && c.phase.Fresh?
    ensures c.nc.Some? && c.nc.value.sent == []
  {
  }

  /** Only what a socket was sent is remembered of it. */
  lemma SpentSame(c: Conn, s: Sock)
    requires c.nc.Some?
    ensures Spend(c.(nc := Some(s))) == Spend(c.(nc := Some(Sock(c.nc.value.rest, c.nc.value.room, s.sent))))
  {
  }

  /** What a switch may have written, and on what. */
  lemma SwitchCarries(c: Conn, q: Call)
    requires Valid(c) && (c.phase.Fresh? || (q.Sync? && c.phase.Transport?))
    requires (IsTransport(q) || q.Sync?) && Allowed(q) && Encodable(q)
    ensures c.nc.Some?
    ensures
      var whole := c.nc.value.sent + Request(q);
      && (q.Sync? ==> EndsInSync(whole)) && (IsTransport(q) ==> ReadyForSync(whole))
      && forall n :: 0 <= n <= |Request(q)| ==> CarriesOneUse(c.nc.value.sent + Request(q)[..n])
  {
    hide Service, EncodeRequest;
    var sent, req := c.nc.value.sent, Request(q);
    Seqs.TakeAll(req);
    if q.Sync? {
      SyncRequest();
      assert EndsInSync(sent + req) && OneUse(sent + req);
      forall n | 0 <= n <= |req| ensures CarriesOneUse(sent + req[..n]) {
        PrefixCarries(sent + req[..n], sent + req);
      }
    } else {
      assert ReadyForSync(req);
      assert OneUse(req + EncodeRequest(SyncService()));
      forall n | 0 <= n <= |req| ensures CarriesOneUse(sent + req[..n]) {
        assert sent + req[..n] == req[..n];
        PrefixCarries(req[..n], req + EncodeRequest(SyncService()));
      }
    }
  }

  lemma SyncRequest()
    ensures Encodable(Sync) && Request(Sync) == EncodeRequest(SyncService())
  {
  }

  lemma SwitchKeeps(w: Server, c: Conn, q: Call)
    requires Valid(c) && (IsTransport(q) || q.Sync?) && Allowed(q)
    ensures
      var (c1, ok) := Switch(w, c, q);
      && c1.handed == c.handed && (!ok ==> Valid(c1))
      && (ok ==> c1.nc.Some? && c1.handed.None? && Valid(c1.(phase := Spent, nc := None))
                 && if q.Sync? then EndsInSync(c1.nc.value.sent) else ReadyForSync(c1.nc.value.sent))
  {
    hide CarriesOneUse, ReadyForSync, EndsInSync, ReadStatus, Request, Encodable;
    PrepareKeeps(w, c, q.Sync?);
    var (c1, ok) := Prepare(w, c, q.Sync?);
    if ok && Encodable(q) {
      SwitchCarries(c1, q);
      var req := Request(q);
      Seqs.TakeAll(req);
      var s := Write(c1.nc.value, req).0;
      assert CarriesOneUse(c1.nc.value.sent + req[..if |req| <= c1.nc.value.room then |req| else c1.nc.value.room]);
      SpentSame(c1, s);
      SpendKeeps(c1, s.sent);
    }
  }

  /** Once handed over or closed, a connection neither dials nor writes again. */
  ghost predicate Over(c: Conn) { c.phase.HandedOff? || c.phase.Closed? }

  /** One call keeps the discipline; it hands a socket over only when there was none handed before, and
      the stream handed over starts straight after an OKAY. */
  lemma StepKeeps(w: Server, c: Conn, q: Call)
    requires Valid(c)
    ensures
      var (c1, r) := Step(w, c, q);
      && Valid(c1) && (Accounted(w, c) ==> Accounted(w, c1))
      && (Over(c) ==> Over(c1) && c1.dials == c.dials && c1.past == c.past && c1.handed == c.handed && !r.Stream?)
      && (r.Stream? <==> c.handed.None? && c1.handed.Some?)
      && (r.Stream? ==> c1.handed == Some(r.sock) && Over(c1))
      && (!r.Stream? ==> c1.handed == c.handed)
  {
    hide CarriesOneUse, ReadyForSync, EndsInSync, Service, Request, Answered, Accounted;
    if Accounted(w, c) { StepAccounts(w, c, q); }
    if Allowed(q) {
      if IsQuery(q) {
        AskKeeps(w, c, q);
      } else if q.Close? {
        CloseKeeps(c);
      } else {
        SwitchKeeps(w, c, q);
      }
    }
  }

  lemma CloseKeeps(c: Conn)
    requires Valid(c)
    ensures Valid(CloseConn(c)) && CloseConn(c).handed == c.handed
    ensures Over(c) ==> CloseConn(c).past == c.past
  {
    hide Service, EncodeRequest;
    if c.phase.Transport? {
      var t :| IsTransport(t) && Allowed(t) && Encodable(t) && c.nc.value.sent == Request(t);
      assert OneUse(Request(t) + EncodeRequest(SyncService()));
      PrefixCarries(c.nc.value.sent, Request(t) + EncodeRequest(SyncService()));
    } else if c.phase.Fresh? {
      assert OneUse(EncodeRequest(SyncService()));
      PrefixCarries([], EncodeRequest(SyncService()));
    }
  }

  // ---- Whole runs ----

  function Run(w: Server, c: Conn, qs: seq<Call>): (r: (Conn, seq<Reply>))
    ensures |r.1| == |qs|
    decreases |qs|
  {
    if qs == [] then (c, [])
    else
      var (c1, a) := Step(w, c, qs[0]);
      var (c2, rest) := Run(w, c1, qs[1..]);
      (c2, [a] + rest)
  }

  /** A connection just dialled. */
  function Dialled(s: (Bytes, nat)): Conn { Conn(Fresh, Some(Opened(s)), 1, [], None) }

  /** In every run on one connection, whatever the server does, each socket any dial opened was sent no more
      than one query, or one transport and then the sync service: nothing outside the vocabulary, and
      never a host request after a transport. At most one socket is handed over, and after that the
      connection dials and writes nothing. */
  lemma {:induction false} RunKeepsDiscipline(w: Server, c: Conn, qs: seq<Call>)
    requires Valid(c)
    ensures
      var (c1, replies) := Run(w, c, qs);
      && Valid(c1) && (Accounted(w, c) ==> Accounted(w, c1))
      && (forall i, j :: 0 <= i < j < |replies| ==> !(replies[i].Stream? && replies[j].Stream?))
      && (c.handed.Some? ==> forall i :: 0 <= i < |replies| ==> !replies[i].Stream?)
      && (Over(c) ==> Over(c1) && c1.dials == c.dials && c1.past == c.past && c1.handed == c.handed)
    decreases |qs|
  {
    hide Valid, Step, Over, Accounted;
    if qs != [] {
      StepKeeps(w, c, qs[0]);
      var (c1, a) := Step(w, c, qs[0]);
      RunKeepsDiscipline(w, c1, qs[1..]);
      var rest := Run(w, c1, qs[1..]).1;
      var replies := Run(w, c, qs).1;
      assert forall i :: 0 < i < |replies| ==> replies[i] == rest[i - 1];
    }
  }

  lemma DialledIsValid(w: Server)
    requires w(0).Some?
    ensures Valid(Dialled(w(0).value)) && Accounted(w, Dialled(w(0).value))
  {
    assert Reached(w, 1) == Reached(w, 0) + 1;
  }

  /** After any run from a first dial, every socket any dial opened is given up, current or handed over, and
      none was sent more than one use; the one handed over was sent all of its own. */
  lemma EverySocketCarriesOneUse(w: Server, qs: seq<Call>)
    requires w(0).Some?
    ensures
      var c := Run(w, Dialled(w(0).value), qs).0;
      && Accounted(w, c)
      && (forall i :: 0 <= i < |c.past| ==> CarriesOneUse(c.past[i]))
      && (c.nc.Some? ==> CarriesOneUse(c.nc.value.sent))
      && (c.handed.Some? ==> EndsInSync(c.handed.value.sent))
  {
    hide Run, Service, EncodeRequest, Accounted;
    DialledIsValid(w);
    RunKeepsDiscipline(w, Dialled(w(0).value), qs);
    var c := Run(w, Dialled(w(0).value), qs).0;
    CloseKeeps(c);
    if c.nc.Some? {
      var past := CloseConn(c).past;
      assert past[|past| - 1] == c.nc.value.sent;
    }
  }

  /** No NUL, tab or line feed. */
  predicate Clean(s: Bytes) { 0 !in s && 9 !in s && 10 !in s }

  /** A device is asked for by any serial that is neither empty nor unclean, and by no other. */
  lemma AllowedIs(s: Bytes)
    ensures Allowed(Features(s)) <==> s != [] && Clean(s)
    ensures Allowed(TransportTo(s)) <==> s != [] && Clean(s)
  {
  }

  lemma CleanParts(a: Bytes, b: Bytes)
    ensures Clean(a + b) <==> Clean(a) && Clean(b)
  {
  }

  lemma ServiceIsClean(c: Call)
    requires Allowed(c)
    ensures Clean(Service(c))
  {
    match c {
      case Features(s) =>
        CleanParts(Ascii("host-serial:") + s, Ascii(":features"));
        CleanParts(Ascii("host-serial:"), s);
      case TransportTo(s) => CleanParts(Ascii("host:transport:"), s);
      case _ =>
    }
  }

  lemma RequestIsClean(service: Bytes)
    requires |service| <= MAX_REQUEST && Clean(service)
    ensures Clean(EncodeRequest(service))
  {
    var n := |service|;
    assert 0 <= n / 4096 < 16 && 0 <= n / 256 % 16 < 16;
    CleanParts(Hex4(n), service);
  }

  /** Nothing a server could take for the end of a service or of a line is ever sent on a connection's socket,
      but as part of a sync stream. */
  lemma UseIsClean(sent: Bytes)
    requires CarriesOneUse(sent)
    ensures Clean(sent)
  {
    hide Clean, Service, EncodeRequest;
    var whole :| OneUse(whole) && sent <= whole;
    SyncRequest();
    ServiceIsClean(Sync);
    RequestIsClean(SyncService());
    if q: Call :| IsQuery(q) && Allowed(q) && Encodable(q) && whole == Request(q) {
      ServiceIsClean(q);
      RequestIsClean(Service(q));
    } else if t: Call :| IsTransport(t) && Allowed(t) && Encodable(t)
                         && whole == Request(t) + EncodeRequest(SyncService()) {
      ServiceIsClean(t);
      RequestIsClean(Service(t));
      CleanParts(Request(t), EncodeRequest(SyncService()));
    }
    assert whole == sent + whole[|sent|..];
    CleanParts(sent, whole[|sent|..]);
  }

  // ---- Replies ----

  /** A reply that is OKAY and a whole payload answers with that payload, whatever follows; a FAIL, or a
      reply cut anywhere, does not answer. */
  lemma ReplyDelivered(p: Bytes, t: Bytes, k: nat)
    requires |p| <= MAX_REQUEST && k < 4 + |EncodePayload(p)|
    ensures Answered(Ascii("OKAY") + EncodePayload(p) + t) == Some(p)
    ensures Answered(Ascii("FAIL") + EncodePayload(p) + t) == None
    ensures Answered((Ascii("OKAY") + EncodePayload(p))[..k]) == None
  {
    hide EncodePayload, ReadPayload;
    TokensDiffer();
    var e := EncodePayload(p);
    PayloadDelivered(p, t);
    AfterToken(Okay(), e, t);
    AfterToken(Fail(), e, t);
    if k >= 4 {
      PayloadCut(p, k - 4);
      CutAfterToken(Okay(), e, k);
    }
  }

  lemma TokensDiffer()
    ensures |Okay()| == |Fail()| == 4 && Okay() != Fail()
  {
    assert Okay()[0] == 79 && Fail()[0] == 70;
  }

  lemma AfterToken(token: Bytes, e: Bytes, t: Bytes)
    requires |token| == 4
    ensures (token + e + t)[..4] == token && (token + e + t)[4..] == e + t
  {
  }

  lemma CutAfterToken(token: Bytes, e: Bytes, k: nat)
    requires |token| == 4 && 4 <= k <= 4 + |e|
    ensures (token + e)[..k][..4] == token && (token + e)[..k][4..] == e[..k - 4]
  {
  }

  /** A stream handed over starts with the byte after the OKAY that answered the request for it. */
  lemma StreamStartsAfterOkay(w: Server, c: Conn, q: Call)
    requires Step(w, c, q).1.Stream?
    ensures
      var c1 := Prepare(w, c, true).0;
      && c1.nc.Some? && q.Sync?
      && |c1.nc.value.rest| >= 4 && c1.nc.value.rest[..4] == Ascii("OKAY")
      && Step(w, c, q).1.sock.rest == c1.nc.value.rest[4..]
      && Step(w, c, q).1.sock.sent == c1.nc.value.sent + EncodeRequest(SyncService())
  {
    hide EncodeRequest;
    SyncRequest();
  }

  // ---- The connection itself ----

  ghost function View(s: SyncSession.Socket): Sock
    reads s
    requires s.Valid()
  {
    Sock(s.input[s.pos..], s.capacity - |s.output|, s.output)
  }

  class AdbConn {
    const server: Server
    var phase: Phase
    var nc: SyncSession.Socket?
    var dials: nat
    ghost var past: seq<Bytes>
    ghost var handed: Option<Sock>

    ghost predicate Sound()
      reads this, nc
    {
      nc != null ==> nc.Valid()
    }

    ghost function State(): Conn
      reads this, nc
      requires Sound()
    {
      Conn(phase, if nc == null then None else Some(View(nc)), dials, past, handed)
    }

    /** The connection a dial that reached the server gives. */
    constructor (server: Server, reached: (Bytes, nat))
      ensures Sound() && this.server == server && State() == Dialled(reached) && fresh(nc)
    {
      this.server, phase, dials, past, handed := server, Fresh, 1, [], None;
      nc := new SyncSession.Socket(reached.0, reached.1);
    }

    method PrepareSocket(allowTransport: bool) returns (ok: bool)
      requires Sound()
      modifies this
      ensures Sound() && (State(), ok) == Prepare(server, old(State()), allowTransport)
      ensures nc == old(nc) || fresh(nc)
      ensures ok ==> nc != null
    {
      if phase.Closed? || phase.HandedOff? { return false; }
      if phase.Fresh? && nc == null { return false; }
      if phase.Transport? && (!allowTransport || nc == null) { return false; }
      if phase.Spent? {
        var reached := server(dials);
        dials := dials + 1;
        if reached.None? { return false; }
        nc := new SyncSession.Socket(reached.value.0, reached.value.1);
        phase := Fresh;
      }
      return true;
    }

    method SpendSocket()
      requires Sound()
      modifies this
      ensures Sound() && nc == null && State() == Spend(old(State()))
    {
      if nc != null { past := past + [nc.output]; } else { Seqs.TakeAll(past); }
      nc := null;
      phase := Spent;
    }

    method Close()
      requires Sound()
      modifies this
      ensures Sound() && State() == CloseConn(old(State()))
    {
      SpendSocket();
      phase := Closed;
    }

    method WriteRequest(req: Bytes) returns (sent: bool)
      requires Sound() && nc != null
      modifies nc
      ensures Sound() && nc == old(nc)
      ensures State() == old(State()).(nc := Some(Write(old(View(nc)), req).0)) && sent == Write(old(View(nc)), req).1
      ensures nc.pos == old(nc.pos)
    {
      Seqs.TakeAll(req);
      sent := nc.WriteAll(req);
    }

    /** A payload after the status, read whatever the status was. */
    method ReadReply() returns (p: Option<Bytes>)
      requires Sound() && nc != null
      modifies nc
      ensures Sound() && nc == old(nc) && nc.output == old(nc.output)
      ensures p == Answered(old(nc.input[nc.pos..]))
    {
      hide ParseHex;
      TokensDiffer();
      ghost var s := nc.input[nc.pos..];
      var status := nc.ReadFull(4);
      if status.None? { return None; }
      assert status.value == s[..4];
      if status.value != Okay() && status.value != Fail() { return None; }
      var len := nc.ReadFull(4);
      if len.None? { return None; }
      assert len.value == s[4..8] == s[4..][..4];
      var n := ParseHex(len.value);
      if n.None? { return None; }
      var payload := nc.ReadFull(n.value);
      if payload.None? { return None; }
      assert payload.value == s[8..8 + n.value] == s[4..][4..4 + n.value];
      return if status.value == Okay() then payload else None;
    }

    /** One query on its own socket. */
    method Query(q: Call) returns (p: Option<Bytes>)
      requires Sound()
      modifies this, nc
      ensures Sound() && (State(), p) == Ask(server, old(State()), q)
    {
      hide Answered, Service;
      var ok := PrepareSocket(false);
      if !ok || |Service(q)| > MAX_REQUEST { return None; }
      var sent := WriteRequest(Request(q));
      if !sent { SpendSocket(); return None; }
      p := ReadReply();
      SpendSocket();
    }

    /** Reads the four bytes that answer a switch; nothing after an OKAY is touched. */
    method ReadSwitched() returns (ok: bool)
      requires Sound() && nc != null
      modifies nc
      ensures Sound() && nc == old(nc) && nc.output == old(nc.output)
      ensures ok == (ReadStatus(old(nc.input[nc.pos..])) == Some(true))
      ensures ok ==> nc.input[nc.pos..] == old(nc.input[nc.pos..])[4..]
    {
      hide ParseHex;
      TokensDiffer();
      ghost var s := nc.input[nc.pos..];
      var status := nc.ReadFull(4);
      if status.None? { return false; }
      assert status.value == s[..4];
      if status.value == Okay() { return true; }
      if status.value == Fail() {
        var len := nc.ReadFull(4);
        if len.Some? {
          var n := ParseHex(len.value);
          if n.Some? { var _ := nc.ReadFull(n.value); }
        }
      }
      return false;
    }

    method SwitchService(q: Call) returns (ok: bool)
      requires Sound()
      modifies this, nc
      ensures Sound() && (State(), ok) == Switch(server, old(State()), q)
      ensures ok ==> nc != null
    {
      hide ReadStatus, Service, Request, Prepare, Write;
      ok := PrepareSocket(q.Sync?);
      if !ok || |Service(q)| > MAX_REQUEST { return false; }
      var sent := WriteRequest(Request(q));
      if !sent { SpendSocket(); return false; }
      ok := ReadSwitched();
      if !ok { SpendSocket(); }
    }

    /** The attached devices; an empty list is an answer. */
    method ListDevices() returns (ds: Option<seq<DeviceEntry>>)
      requires Sound()
      modifies this, nc
      ensures Sound() && State() == Step(server, old(State()), Devices).0
      ensures
        match Step(server, old(State()), Devices).1
        case Payload(b) => ds == ParseDevices(b)
        case _ => ds == None
    {
      hide Ask;
      var payload := Query(Devices);
      if payload.None? { return None; }
      ds := ReadDevices(payload.value);
    }

    method SelectTransport(q: Call) returns (ok: bool)
      requires Sound() && IsTransport(q)
      modifies this, nc
      ensures Sound() && State() == Step(server, old(State()), q).0
      ensures ok == Step(server, old(State()), q).1.Selected?
    {
      hide Switch, SafeInService;
      if !Allowed(q) { return false; }
      ok := SwitchService(q);
      if ok { phase := Transport; }
    }

    /** Hands the socket to a sync session, which owns it from here on. */
    method OpenSync() returns (sc: SyncSession.SyncConn?)
      requires Sound()
      modifies this, nc
      ensures Sound() && State() == Step(server, old(State()), Sync).0
      ensures sc != null <==> Step(server, old(State()), Sync).1.Stream?
      ensures sc != null ==>
        && fresh(sc) && sc.Valid() && nc == null
        && var s := Step(server, old(State()), Sync).1.sock;
        sc.State() == SyncSession.Session(s.rest, s.room, s.sent, false)
    {
      hide Switch;
      var ok := SwitchService(Sync);
      if !ok { return null; }
      sc := new SyncSession.SyncConn(nc);
      handed := Some(View(nc));
      nc := null;
      phase := HandedOff;
    }
  }

  method ReadDevices(payload: Bytes) returns (ds: Option<seq<DeviceEntry>>)
    ensures ds == ParseDevices(payload)
  {
    hide DeviceOf;
    var lines := Parts(payload, NEWLINE);
    var entries: seq<DeviceEntry> := [];
    BeforeNone(DevicesOf(lines));
    var i := 0;
    while i < |lines|
      invariant 0 <= i <= |lines|
      invariant Before(entries, DevicesOf(lines[i..])) == DevicesOf(lines)
    {
      var d := DeviceOf(lines[i]);
      assert lines[i..][1..] == lines[i + 1..];
      if d.None? { return None; }
      BeforeMore(entries, d.value, DevicesOf(lines[i + 1..]));
      entries := entries + [d.value];
      i := i + 1;
    }
    Seqs.TakeAll(entries);
    return Some(entries);
  }

  lemma BeforeNone(r: Option<seq<DeviceEntry>>)
    ensures Before([], r) == r
  {
    if r.Some? { Seqs.TakeAll(r.value); }
  }

  function Before(a: seq<DeviceEntry>, r: Option<seq<DeviceEntry>>): Option<seq<DeviceEntry>> {
    match r case None => None case Some(b) => Some(a + b)
  }

  lemma BeforeMore(a: seq<DeviceEntry>, d: DeviceEntry, r: Option<seq<DeviceEntry>>)
    ensures Before(a + [d], r) == Before(a, Before([d], r))
  {
    if r.Some? { Seqs.Assoc(a, [d], r.value); }
  }
}
