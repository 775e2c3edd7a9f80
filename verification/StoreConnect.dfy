/** Establishing a session over a host connection, call by call, and what the store may take it for. */
module StoreConnect {
  import opened ByteStrings
  import opened Options
  import opened Results
  import opened HostWire
  import opened HostConn
  import S = Store
  import SyncSession
  import Seqs

  const COMMA: byte := 44

  /** A session, and the socket it took over. */
  datatype Established = Established(live: S.Live, socket: Sock)

  function Lines(ds: seq<DeviceEntry>): (ls: seq<S.AttachedLine>)
    ensures |ls| == |ds|
    ensures forall i :: 0 <= i < |ds| ==> ls[i] == S.AttachedLine(ds[i].serial, ds[i].state)
  {
    if ds == [] then [] else [S.AttachedLine(ds[0].serial, ds[0].state)] + Lines(ds[1..])
  }

  lemma {:induction false} NamesAreThere(lines: seq<Bytes>)
    requires DevicesOf(lines).Some?
    ensures forall i :: 0 <= i < |DevicesOf(lines).value| ==>
              DevicesOf(lines).value[i].serial != [] && DevicesOf(lines).value[i].state != []
    decreases |lines|
  {
    hide DeviceOf;
    if lines != [] { NamesAreThere(lines[1..]); }
  }

  /** The devices a payload lists. */
  function AttachedIn(payload: Bytes): (es: Option<seq<S.Attached>>) {
    var ds :- ParseDevices(payload);
    NamesAreThere(Parts(payload, NEWLINE));
    Some(Lines(ds))
  }

  /** Dial, version, devices, features, transport, sync: each step on what the one before left. */
  function ConnectOver(w: Server, d: nat, want: S.Serial): (r: Result<Established, S.Error>) {
    match w(d)
    case None => Err(S.HostFailed)
    case Some(reached) =>
      var (c1, version) := Step(w, Dialled(reached).(dials := d + 1), Version);
      if !version.Payload? || ParseHex(version.bytes).None? then Err(S.HostFailed)
      else
        var (c2, devices) := Step(w, c1, Devices);
        if !devices.Payload? || AttachedIn(devices.bytes).None? then Err(S.HostFailed)
        else
          var es := AttachedIn(devices.bytes).value;
          match S.SelectDevice(es, want)
          case Err(e) => Err(e)
          case Ok(a) => ConnectTo(w, c2, version.bytes, |es|, a)
  }

  /** The rest, once a device is chosen. */
  function ConnectTo(w: Server, c: Conn, version: Bytes, attached: nat, a: S.Attached)
    : (r: Result<Established, S.Error>)
  {
    var (c3, features) := Step(w, c, Features(a.serial));
    if !features.Payload? then Err(S.HostFailed)
    else
      var fs := Parts(features.bytes, COMMA);
      if !S.RequireV2(fs) then Err(S.Unsupported)
      else
        var (c4, selected) := Step(w, c3, TransportTo(a.serial));
        if !selected.Selected? then Err(S.HostFailed)
        else
          var (c5, stream) := Step(w, c4, Sync);
          if !stream.Stream? then Err(S.HostFailed)
          else
            var s := stream.sock;
            Ok(Established(
              S.Live(a.serial, SyncSession.Session(s.rest, s.room, [], false),
                     S.Row(a.serial, a.state, version, fs, attached)), s))
  }

  // ---- The server as the store sees it ----

  /** What the socket of one dial answers to one query. */
  function AnswerAt(w: Server, k: nat, q: Call): (p: Option<Bytes>) {
    var reached :- w(k);
    if !Allowed(q) || !Encodable(q) || |Request(q)| > reached.1 then None else Answered(reached.0)
  }

  /** The socket of one dial, with this transport selected on it. */
  function SelectedAt(w: Server, k: nat, serial: Bytes): (s: Option<Sock>) {
    var q := TransportTo(serial);
    var reached :- w(k);
    if !Allowed(q) || !Encodable(q) || |Request(q)| > reached.1 || ReadStatus(reached.0) != Some(true) then None
    else Some(Sock(reached.0[4..], reached.1 - |Request(q)|, Request(q)))
  }

  function OpenedOn(s: Sock): (r: Option<S.Stream>) {
    var req := EncodeRequest(SyncService());
    if |req| > s.room || ReadStatus(s.rest) != Some(true) then None
    else Some(S.Stream(s.rest[4..], s.room - |req|))
  }

  /** The connection beginning at dial `d`: each query spends one socket, and the transport and the sync
      service share the fourth. */
  function HostAt(w: Server, d: nat): S.Host {
    S.Host(w(d).Some?,
           match AnswerAt(w, d, Version)
           case None => None
           case Some(p) => if ParseHex(p).Some? then Some(p) else None,
           match AnswerAt(w, d + 1, Devices) case None => None case Some(p) => AttachedIn(p),
           s => match AnswerAt(w, d + 2, Features(s)) case None => None case Some(p) => Some(Parts(p, COMMA)),
           s => SelectedAt(w, d + 3, s).Some?,
           s => match SelectedAt(w, d + 3, s) case None => None case Some(k) => OpenedOn(k))
  }

  /** A spent connection asks on a new socket, and is spent again. */
  lemma AskedWhenSpent(w: Server, c: Conn, q: Call)
    requires c.phase.Spent? && c.nc.None? && IsQuery(q)
    ensures
      var (c1, r) := Step(w, c, q);
      match AnswerAt(w, c.dials, q)
      case None => r == Refused
      case Some(p) => r == Payload(p) && c1.phase.Spent? && c1.nc.None? && c1.dials == c.dials + 1
  {
    hide Service, EncodeRequest, Answered;
  }

  /** The first query goes out on the socket dialled. */
  lemma AskedWhenFresh(w: Server, d: nat, q: Call)
    requires IsQuery(q) && w(d).Some?
    ensures
      var (c1, r) := Step(w, Dialled(w(d).value).(dials := d + 1), q);
      match AnswerAt(w, d, q)
      case None => r == Refused
      case Some(p) => r == Payload(p) && c1.phase.Spent? && c1.nc.None? && c1.dials == d + 1
  {
    hide Service, EncodeRequest, Answered;
  }

  lemma SelectedWhenSpent(w: Server, c: Conn, serial: Bytes)
    requires c.phase.Spent? && c.nc.None?
    ensures
      var (c1, r) := Step(w, c, TransportTo(serial));
      match SelectedAt(w, c.dials, serial)
      case None => r == Refused
      case Some(s) => r == Selected && c1.phase.Transport? && c1.nc == Some(s)
  {
    hide Service, EncodeRequest, ReadStatus;
    Seqs.TakeAll(if Encodable(TransportTo(serial)) then Request(TransportTo(serial)) else []);
  }

  lemma OpenedWhenSelected(w: Server, c: Conn, s: Sock)
    requires c.phase.Transport? && c.nc == Some(s)
    ensures
      var r := Step(w, c, Sync).1;
      match OpenedOn(s)
      case None => r == Refused
      case Some(t) => r == Stream(Sock(t.rest, t.room, s.sent + EncodeRequest(SyncService())))
  {
    hide EncodeRequest, ReadStatus;
    SyncRequest();
  }

  /** Feature names with a comma between each two. */
  function Listed(fs: seq<Bytes>): (b: Bytes) {
    if fs == [] then [] else if |fs| == 1 then fs[0] else fs[0] + Ascii(",") + Listed(fs[1..])
  }

  lemma {:induction false} FeaturesAreCut(fs: seq<Bytes>)
    requires forall i :: 0 <= i < |fs| ==> fs[i] != [] && 44 !in fs[i]
    ensures Parts(Listed(fs), COMMA) == fs
    decreases |fs|
  {
    hide Parts;
    if fs == [] {
      NoParts(COMMA);
    } else if |fs| == 1 {
      PartWhole(fs[0], COMMA);
    } else {
      FeaturesAreCut(fs[1..]);
      assert Ascii(",") == [COMMA];
      PartFirst(fs[0], Listed(fs[1..]), COMMA);
    }
  }

  /** A device has the features the server answers with. */
  lemma FeaturesDelivered(w: Server, d: nat, serial: Bytes, fs: seq<Bytes>)
    requires forall i :: 0 <= i < |fs| ==> fs[i] != [] && 44 !in fs[i]
    requires AnswerAt(w, d + 2, Features(serial)) == Some(Listed(fs))
    ensures HostAt(w, d).features(serial) == Some(fs)
  {
    hide AnswerAt, Listed, Parts;
    FeaturesAreCut(fs);
  }

  function Lives(r: Result<Established, S.Error>): Result<S.Live, S.Error> {
    match r case Err(e) => Err(e) case Ok(x) => Ok(x.live)
  }

  lemma ConnectsTo(w: Server, c: Conn, version: Bytes, attached: nat, a: S.Attached, d: nat)
    requires c.phase.Spent? && c.nc.None? && c.dials == d + 2
    ensures
      var h := HostAt(w, d);
      var r := ConnectTo(w, c, version, attached, a);
      && (r.Ok? ==> r.value.live.row.serial == a.serial
                    && Encodable(TransportTo(a.serial))
                    && r.value.socket.sent == Request(TransportTo(a.serial)) + EncodeRequest(SyncService()))
      && Lives(r) ==
         match h.features(a.serial)
         case None => Err(S.HostFailed)
         case Some(fs) =>
           if !S.RequireV2(fs) then Err(S.Unsupported)
           else if !h.selects(a.serial) then Err(S.HostFailed)
           else
             match h.opens(a.serial)
             case None => Err(S.HostFailed)
             case Some(t) =>
               Ok(S.Live(a.serial, SyncSession.Session(t.rest, t.room, [], false),
                           S.Row(a.serial, a.state, version, fs, attached)))
  {
    hide Step, AnswerAt, OpenedOn, Parts, S.RequireV2, Request, Encodable, EncodeRequest;
    AskedWhenSpent(w, c, Features(a.serial));
    var c3 := Step(w, c, Features(a.serial)).0;
    if AnswerAt(w, d + 2, Features(a.serial)).Some? {
      SelectedWhenSpent(w, c3, a.serial);
      var c4 := Step(w, c3, TransportTo(a.serial)).0;
      if SelectedAt(w, d + 3, a.serial).Some? {
        OpenedWhenSelected(w, c4, SelectedAt(w, d + 3, a.serial).value);
      }
    }
  }

  /** Establishing a session over a host connection is what the store takes it for; and the stream it
      leaves is on a socket that was sent exactly the transport request for the session's own serial
      and then the request for the sync service. */
  lemma ConnectIsAsSeen(w: Server, d: nat, want: S.Serial)
    ensures
      var r := ConnectOver(w, d, want);
      && Lives(r) == S.Connect(HostAt(w, d), want)
      && (r.Ok? ==> Encodable(TransportTo(r.value.live.row.serial))
                    && r.value.socket.sent
                       == Request(TransportTo(r.value.live.row.serial)) + EncodeRequest(SyncService())
                    && (want != [] ==> r.value.live.row.serial == want))
  {
    hide Step, AnswerAt, ParseHex, AttachedIn, ConnectTo, S.SelectDevice, S.RequireV2, Request, Encodable,
         EncodeRequest, SelectedAt, OpenedOn, Parts;
    S.ConnectServes(HostAt(w, d), want);
    if w(d).Some? {
      AskedWhenFresh(w, d, Version);
      var c1 := Step(w, Dialled(w(d).value).(dials := d + 1), Version).0;
      if HostAt(w, d).version.Some? {
        AskedWhenSpent(w, c1, Devices);
        var c2 := Step(w, c1, Devices).0;
        if HostAt(w, d).devices.Some? {
          var es := HostAt(w, d).devices.value;
          if S.SelectDevice(es, want).Ok? {
            ConnectsTo(w, c2, HostAt(w, d).version.value, |es|, S.SelectDevice(es, want).value, d);
          }
        }
      }
    }
  }
}
