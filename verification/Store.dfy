/** The device store: one sync session kept across operations, rebuilt after a failure, and never moved
    to another device unless an operation names one. */
module Store {
  import opened ByteStrings
  import opened Options
  import opened Results
  import opened SyncWire
  import opened SyncSession
  import P = DevicePath
  import Seqs
  import SyncRuns
  import WalkFacts
  import Walker
  import W = WalkSession
  import WalkSpec

  // ---- Serials ----

  predicate SerialByte(b: byte) {
    65 <= b <= 90 || 97 <= b <= 122 || 48 <= b <= 57 || b == 58 || b == 46 || b == 95 || b == 45
  }

  predicate SerialOk(s: Bytes) {
    1 <= |s| <= 64 && forall i :: 0 <= i < |s| ==> SerialByte(s[i])
  }

  /** Up to 64 ASCII letters, digits, colons, dots, underscores and hyphens. */
  lemma SerialsAre(s: Bytes)
    ensures SerialOk(s) <==>
              && 1 <= |s| <= 64
              && forall i :: 0 <= i < |s| ==>
                   var c := s[i] as char;
                   'A' <= c <= 'Z' || 'a' <= c <= 'z' || '0' <= c <= '9' || c in {':', '.', '_', '-'}
  {
  }

  /** A validated serial, or none. */
  type Serial = s: Bytes | s == [] || SerialOk(s)

  function ParseSerial(s: Bytes): (r: Option<Serial>) {
    if SerialOk(s) then Some(s) else None
  }

  // ---- What the adb server may answer ----

  /** One line of the device list; its fields are never empty. */
  type Attached = a: AttachedLine | a.serial != [] && a.state != [] witness AttachedLine([0], [0])

  datatype AttachedLine = AttachedLine(serial: Bytes, state: Bytes)

  /** What one connection to the adb server would answer to each request, and the stream it would open
      on each device. */
  datatype Host = Host(dials: bool, version: Option<Bytes>, devices: Option<seq<Attached>>,
                       features: Bytes -> Option<seq<Bytes>>, selects: Bytes -> bool,
                       opens: Bytes -> Option<Stream>)

  datatype Stream = Stream(rest: Bytes, room: nat)

  /** The server as each connection attempt will find it. */
  type World = nat -> Host

  datatype Error = HostFailed | NoDevice | MultipleDevices | Unsupported | Unnameable
                 | VolumeUnresolved | WalkFailed | TransferFailed | NotARegularFile
                 | Denied(code: WalkSpec.Code) | CallerRefused

  /** Picks the device to serve, and refuses rather than guessing. */
  function SelectDevice(es: seq<Attached>, want: Serial): (r: Result<Attached, Error>) {
    if es == [] then Err(NoDevice)
    else if want != [] then
      (match FirstNamed(es, want) case None => Err(NoDevice) case Some(a) => Ok(a))
    else if |es| == 1 then Ok(es[0])
    else Err(MultipleDevices)
  }

  function FirstNamed(es: seq<Attached>, want: Bytes): (r: Option<Attached>) {
    if es == [] then None
    else if es[0].serial == want then Some(es[0])
    else FirstNamed(es[1..], want)
  }

  /** The device listed at `i` is the first under that serial. */
  predicate IsFirst(es: seq<Attached>, want: Bytes, i: int) {
    0 <= i < |es| && es[i].serial == want && forall j :: 0 <= j < i ==> es[j].serial != want
  }

  lemma {:induction false} FirstNamedIs(es: seq<Attached>, want: Bytes)
    ensures FirstNamed(es, want).Some? <==> exists i :: 0 <= i < |es| && es[i].serial == want
    ensures FirstNamed(es, want).Some? ==> FirstNamed(es, want).value.serial == want
                                           && FirstNamed(es, want).value in es
    ensures FirstNamed(es, want).Some? ==> exists i :: IsFirst(es, want, i) && FirstNamed(es, want).value == es[i]
  {
    if es != [] {
      FirstNamedIs(es[1..], want);
      if es[0].serial == want {
        assert IsFirst(es, want, 0);
      } else if FirstNamed(es, want).Some? {
        var i :| IsFirst(es[1..], want, i) && FirstNamed(es[1..], want).value == es[1..][i];
        assert forall j :: 0 < j < |es| ==> es[j] == es[1..][j - 1];
        assert IsFirst(es, want, i + 1);
      }
      if exists i :: 0 <= i < |es| && es[i].serial == want {
        var i :| 0 <= i < |es| && es[i].serial == want;
        if i > 0 { assert es[1..][i - 1].serial == want; }
      }
      if exists i :: 0 <= i < |es[1..]| && es[1..][i].serial == want {
        var i :| 0 <= i < |es[1..]| && es[1..][i].serial == want;
        assert es[i + 1].serial == want;
      }
    }
  }

  /** A device is chosen exactly when the one asked for is attached, or none was asked for and just one
      is; asking for none with several attached is its own error. */
  lemma SelectsOnlyTheOneMeant(es: seq<Attached>, want: Serial)
    ensures
      var r := SelectDevice(es, want);
      && (r.Ok? ==> r.value in es && (want == [] ==> es == [r.value]))
      && (r.Ok? && want != [] ==> exists i :: IsFirst(es, want, i) && r.value == es[i])
      && (r.Ok? <==> if want == [] then |es| == 1 else exists i :: 0 <= i < |es| && es[i].serial == want)
      && (r == Err(MultipleDevices) <==> want == [] && |es| > 1)
      && (r == Err(NoDevice) <==> !r.Ok? && !(want == [] && |es| > 1))
  {
    FirstNamedIs(es, want);
  }

  function Required(): seq<Bytes> { [Ascii("stat_v2"), Ascii("ls_v2"), Ascii("sendrecv_v2")] }

  predicate RequireV2(features: seq<Bytes>) {
    forall i :: 0 <= i < |Required()| ==> Required()[i] in features
  }

  // ---- Sessions ----

  datatype Row = Row(serial: Bytes, state: Bytes, version: Bytes, features: seq<Bytes>, attached: nat)

  /** An established session: the stream, the device it was opened on, and what was learnt about it. */
  datatype Live = Live(device: Bytes, io: Session, row: Row)

  /** Builds a session: version, devices, features, transport, and only then the stream. */
  function Connect(h: Host, want: Serial): (r: Result<Live, Error>) {
    if !h.dials || h.version.None? || h.devices.None? then Err(HostFailed)
    else
      match SelectDevice(h.devices.value, want)
      case Err(e) => Err(e)
      case Ok(a) =>
        match h.features(a.serial)
        case None => Err(HostFailed)
        case Some(fs) =>
          if !RequireV2(fs) then Err(Unsupported)
          else if !h.selects(a.serial) then Err(HostFailed)
          else
            match h.opens(a.serial)
            case None => Err(HostFailed)
            case Some(s) =>
              Ok(Live(a.serial, Session(s.rest, s.room, [], false),
                      Row(a.serial, a.state, h.version.value, fs, |h.devices.value|)))
  }

  /** `pinned` is the serial of the last device selected, empty before the first. */
  datatype State = State(sess: Option<Live>, pinned: Bytes, reconnects: nat, dials: nat)

  const FRESH := State(None, [], 0, 0)

  /** The live session, established if there is none; another device named replaces it. */
  function SessionFor(w: World, st: State, want: Serial): (r: (State, Option<Error>)) {
    var st1 := if st.sess.Some? && want != [] && want != st.sess.value.row.serial then st.(sess := None) else st;
    if st1.sess.Some? then (st1, None)
    else
      var named := if want == [] && st1.pinned != [] then ParseSerial(st1.pinned) else Some(want);
      match named
      case None => (st1, Some(Unnameable))
      case Some(s) =>
        match Connect(w(st1.dials), s)
        case Err(e) => (st1.(dials := st1.dials + 1), Some(e))
        case Ok(l) => (st1.(sess := Some(l), pinned := l.row.serial, dials := st1.dials + 1), None)
  }

  function Reconnect(w: World, st: State): (r: (State, Option<Error>)) {
    SessionFor(w, st.(sess := None, reconnects := st.reconnects + 1), [])
  }

  /** One command on the live session, which is dropped if that failed. */
  function Put(st: State, c: Command): (r: (State, Answer))
    requires st.sess.Some?
  {
    var (io, a) := Exec(st.sess.value.io, c);
    (st.(sess := if io.dead then None else Some(st.sess.value.(io := io))), a)
  }

  // ---- Operations ----

  datatype Op = Probe(want: Serial) | ResolveVolume
              | ListTree(want: Serial, q: W.Request, root: P.AuthorizedPath)
              | Fetch(path: P.AuthorizedPath, pin: uint63, before: uint63 -> bool, sink: Sink)

  function Want(op: Op): Serial {
    match op case Probe(s) => s case ListTree(s, _, _) => s case _ => []
  }

  /** A listing reports its summary whether or not the walk failed. */
  datatype Report = Device(row: Row) | Volume(dev: uint63, ino: uint63)
                  | Listing(sum: WalkSpec.Yield, failure: Option<WalkSpec.Failure>)
                  | Fetched(bytes: Bytes, serial: Serial) | Failure(error: Error)

  /** A command put to a device. */
  datatype Touch = Touch(device: Bytes, command: Command)

  datatype Outcome = Outcome(st: State, report: Report, touched: seq<Touch>)

  /** The summary of a walk and the records it streamed. */
  function Summary(w: WalkSpec.Walked): WalkSpec.Yield {
    WalkSpec.Yield(w.emitted, w.refused, w.errors)
  }

  function Touches(device: Bytes, cmds: seq<WalkSpec.Cmd>): (ts: seq<Touch>)
    ensures |ts| == |cmds|
    ensures forall i :: 0 <= i < |cmds| ==> ts[i] == Touch(device, W.Wire(cmds[i]))
  {
    if cmds == [] then [] else [Touch(device, W.Wire(cmds[0]))] + Touches(device, cmds[1..])
  }

  /** A walk on the live session, which is dropped when a command failed or the caller stopped it. */
  function ListFrom(st: State, q: W.Request, root: P.AuthorizedPath): (o: Outcome)
    requires st.sess.Some?
  {
    var l := st.sess.value;
    var (walked, failure) := WalkSpec.WalkRoot(W.EnvOf(l.io, q), root);
    var io := W.After(l.io, walked.cmds);
    Outcome(st.(sess := if io.dead || walked.stopped then None else Some(l.(io := io))),
            Report.Listing(Summary(walked), failure), Touches(l.device, walked.cmds))
  }

  /** The zero path names nothing, so nothing is done for it. */
  predicate NamesNothing(op: Op) {
    match op
    case ListTree(_, _, root) => root.IsZero()
    case Fetch(path, _, _, _) => path.IsZero()
    case _ => false
  }

  function Step(w: World, st: State, op: Op): (o: Outcome) {
    if NamesNothing(op) then Outcome(st, Failure(Denied(WalkSpec.PathDenied)), [])
    else
      var (st1, err) := SessionFor(w, st, Want(op));
      match err
      case Some(e) => Outcome(st1, Failure(e), [])
      case None => Perform(w, st1, op)
  }

  /** The operation itself, once there is a session. */
  function Perform(w: World, st1: State, op: Op): (o: Outcome)
    requires st1.sess.Some?
  {
    match op
    case Probe(_) =>
      Outcome(st1, if SerialOk(st1.sess.value.row.serial) then Device(st1.sess.value.row)
                   else Failure(Unnameable), [])
    case ResolveVolume =>
      var c := Follow(W.VolumeRoot());
      var (st2, a) := Put(st1, c);
      Outcome(st2, VolumeOf(a), [Touch(st1.sess.value.device, c)])
    case ListTree(_, q, root) => ListFrom(st1, q, root)
    case Fetch(path, pin, before, sink) => FetchFrom(w, st1, path.path, pin, before, sink)
  }

  function VolumeOf(a: Answer): (r: Report) {
    if !a.Stated? || a.st.errno != 0 || WalkSpec.ParseKind(a.st.mode) != WalkSpec.Directory then
      Failure(VolumeUnresolved)
    else Volume(a.st.dev, a.st.ino)
  }

  /** Why a transfer is refused after its path was stated, if it is. */
  function Refusal(st: Stat, pin: uint63, before: uint63 -> bool): (e: Option<Error>) {
    if st.errno != 0 then
      Some(Denied(WalkSpec.CodeForErrno(st.errno, WalkSpec.PathNotFound, WalkSpec.TransferFailed)))
    else if WalkSpec.ParseKind(st.mode) != WalkSpec.Regular then Some(NotARegularFile)
    else if st.dev != pin then Some(Denied(WalkSpec.PathDenied))
    else if !before(st.size) then Some(CallerRefused)
    else None
  }

  function FetchFrom(w: World, st: State, path: Bytes, pin: uint63, before: uint63 -> bool, sink: Sink): (o: Outcome)
    requires st.sess.Some?
  {
    var l := st.sess.value;
    var (st1, a) := Put(st, Lstat(path));
    var t := [Touch(l.device, Lstat(path))];
    if !a.Stated? || st1.sess.None? then Outcome(st1, Failure(TransferFailed), t)
    else
      match Refusal(a.st, pin, before)
      case Some(e) => Outcome(st1, Failure(e), t)
      case None =>
        var (st2, b) := Put(st1, Recv(path, sink));
        var t2 := t + [Touch(l.device, Recv(path, sink))];
        if !b.Received? then
          var (st3, rerr) := Reconnect(w, st2);
          Outcome(st3, Failure(if rerr.Some? then rerr.value else TransferFailed), t2)
        else
          Outcome(st2, Fetched(b.bytes, if SerialOk(l.row.serial) then l.row.serial else []), t2)
  }

  // ---- What every operation keeps ----

  /** A live session is not dead and stands on the pinned device. */
  ghost predicate Valid(st: State) {
    st.sess.Some? ==>
      var l := st.sess.value;
      !l.io.dead && l.device == l.row.serial == st.pinned && st.pinned != []
  }

  /** From `st` the operation touched only the device named, or with none named the one pinned; and
      only naming another device, or having none yet, moves the pin. */
  ghost predicate Kept(st: State, want: Serial, o: Outcome) {
    && Valid(o.st)
    && (forall i :: 0 <= i < |o.touched| ==> o.touched[i].device == o.st.pinned)
    && (o.touched != [] || o.report.Device? ==> o.st.pinned != [] && (want != [] ==> o.st.pinned == want))
    && (o.st.pinned == st.pinned || (if want != [] then o.st.pinned == want else st.pinned == []))
    && (o.report.Device? ==> o.report.row.serial == o.st.pinned && SerialOk(o.st.pinned))
    && (o.report.Fetched? ==>
          o.touched != [] && o.report.serial == if SerialOk(o.st.pinned) then o.st.pinned else [])
  }

  lemma ConnectServes(h: Host, want: Serial)
    ensures
      var r := Connect(h, want);
      r.Ok? ==>
        var l := r.value;
        && !l.io.dead && l.device == l.row.serial != [] && (want != [] ==> l.device == want)
        && h.devices.Some? && (want == [] ==> |h.devices.value| == 1) && RequireV2(l.row.features)
        && h.features(l.device) == Some(l.row.features) && l.row.attached == |h.devices.value|
        && AttachedLine(l.row.serial, l.row.state) in h.devices.value && h.version == Some(l.row.version)
  {
    hide RequireV2, SerialOk, FirstNamed;
    if h.devices.Some? { FirstNamedIs(h.devices.value, want); }
  }

  lemma SessionKept(w: World, st: State, want: Serial)
    requires Valid(st)
    ensures
      var (st1, err) := SessionFor(w, st, want);
      && Valid(st1) && (err.None? <==> st1.sess.Some?)
      && (st1.sess.Some? ==> st1.pinned != [] && (want != [] ==> st1.pinned == want))
      && (st1.pinned == st.pinned || (if want != [] then st1.pinned == want else st.pinned == []))
  {
    hide Connect, SerialOk;
    var h := w(st.dials);
    ConnectServes(h, want);
    if SerialOk(st.pinned) { ConnectServes(h, st.pinned); }
  }

  lemma SessionIsLive(w: World, st: State, want: Serial)
    ensures var (st1, err) := SessionFor(w, st, want); err.None? <==> st1.sess.Some?
  {
    hide Connect, SerialOk;
  }

  lemma PutKept(st: State, c: Command)
    requires Valid(st) && st.sess.Some?
    ensures
      var (st1, a) := Put(st, c);
      && Valid(st1) && st1.pinned == st.pinned && (a.Failed? <==> st1.sess.None?)
      && (st1.sess.Some? ==> st1.sess.value.row == st.sess.value.row)
      && st1.dials == st.dials && st1.reconnects == st.reconnects
  {
    hide Exec;
    SyncRuns.ExecAligned(st.sess.value.io, c);
  }

  lemma ListKept(st: State, q: W.Request, root: P.AuthorizedPath)
    requires Valid(st) && st.sess.Some?
    ensures
      var o := ListFrom(st, q, root);
      && Valid(o.st) && o.st.pinned == st.pinned && o.report.Listing? && o.touched != []
      && forall i :: 0 <= i < |o.touched| ==> o.touched[i].device == st.pinned
  {
    hide WalkSpec.WalkRoot, W.EnvOf, W.After, W.Wire, Touches, WalkFacts.AnsweredTo;
    WalkFacts.WalkIsInStep(W.EnvOf(st.sess.value.io, q), root);
  }

  lemma FetchKept(w: World, st: State, path: Bytes, pin: uint63, before: uint63 -> bool, sink: Sink)
    requires Valid(st) && st.sess.Some?
    ensures
      var o := FetchFrom(w, st, path, pin, before, sink);
      && Kept(st, [], o) && o.st.pinned == st.pinned && o.touched != []
  {
    hide Put, SerialOk, Refusal, SessionFor;
    PutKept(st, Lstat(path));
    var (st1, a) := Put(st, Lstat(path));
    if st1.sess.Some? {
      PutKept(st1, Recv(path, sink));
      var st2 := Put(st1, Recv(path, sink)).0;
      var gone := st2.(sess := None, reconnects := st2.reconnects + 1);
      SessionKept(w, gone, []);
    }
  }

  lemma StepKept(w: World, st: State, op: Op)
    requires Valid(st)
    ensures Kept(st, Want(op), Step(w, st, op))
  {
    hide SessionFor, Put, ListFrom, FetchFrom, VolumeOf, SerialOk;
    SessionKept(w, st, Want(op));
    var (st1, err) := SessionFor(w, st, Want(op));
    if err.None? && !NamesNothing(op) {
      match op
      case Probe(_) =>
      case ResolveVolume =>
        PutKept(st1, Follow(W.VolumeRoot()));
        VolumeOfKinds(Put(st1, Follow(W.VolumeRoot())).1);
      case ListTree(_, q, root) => ListKept(st1, q, root);
      case Fetch(path, pin, before, sink) => FetchKept(w, st1, path.path, pin, before, sink);
    }
  }

  lemma VolumeOfKinds(a: Answer)
    ensures VolumeOf(a).Volume? || VolumeOf(a).Failure?
  {
  }

  // ---- Whole runs ----

  function Run(w: World, st: State, ops: seq<Op>): (os: seq<Outcome>)
    ensures |os| == |ops|
    decreases |ops|
  {
    if ops == [] then []
    else
      var o := Step(w, st, ops[0]);
      [o] + Run(w, o.st, ops[1..])
  }

  /** The state before operation `i` of a run. */
  function Before(st: State, os: seq<Outcome>, i: nat): State
    requires i <= |os|
  {
    if i == 0 then st else os[i - 1].st
  }

  /** Every operation of every run keeps the session live or gone, on the device pinned, and served by
      the device it names. */
  lemma {:induction false} RunIsPinned(w: World, st: State, ops: seq<Op>)
    requires Valid(st)
    ensures
      var os := Run(w, st, ops);
      forall i :: 0 <= i < |ops| ==> Kept(Before(st, os, i), Want(ops[i]), os[i])
    decreases |ops|
  {
    hide Step, Kept, Want, Valid;
    if ops != [] {
      StepKept(w, st, ops[0]);
      var o := Step(w, st, ops[0]);
      KeptValid(st, Want(ops[0]), o);
      RunIsPinned(w, o.st, ops[1..]);
      var os, rest := Run(w, st, ops), Run(w, o.st, ops[1..]);
      forall i | 0 <= i < |ops| ensures Kept(Before(st, os, i), Want(ops[i]), os[i]) {
        if i > 0 {
          assert Kept(Before(o.st, rest, i - 1), Want(ops[1..][i - 1]), rest[i - 1]);
        }
      }
    }
  }

  lemma KeptValid(st: State, want: Serial, o: Outcome)
    requires Kept(st, want, o)
    ensures Valid(o.st)
  {
  }

  /** Two operations of one run with none naming a device after the first: whatever each touched, it
      was the same device. */
  lemma {:induction false} SameDeviceUntilNamed(w: World, ops: seq<Op>, i: nat, j: nat, a: nat, b: nat)
    requires i <= j < |ops| && (forall k :: i < k <= j ==> Want(ops[k]) == [])
    requires a < |Run(w, FRESH, ops)[i].touched| && b < |Run(w, FRESH, ops)[j].touched|
    ensures
      var os := Run(w, FRESH, ops);
      os[i].touched[a].device == os[j].touched[b].device == os[i].st.pinned
  {
    hide Run, Step;
    RunIsPinned(w, FRESH, ops);
    PinStays(w, ops, i, j);
  }

  lemma {:induction false} PinStays(w: World, ops: seq<Op>, i: nat, j: nat)
    requires i <= j < |ops| && (forall k :: i < k <= j ==> Want(ops[k]) == [])
    requires Run(w, FRESH, ops)[i].st.pinned != []
    ensures Run(w, FRESH, ops)[j].st.pinned == Run(w, FRESH, ops)[i].st.pinned
    decreases j
  {
    hide Run, Step;
    if i < j {
      PinStays(w, ops, i, j - 1);
      RunIsPinned(w, FRESH, ops);
      var os := Run(w, FRESH, ops);
      assert Kept(Before(FRESH, os, j), Want(ops[j]), os[j]);
    }
  }

  /** A transfer is asked for only straight after the same device stated the same path as a regular
      file on the pinned volume and the caller took its size; a transfer that fails, and nothing
      else, costs one rebuild. */
  lemma FetchChecksFirst(w: World, st: State, path: Bytes, pin: uint63, before: uint63 -> bool, sink: Sink)
    requires Valid(st) && st.sess.Some?
    ensures
      var o := FetchFrom(w, st, path, pin, before, sink);
      var a := Put(st, Lstat(path)).1;
      && o.touched[0] == Touch(st.pinned, Lstat(path))
      && (|o.touched| == 2 <==> a.Stated? && a.st.errno == 0 && WalkSpec.ParseKind(a.st.mode) == WalkSpec.Regular
                                && a.st.dev == pin && before(a.st.size))
      && (|o.touched| == 2 ==> o.touched[1] == Touch(st.pinned, Recv(path, sink)))
      && |o.touched| <= 2
      && o.st.reconnects == st.reconnects + if |o.touched| == 2 && !o.report.Fetched? then 1 else 0
  {
    hide Put, SerialOk, SessionFor, WalkSpec.ParseKind, WalkSpec.CodeForErrno;
    PutKept(st, Lstat(path));
    LstatAnswers(st, path);
    var (st1, a) := Put(st, Lstat(path));
    if st1.sess.Some? {
      PutKept(st1, Recv(path, sink));
      var st2 := Put(st1, Recv(path, sink)).0;
      ReconnectCounts(w, st2);
    }
  }

  /** What a fetch returns is the payload of one whole transfer reply on the pinned device's stream,
      next after the reply that stated the path. */
  lemma FetchIsOneReply(w: World, st: State, path: Bytes, pin: uint63, before: uint63 -> bool, sink: Sink)
    requires Valid(st) && st.sess.Some?
    requires FetchFrom(w, st, path, pin, before, sink).report.Fetched?
    ensures
      var o := FetchFrom(w, st, path, pin, before, sink);
      var stated := SyncRuns.After(st.sess.value.io, Lstat(path), STAT_LEN).rest;
      exists n: nat :: n <= |stated|
        && SyncRuns.Replies(Recv(path, sink), stated[..n], Received(o.report.bytes))
        && o.st.sess.Some? && o.st.sess.value.io.rest == stated[n..]
  {
    hide Exec, SerialOk, SessionFor, WalkSpec.ParseKind, WalkSpec.CodeForErrno, SyncRuns.Replies, PathOk;
    var io := st.sess.value.io;
    SyncRuns.ExecAligned(io, Lstat(path));
    LstatTakes(io, path);
    var (io1, a) := Exec(io, Lstat(path));
    SyncRuns.ExecAligned(io1, Recv(path, sink));
  }

  lemma LstatTakes(s: Session, path: Bytes)
    requires !Exec(s, Lstat(path)).1.Failed?
    ensures ReadReply(Lstat(path), s.rest).1 == STAT_LEN
  {
    hide EncodeCommand, PathOk;
  }

  /** The device that alone is attached is served whatever its serial. */
  lemma AnySerialIsServed(h: Host, a: Attached)
    requires h.dials && h.version.Some? && h.devices == Some([a]) && h.selects(a.serial)
    requires h.features(a.serial) == Some(Required()) && h.opens(a.serial).Some?
    ensures Connect(h, []).Ok? && Connect(h, []).value.device == a.serial
  {
    hide Required;
    assert h.devices.value[0] == a;
  }

  /** A regular file on device number 1. */
  function OneFile(): Stat { Stat(0, 1, 1, 0x8000, 1, 0, 0, 1, 0, 0, 0) }

  /** A server with one device attached, under `serial`, whose stream holds the stat of one regular file
      and then its content. */
  function Serving(serial: Bytes, content: Bytes, room: nat): Host
    requires serial != []
  {
    var a: Attached := AttachedLine(serial, Ascii("device"));
    var replies := EncodeStatReply(LstatId(), OneFile()) + EncodeTransfer([content], [0, 0, 0, 0]);
    Host(true, Some([]), Some([a]), _ => Some(Required()), _ => true, _ => Some(Stream(replies, room)))
  }

  /** A sink that takes everything. */
  function Keeping(): Sink { (held, c) => |c| }

  lemma ExecAnswered(s: Session, c: Command, reply: Bytes, a: Answer, t: Bytes)
    requires SyncRuns.Sendable(s, c) && s.rest == reply + t && SyncRuns.Replies(c, reply, a)
    ensures Exec(s, c) == (SyncRuns.After(s, c, |reply|), a) && SyncRuns.After(s, c, |reply|).rest == t
  {
    hide SyncRuns.Replies, PathOk, EncodeCommand, ReadReply;
    SyncRuns.WholeIsRead(c, reply, a, t);
    SyncRuns.RepliesNeverFail(c, reply, a);
  }

  lemma OneChunkReplies(path: Bytes, content: Bytes)
    requires |content| <= MAX_CHUNK
    ensures SyncRuns.Replies(Recv(path, Keeping()), EncodeTransfer([content], [0, 0, 0, 0]), Received(content))
  {
    var reply := EncodeTransfer([content], [0, 0, 0, 0]);
    assert Flat([content]) == content;
    assert reply[|reply| - 4..] == [0, 0, 0, 0];
    assert SyncRuns.IsTransfer([content], Keeping(), reply, content);
  }

  lemma StatReplies(path: Bytes, st: Stat)
    ensures SyncRuns.Replies(Lstat(path), EncodeStatReply(LstatId(), st), Stated(st))
  {
  }

  lemma ServingConnects(w: World, serial: Bytes, content: Bytes, room: nat)
    requires serial != [] && w(0) == Serving(serial, content, room)
    ensures
      var (st, err) := SessionFor(w, FRESH, []);
      && err.None? && st.sess.Some? && st.pinned == serial
      && var l := st.sess.value;
         l.row.serial == serial
         && l.io == Session(EncodeStatReply(LstatId(), OneFile()) + EncodeTransfer([content], [0, 0, 0, 0]), room, [],
                            false)
  {
    hide SerialOk, Required, RequireV2, EncodeTransfer, EncodeStatReply;
    AnySerialIsServed(w(0), w(0).devices.value[0]);
  }

  lemma ServingAnswers(io: Session, path: Bytes, content: Bytes) returns (io1: Session, io2: Session)
    requires |content| <= MAX_CHUNK && PathOk(path) && io.room >= 2 * (8 + |path|) && !io.dead
    requires io.rest == EncodeStatReply(LstatId(), OneFile()) + EncodeTransfer([content], [0, 0, 0, 0])
    ensures Exec(io, Lstat(path)) == (io1, Stated(OneFile())) && !io1.dead
    ensures Exec(io1, Recv(path, Keeping())) == (io2, Received(content)) && !io2.dead
  {
    hide Exec, PathOk, EncodeTransfer, EncodeStatReply, SyncRuns.Replies;
    OneChunkReplies(path, content);
    StatReplies(path, OneFile());
    var reply := EncodeTransfer([content], [0, 0, 0, 0]);
    ExecAnswered(io, Lstat(path), EncodeStatReply(LstatId(), OneFile()), Stated(OneFile()), reply);
    io1 := Exec(io, Lstat(path)).0;
    Seqs.TakeAll(io1.rest);
    ExecAnswered(io1, Recv(path, Keeping()), reply, Received(content), []);
    io2 := Exec(io1, Recv(path, Keeping())).0;
  }

  lemma OneFileIsTaken()
    ensures Refusal(OneFile(), 1, _ => true) == None
  {
  }

  /** So a transfer completes from a device that no record can name, and is reported under the zero
      serial. */
  lemma UnnameableIsFetched(serial: Bytes, path: P.AuthorizedPath, content: Bytes, room: nat)
    requires serial != [] && !SerialOk(serial) && |content| <= MAX_CHUNK
    requires !path.IsZero() && PathOk(path.path) && room >= 2 * (8 + |path.path|)
    ensures
      var o := Step(_ => Serving(serial, content, room), FRESH, Op.Fetch(path, 1, _ => true, Keeping()));
      o.report == Fetched(content, []) && o.st.pinned == serial
  {
    hide SerialOk, Exec, PathOk, Serving, SessionFor, Refusal, OneFile, Keeping, EncodeTransfer, EncodeStatReply;
    var w: World := _ => Serving(serial, content, room);
    ServingConnects(w, serial, content, room);
    OneFileIsTaken();
    var io1, io2 := ServingAnswers(SessionFor(w, FRESH, []).0.sess.value.io, path.path, content);
  }

  /** The shortest such serial is a single space. */
  lemma SpaceIsFetched()
    ensures
      var path := P.AuthorizedPath(Ascii("/sdcard/DCIM/a"));
      Step(_ => Serving([32], [7], 100), FRESH, Op.Fetch(path, 1, _ => true, Keeping())).report == Fetched([7], [])
  {
    hide Step;
    assert !SerialByte([32 as byte][0]);
    UnnameableIsFetched([32], P.AuthorizedPath(Ascii("/sdcard/DCIM/a")), [7], 100);
  }

  lemma LstatAnswers(st: State, path: Bytes)
    requires st.sess.Some?
    ensures Put(st, Lstat(path)).1.Stated? || Put(st, Lstat(path)).1.Failed?
  {
    hide EncodeCommand, PathOk;
  }

  lemma ReconnectCounts(w: World, st: State)
    ensures Reconnect(w, st).0.reconnects == st.reconnects + 1
  {
    hide Connect, SerialOk;
  }

  // ---- What reaches the wire ----

  /** The paths an operation is given are ones the broker holds, and its allowlist one it can have. */
  ghost predicate Authorized(op: Op) {
    match op
    case ListTree(_, q, root) => root.IsZero() || (P.Confined(root) && P.NoWider(q.active, P.CompiledAllowlist()))
    case Fetch(path, _, _, _) => path.IsZero() || P.Confined(path)
    case _ => true
  }

  /** A command that names a path under a compiled root without following links, or states the compiled volume
      root. */
  ghost predicate Permitted(c: Command) {
    if c.Follow? then c.path == Ascii("/sdcard") else P.Confined(P.AuthorizedPath(c.path))
  }

  lemma WireIsPermitted(e: WalkSpec.Env, root: P.AuthorizedPath, cmds: seq<WalkSpec.Cmd>, k: nat)
    requires P.Confined(root) && P.NoWider(e.active, P.CompiledAllowlist())
    requires k < |cmds| && WalkFacts.GoodCmd(e, root, cmds, k)
    ensures Permitted(W.Wire(cmds[k])) && !W.Wire(cmds[k]).Recv?
  {
    hide P.FormOk, P.WithinAny, P.CompiledAllowlist, P.Segments, P.NameOk, WalkFacts.Reach;
    if !cmds[k].StatRootCmd? {
      var n: nat :| WalkFacts.Extends(e, root, P.AuthorizedPath(cmds[k].path), n);
      if n == 0 {
        WalkFacts.ExtendsByNone(e, root, P.AuthorizedPath(cmds[k].path));
      } else {
        WalkFacts.ExtendsWithin(e, root, P.AuthorizedPath(cmds[k].path), n);
      }
      assert P.Confined(P.AuthorizedPath(cmds[k].path));
    }
  }

  /** Everything `op` touched was permitted, and only a fetch transfers anything. */
  ghost predicate KeptInside(op: Op, o: Outcome) {
    forall i :: 0 <= i < |o.touched| ==>
      Permitted(o.touched[i].command) && (o.touched[i].command.Recv? ==> op.Fetch?)
  }

  /** Whatever the device answers, no operation puts a command for a path outside the compiled roots, but
      for the volume root itself; and only a fetch transfers anything. */
  lemma StepIsPermitted(w: World, st: State, op: Op)
    requires Authorized(op)
    ensures KeptInside(op, Step(w, st, op))
  {
    hide P.Confined, P.NoWider, SessionFor, Put, Refusal, W.Wire, VolumeOf, WalkSpec.WalkRoot, W.EnvOf,
         WalkFacts.GoodCmd;
    var (st1, err) := SessionFor(w, st, Want(op));
    SessionIsLive(w, st, Want(op));
    if op.ListTree? && !NamesNothing(op) && err.None? {
      var e := W.EnvOf(st1.sess.value.io, op.q);
      FormOfConfined(op.root);
      EnvActive(st1.sess.value.io, op.q);
      WalkFacts.CommandsConfined(e, op.root);
      var cmds := WalkSpec.WalkRoot(e, op.root).0.cmds;
      forall i | 0 <= i < |cmds| ensures Permitted(W.Wire(cmds[i])) && !W.Wire(cmds[i]).Recv? {
        WireIsPermitted(e, op.root, cmds, i);
      }
    }
  }

  lemma FormOfConfined(p: P.AuthorizedPath)
    requires P.Confined(p)
    ensures P.FormOk(p.path)
  {
  }

  lemma EnvActive(io: Session, q: W.Request)
    ensures W.EnvOf(io, q).active == q.active
  {
  }

  /** In every run, every path put on the wire is under a compiled root, or is the volume root. */
  lemma {:induction false} RunIsPermitted(w: World, st: State, ops: seq<Op>)
    requires forall i :: 0 <= i < |ops| ==> Authorized(ops[i])
    ensures
      var os := Run(w, st, ops);
      forall i :: 0 <= i < |ops| ==> KeptInside(ops[i], os[i])
    decreases |ops|
  {
    hide Step, KeptInside, Authorized;
    if ops != [] {
      StepIsPermitted(w, st, ops[0]);
      var o := Step(w, st, ops[0]);
      RunIsPermitted(w, o.st, ops[1..]);
      var os, rest := Run(w, st, ops), Run(w, o.st, ops[1..]);
      forall i | 0 <= i < |ops| ensures KeptInside(ops[i], os[i]) {
        if i > 0 { assert KeptInside(ops[1..][i - 1], rest[i - 1]); }
      }
    }
  }

  // ---- The store itself ----

  /** One connection to the adb server: a transport is selected on it, and the stream it then opens
      belongs to that device. */
  class HostConn {
    const host: Host
    var transport: Option<Bytes>

    constructor (host: Host)
      ensures this.host == host && transport == None
    {
      this.host, transport := host, None;
    }

    method TransportSerial(serial: Bytes) returns (ok: bool)
      modifies this
      ensures ok == host.selects(serial) && transport == if ok then Some(serial) else old(transport)
    {
      ok := host.selects(serial);
      if ok { transport := Some(serial); }
    }

    method Sync() returns (r: Option<(Bytes, Session)>)
      ensures r == if transport.None? then None
                   else match host.opens(transport.value)
                        case None => None
                        case Some(s) => Some((transport.value, Session(s.rest, s.room, [], false)))
    {
      if transport.None? { return None; }
      var s := host.opens(transport.value);
      return if s.None? then None else Some((transport.value, Session(s.value.rest, s.value.room, [], false)));
    }
  }

  class DeviceStore {
    const world: World
    var sess: Option<Live>
    var pinnedSerial: Bytes
    var reconnects: nat
    var dials: nat

    /** Every command put to a device, in order. */
    ghost var touched: seq<Touch>

    ghost function Now(): State
      reads this
    {
      State(sess, pinnedSerial, reconnects, dials)
    }

    constructor (world: World)
      ensures this.world == world && Now() == FRESH && touched == []
    {
      this.world, touched := world, [];
      sess, pinnedSerial, reconnects, dials := None, [], 0, 0;
    }

    method CloseSession()
      modifies this`sess
      ensures sess == None
    {
      sess := None;
    }

    method DropSessionIfDead()
      modifies this`sess
      ensures sess == if old(sess).Some? && old(sess).value.io.dead then None else old(sess)
    {
      if sess.Some? && sess.value.io.dead { CloseSession(); }
    }

    /** Puts one command to the live session's stream. */
    method Command(c: Command) returns (a: Answer)
      requires sess.Some?
      modifies this`sess, this`touched
      ensures sess == Some(old(sess).value.(io := Exec(old(sess).value.io, c).0))
      ensures a == Exec(old(sess).value.io, c).1
      ensures touched == old(touched) + [Touch(old(sess).value.device, c)]
    {
      touched := touched + [Touch(sess.value.device, c)];
      var (io, answer) := Exec(sess.value.io, c);
      sess := Some(sess.value.(io := io));
      a := answer;
    }

    method ConnectLocked(want: Serial) returns (r: Result<Live, Error>)
      modifies this`dials
      ensures dials == old(dials) + 1 && r == Connect(world(old(dials)), want)
    {
      var host := world(dials);
      dials := dials + 1;
      if !host.dials { return Err(HostFailed); }
      var conn := new HostConn(host);
      if host.version.None? { return Err(HostFailed); }
      if host.devices.None? { return Err(HostFailed); }
      var entry := SelectDevice(host.devices.value, want);
      if entry.Err? { return Err(entry.error); }
      var features := host.features(entry.value.serial);
      if features.None? { return Err(HostFailed); }
      if !RequireV2(features.value) { return Err(Unsupported); }
      var selected := conn.TransportSerial(entry.value.serial);
      if !selected { return Err(HostFailed); }
      var sc := conn.Sync();
      if sc.None? { return Err(HostFailed); }
      return Ok(Live(sc.value.0, sc.value.1,
                     Row(entry.value.serial, entry.value.state, host.version.value, features.value,
                         |host.devices.value|)));
    }

    method SessionLocked(want: Serial) returns (err: Option<Error>)
      modifies this`sess, this`pinnedSerial, this`dials
      ensures (Now(), err) == SessionFor(world, old(Now()), want)
    {
      if sess.Some? && want != [] && want != sess.value.row.serial { CloseSession(); }
      if sess.Some? { return None; }
      var named := want;
      if want == [] && pinnedSerial != [] {
        var parsed := ParseSerial(pinnedSerial);
        if parsed.None? { return Some(Unnameable); }
        named := parsed.value;
      }
      var live := ConnectLocked(named);
      if live.Err? { return Some(live.error); }
      sess, pinnedSerial := Some(live.value), live.value.row.serial;
      return None;
    }

    method ReconnectLocked() returns (err: Option<Error>)
      modifies this`sess, this`pinnedSerial, this`dials, this`reconnects
      ensures (Now(), err) == Reconnect(world, old(Now()))
    {
      CloseSession();
      reconnects := reconnects + 1;
      err := SessionLocked([]);
    }

    method ProbeDevice(want: Serial) returns (r: Report)
      modifies this
      ensures
        var o := Step(world, old(Now()), Probe(want));
        Now() == o.st && r == o.report && touched == old(touched) + o.touched
    {
      var err := SessionLocked(want);
      if err.Some? { return Failure(err.value); }
      if !SerialOk(sess.value.row.serial) { return Failure(Unnameable); }
      return Device(sess.value.row);
    }

    method Resolve() returns (r: Report)
      modifies this
      ensures
        var o := Step(world, old(Now()), ResolveVolume);
        Now() == o.st && r == o.report && touched == old(touched) + o.touched
    {
      var err := SessionLocked([]);
      if err.Some? { return Failure(err.value); }
      var a := Command(Follow(W.VolumeRoot()));
      DropSessionIfDead();
      return VolumeOf(a);
    }

    /** Walks a tree, the walker's device being the live session. */
    method List(want: Serial, q: W.Request, root: P.AuthorizedPath) returns (r: Report)
      modifies this
      ensures
        var o := Step(world, old(Now()), ListTree(want, q, root));
        Now() == o.st && r == o.report && touched == old(touched) + o.touched
    {
      hide Exec, SessionFor, SerialOk, WalkSpec.WalkRoot, W.EnvOf;
      if root.IsZero() { return Failure(Denied(WalkSpec.PathDenied)); }
      SessionIsLive(world, Now(), want);
      var err := SessionLocked(want);
      if err.Some? { return Failure(err.value); }
      var live := sess.value;
      var walker := new Walker.Walker(W.EnvOf(live.io, q));
      var failure := walker.WalkRoot(root);
      ghost var walked := walker.State();
      touched := touched + Touches(live.device, walker.dev.cmds);
      sess := Some(live.(io := W.After(live.io, walker.dev.cmds)));
      if walker.callerErr { CloseSession(); }
      DropSessionIfDead();
      return Report.Listing(WalkSpec.Yield(walker.emitted, walker.refused, walker.errors), failure);
    }

    method Fetch(path: P.AuthorizedPath, pin: uint63, before: uint63 -> bool, sink: Sink) returns (r: Report)
      requires Valid(Now())
      modifies this
      ensures
        var o := Step(world, old(Now()), Op.Fetch(path, pin, before, sink));
        Now() == o.st && r == o.report && touched == old(touched) + o.touched
    {
      if path.IsZero() { return Failure(Denied(WalkSpec.PathDenied)); }
      hide SessionFor, FetchFrom, SerialOk;
      SessionKept(world, Now(), []);
      var err := SessionLocked([]);
      if err.Some? { return Failure(err.value); }
      r := FetchLocked(path.path, pin, before, sink);
    }

    /** The transfer, once there is a session. */
    method FetchLocked(path: Bytes, pin: uint63, before: uint63 -> bool, sink: Sink) returns (r: Report)
      requires Valid(Now()) && sess.Some?
      modifies this
      ensures
        var o := FetchFrom(world, old(Now()), path, pin, before, sink);
        Now() == o.st && r == o.report && touched == old(touched) + o.touched
    {
      hide SerialOk, SessionFor, Exec, Refusal;
      var row := sess.value.row;
      PutKept(Now(), Lstat(path));
      LstatAnswers(Now(), path);
      var st := Command(Lstat(path));
      DropSessionIfDead();
      if st.Failed? { return Failure(TransferFailed); }
      var refusal := Refusal(st.st, pin, before);
      if refusal.Some? { return Failure(refusal.value); }
      RecvAnswers(Now(), path, sink);
      var got := Command(Recv(path, sink));
      if got.Failed? {
        var rerr := ReconnectLocked();
        return Failure(if rerr.Some? then rerr.value else TransferFailed);
      }
      return Fetched(got.bytes, if SerialOk(row.serial) then row.serial else []);
    }
  }

  lemma RecvAnswers(st: State, path: Bytes, sink: Sink)
    requires Valid(st) && st.sess.Some?
    ensures Put(st, Recv(path, sink)).1.Received? || Put(st, Recv(path, sink)).1.Failed?
    ensures Exec(st.sess.value.io, Recv(path, sink)).0.dead <==> Put(st, Recv(path, sink)).1.Failed?
  {
    hide Exec;
    SyncRuns.ExecAligned(st.sess.value.io, Recv(path, sink));
    ReceivesOrFails(st.sess.value.io, path, sink);
  }

  lemma ReceivesOrFails(s: Session, path: Bytes, sink: Sink)
    ensures Exec(s, Recv(path, sink)).1.Received? || Exec(s, Recv(path, sink)).1.Failed?
  {
    hide EncodeCommand, PathOk;
  }
}
