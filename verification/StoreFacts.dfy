/** What the store's operations come to, told from what the adb server and the device answer. */
module StoreFacts {
  import opened ByteStrings
  import opened Options
  import opened Results
  import opened SyncWire
  import opened SyncSession
  import opened Store
  import P = DevicePath
  import SyncRuns
  import W = WalkSession
  import WalkFacts
  import WalkSpec

  // ---- Establishing a session ----

  predicate HasV2(features: seq<Bytes>) {
    Ascii("stat_v2") in features && Ascii("ls_v2") in features && Ascii("sendrecv_v2") in features
  }

  lemma V2IsRequired(features: seq<Bytes>)
    ensures RequireV2(features) <==> HasV2(features)
  {
    hide Ascii;
    assert Required()[0] == Ascii("stat_v2") && Required()[1] == Ascii("ls_v2");
    assert Required()[2] == Ascii("sendrecv_v2");
  }

  /** The session that a server gives for a device it lists. */
  ghost predicate Gives(h: Host, a: Attached, l: Live) {
    && h.version == Some(l.row.version) && h.devices.Some? && h.opens(a.serial).Some?
    && l.device == l.row.serial == a.serial && l.row.state == a.state && h.features(a.serial) == Some(l.row.features)
    && l.row.attached == |h.devices.value|
    && var s := h.opens(a.serial).value;
       l.io == Session(s.rest, s.room, [], false)
  }

  /** A session is established exactly when the server answers throughout and the device meant has all three V2
      features; and each thing that can stop it is told apart as far as callers tell it apart. */
  lemma ConnectsExactly(h: Host, want: Serial)
    ensures
      var r := Connect(h, want);
      if !h.dials || h.version.None? || h.devices.None? then r == Err(HostFailed)
      else
        match SelectDevice(h.devices.value, want)
        case Err(e) => r == Err(e)
        case Ok(a) =>
          if h.features(a.serial).None? then r == Err(HostFailed)
          else if !HasV2(h.features(a.serial).value) then r == Err(Unsupported)
          else if !h.selects(a.serial) || h.opens(a.serial).None? then r == Err(HostFailed)
          else r.Ok? && Gives(h, a, r.value)
  {
    hide RequireV2, SelectDevice, HasV2;
    if h.devices.Some? && SelectDevice(h.devices.value, want).Ok? {
      var a := SelectDevice(h.devices.value, want).value;
      if h.features(a.serial).Some? { V2IsRequired(h.features(a.serial).value); }
    }
  }

  /** A live session is used again, without a dial, unless another device is named; with none, one is dialled, on
      the device named or else the one pinned; and a pinned serial that cannot be named again stops that. */
  lemma SessionExactly(w: World, st: State, want: Serial)
    ensures
      var (st1, err) := SessionFor(w, st, want);
      if st.sess.Some? && (want == [] || want == st.sess.value.row.serial) then st1 == st && err == None
      else
        var goal := if want != [] then want else st.pinned;
        if goal != [] && !SerialOk(goal) then st1 == st.(sess := None) && err == Some(Unnameable)
        else
          match Connect(w(st.dials), goal)
          case Err(e) => st1 == st.(sess := None, dials := st.dials + 1) && err == Some(e)
          case Ok(l) =>
            st1 == State(Some(l), l.row.serial, st.reconnects, st.dials + 1) && err == None
  {
    hide Connect, SerialOk;
  }

  // ---- What a live session stands on ----

  ghost predicate IsSuffix(a: Bytes, b: Bytes) {
    |a| <= |b| && a == b[|b| - |a|..]
  }

  /** `l` is a session the server gave for a device it listed, with all three features, and of its stream only
      what came first has been read. */
  ghost predicate FoundedOn(h: Host, l: Live) {
    && h.version == Some(l.row.version) && h.devices.Some? && l.row.attached == |h.devices.value|
    && AttachedLine(l.row.serial, l.row.state) in h.devices.value
    && h.features(l.row.serial) == Some(l.row.features) && HasV2(l.row.features)
    && l.device == l.row.serial && h.selects(l.device) && h.opens(l.device).Some?
    && IsSuffix(l.io.rest, h.opens(l.device).value.rest)
  }

  /** A live session is the one the last dial gave. */
  ghost predicate Founded(w: World, st: State) {
    st.sess.Some? ==> st.dials > 0 && FoundedOn(w(st.dials - 1), st.sess.value)
  }

  lemma ConnectFounds(h: Host, want: Serial)
    requires Connect(h, want).Ok?
    ensures FoundedOn(h, Connect(h, want).value)
  {
    hide SelectDevice, HasV2;
    ConnectsExactly(h, want);
    SelectsOnlyTheOneMeant(h.devices.value, want);
    hide Connect;
    var a := SelectDevice(h.devices.value, want).value;
    assert AttachedLine(a.serial, a.state) == a;
  }

  lemma SessionFounds(w: World, st: State, want: Serial)
    requires Founded(w, st)
    ensures Founded(w, SessionFor(w, st, want).0)
  {
    hide Connect, FoundedOn, SerialOk;
    SessionExactly(w, st, want);
    var goal: Bytes := if want != [] then want else st.pinned;
    if (goal == [] || SerialOk(goal)) && Connect(w(st.dials), goal).Ok? { ConnectFounds(w(st.dials), goal); }
  }

  lemma SuffixOfSuffix(a: Bytes, b: Bytes, c: Bytes)
    requires IsSuffix(a, b) && IsSuffix(b, c)
    ensures IsSuffix(a, c)
  {
  }

  lemma ExecReads(s: Session, c: Command)
    ensures !Exec(s, c).0.dead ==> IsSuffix(Exec(s, c).0.rest, s.rest)
  {
    hide ReadReply, EncodeCommand, PathOk;
    var used := ReadReply(c, s.rest).1;
    if used <= |s.rest| { assert IsSuffix(s.rest[used..], s.rest); }
  }

  lemma PutFounds(w: World, st: State, c: Command)
    requires Founded(w, st) && st.sess.Some?
    ensures Founded(w, Put(st, c).0)
  {
    hide Exec, HasV2, IsSuffix;
    ExecReads(st.sess.value.io, c);
    var io := Exec(st.sess.value.io, c).0;
    if !io.dead {
      SuffixOfSuffix(io.rest, st.sess.value.io.rest, w(st.dials - 1).opens(st.sess.value.device).value.rest);
    }
  }

  lemma {:induction false} AfterReads(io: Session, cmds: seq<WalkSpec.Cmd>)
    ensures !W.After(io, cmds).dead ==> IsSuffix(W.After(io, cmds).rest, io.rest)
  {
    hide Exec, W.Wire, IsSuffix;
    if cmds == [] {
      SuffixOfItself(io.rest);
    } else {
      var front := cmds[..|cmds| - 1];
      AfterReads(io, front);
      ExecReads(W.After(io, front), W.Wire(cmds[|cmds| - 1]));
      DeadStays(W.After(io, front), W.Wire(cmds[|cmds| - 1]));
      if !W.After(io, cmds).dead { SuffixOfSuffix(W.After(io, cmds).rest, W.After(io, front).rest, io.rest); }
    }
  }

  lemma SuffixOfItself(a: Bytes)
    ensures IsSuffix(a, a)
  {
  }

  lemma DeadStays(s: Session, c: Command)
    ensures s.dead ==> Exec(s, c).0.dead
  {
  }

  lemma ListFounds(w: World, st: State, q: W.Request, root: P.AuthorizedPath)
    requires Founded(w, st) && st.sess.Some?
    ensures Founded(w, ListFrom(st, q, root).st)
  {
    hide WalkSpec.WalkRoot, W.EnvOf, W.After, HasV2, IsSuffix;
    var l := st.sess.value;
    var cmds := WalkSpec.WalkRoot(W.EnvOf(l.io, q), root).0.cmds;
    AfterReads(l.io, cmds);
    var io := W.After(l.io, cmds);
    if !io.dead { SuffixOfSuffix(io.rest, l.io.rest, w(st.dials - 1).opens(l.device).value.rest); }
  }

  lemma FetchFounds(w: World, st: State, path: Bytes, pin: uint63, before: uint63 -> bool, sink: Sink)
    requires Founded(w, st) && st.sess.Some?
    ensures Founded(w, FetchFrom(w, st, path, pin, before, sink).st)
  {
    hide Put, SerialOk, Refusal, SessionFor, FoundedOn;
    PutFounds(w, st, Lstat(path));
    var st1 := Put(st, Lstat(path)).0;
    if st1.sess.Some? {
      PutFounds(w, st1, Recv(path, sink));
      var st2 := Put(st1, Recv(path, sink)).0;
      SessionFounds(w, st2.(sess := None, reconnects := st2.reconnects + 1), []);
    }
  }

  /** After an operation a live session stands on the last dial, and if a device was reported it is that
      session's. */
  ghost predicate Reported(w: World, o: Outcome) {
    Founded(w, o.st) && (o.report.Device? ==> o.st.sess.Some? && o.report.row == o.st.sess.value.row)
  }

  /** One operation keeps the session standing on the last dial; and what a probe reports is its row. */
  lemma StepFounds(w: World, st: State, op: Op)
    requires Founded(w, st)
    ensures
      var o := Step(w, st, op);
      && Reported(w, o)
      && (op.Probe? && o.st.sess.Some? && SerialOk(o.st.sess.value.row.serial) ==> o.report.Device?)
  {
    hide SessionFor, Put, ListFrom, FetchFrom, VolumeOf, SerialOk, FoundedOn;
    SessionFounds(w, st, Want(op));
    SessionIsLive(w, st, Want(op));
    var (st1, err) := SessionFor(w, st, Want(op));
    if err.None? && !NamesNothing(op) {
      match op
      case Probe(_) =>
      case ResolveVolume =>
        PutFounds(w, st1, Follow(W.VolumeRoot()));
        VolumeOfKinds(Put(st1, Follow(W.VolumeRoot())).1);
      case ListTree(_, q, root) =>
        ListFounds(w, st1, q, root);
        ListReports(st1, q, root);
      case Fetch(path, pin, before, sink) =>
        FetchFounds(w, st1, path.path, pin, before, sink);
        FetchReports(w, st1, path.path, pin, before, sink);
    }
  }

  lemma ListReports(st: State, q: W.Request, root: P.AuthorizedPath)
    requires st.sess.Some?
    ensures ListFrom(st, q, root).report.Listing?
  {
    hide WalkSpec.WalkRoot, W.EnvOf, W.After;
  }

  lemma FetchReports(w: World, st: State, path: Bytes, pin: uint63, before: uint63 -> bool, sink: Sink)
    requires st.sess.Some?
    ensures
      var r := FetchFrom(w, st, path, pin, before, sink).report;
      r.Fetched? || r.Failure?
  {
    hide Put, SerialOk, Refusal, SessionFor;
  }

  /** In every run, whatever operations and failures: a live session is always the one the last dial gave, on a
      device that server listed, under its state, version, features and count; a probe reports just that. */
  lemma {:induction false} RunIsFounded(w: World, st: State, ops: seq<Op>)
    requires Founded(w, st)
    ensures forall i :: 0 <= i < |ops| ==> Reported(w, Run(w, st, ops)[i])
    decreases |ops|
  {
    hide Step, Founded, Reported;
    if ops != [] {
      StepFounds(w, st, ops[0]);
      var o := Step(w, st, ops[0]);
      ReportedFounds(w, o);
      RunIsFounded(w, o.st, ops[1..]);
      var os, rest := Run(w, st, ops), Run(w, o.st, ops[1..]);
      forall i | 0 <= i < |ops| ensures Reported(w, os[i]) {
        if i > 0 { assert Reported(w, rest[i - 1]); }
      }
    }
  }

  lemma ReportedFounds(w: World, o: Outcome)
    requires Reported(w, o)
    ensures Founded(w, o.st)
  {
  }

  // ---- What a stat decides ----

  /** The volume pinned is the one the device states the compiled root to be, when that is a directory; and the
      compiled root is what is stated. */
  lemma ResolvesTheRoot(w: World, st: State, s: Stat, t: Bytes)
    requires st.sess.Some? && st.sess.value.io.rest == EncodeStatReply(StatId(), s) + t
    requires SyncRuns.Sendable(st.sess.value.io, Follow(Ascii("/sdcard")))
    ensures
      var o := Step(w, st, ResolveVolume);
      && o.touched == [Touch(st.sess.value.device, Follow(Ascii("/sdcard")))]
      && o.report == if s.errno == 0 && (exists perm, high :: s.mode == WalkSpec.ModeOf(WalkSpec.Dir, perm, high))
                     then Volume(s.dev, s.ino) else Failure(VolumeUnresolved)
  {
    hide EncodeStatReply, Exec, WalkSpec.ParseKind, WalkSpec.ModeOf, SyncRuns.Replies, SessionFor;
    SessionExactly(w, st, []);
    FollowReplies(s);
    ExecAnswered(st.sess.value.io, Follow(Ascii("/sdcard")), EncodeStatReply(StatId(), s), Stated(s), t);
    WalkFacts.DirShows(s.mode);
  }

  lemma FollowReplies(s: Stat)
    ensures SyncRuns.Replies(Follow(Ascii("/sdcard")), EncodeStatReply(StatId(), s), Stated(s))
  {
  }

  /** A mode is a file's exactly when it is one that a file is reported with. */
  lemma FileShows(mode: uint32)
    ensures WalkSpec.ParseKind(mode) == WalkSpec.Regular <==>
              exists perm, high :: mode == WalkSpec.ModeOf(WalkSpec.File, perm, high)
  {
    if WalkSpec.ParseKind(mode) == WalkSpec.Regular {
      var perm: WalkSpec.Perm, high: WalkSpec.High := mode % 0x1000, mode / 0x1_0000;
      WalkFacts.ModeSplits(mode);
      assert mode == WalkSpec.ModeOf(WalkSpec.File, perm, high);
    }
    if perm, high :| mode == WalkSpec.ModeOf(WalkSpec.File, perm, high) {
      WalkSpec.KindShows(WalkSpec.File, perm, high);
    }
  }

  /** What a fetch comes to when the device states `s` for its path: refused for the first rule the stat breaks, in
      this order, and otherwise asked for. */
  lemma FetchDecides(w: World, st: State, path: Bytes, s: Stat, pin: uint63, before: uint63 -> bool, sink: Sink)
    requires Valid(st) && st.sess.Some? && Put(st, Lstat(path)).1 == Stated(s)
    ensures
      var o := FetchFrom(w, st, path, pin, before, sink);
      var refused := if s.errno == 2 then Some(Denied(WalkSpec.PathNotFound))
                     else if s.errno == 13 then Some(Denied(WalkSpec.PermissionDenied))
                     else if s.errno != 0 then Some(Denied(WalkSpec.TransferFailed))
                     else if !(exists perm, high :: s.mode == WalkSpec.ModeOf(WalkSpec.File, perm, high)) then
                       Some(NotARegularFile)
                     else if s.dev != pin then Some(Denied(WalkSpec.PathDenied))
                     else if !before(s.size) then Some(CallerRefused)
                     else None;
      if refused.Some? then o.report == Failure(refused.value) && o.touched == [Touch(st.pinned, Lstat(path))]
      else o.touched == [Touch(st.pinned, Lstat(path)), Touch(st.pinned, Recv(path, sink))]
  {
    hide Put, SessionFor, WalkSpec.ParseKind, WalkSpec.ModeOf, SerialOk;
    PutKept(st, Lstat(path));
    FileShows(s.mode);
  }

  /** A refused fetch leaves the session where the stat left it. One that was asked for and whose reply came whole
      leaves it after that reply; and one that failed after it was asked for leaves what a new dial to the pinned
      device gives, with one rebuild counted, and never the stream it failed on. */
  lemma FetchLeaves(w: World, st: State, path: Bytes, pin: uint63, before: uint63 -> bool, sink: Sink)
    requires Valid(st) && st.sess.Some?
    ensures
      var o := FetchFrom(w, st, path, pin, before, sink);
      var (st1, a) := Put(st, Lstat(path));
      if |o.touched| == 1 then o.st == st1 && o.report.Failure?
      else
        && |o.touched| == 2 && st1.sess.Some?
        && var (st2, b) := Put(st1, Recv(path, sink));
           if b.Received? then
             o.st == st2 && o.report == Fetched(b.bytes, if SerialOk(st.pinned) then st.pinned else [])
           else
             var (st3, e) := SessionFor(w, st2.(sess := None, reconnects := st.reconnects + 1), []);
             o.st == st3 && o.report == Failure(if e.Some? then e.value else TransferFailed)
  {
    hide Put, SessionFor, Refusal, SerialOk;
    PutKept(st, Lstat(path));
    var st1 := Put(st, Lstat(path)).0;
    if st1.sess.Some? { PutKept(st1, Recv(path, sink)); }
  }

  /** A listing that ends well, or that the volume or the tree ended, keeps the session where its last command left
      it; and one that lost the device or that the caller stopped leaves none. */
  lemma ListLeaves(st: State, q: W.Request, root: P.AuthorizedPath)
    requires Valid(st) && st.sess.Some?
    ensures
      var o := ListFrom(st, q, root);
      var l := st.sess.value;
      var (walked, failure) := WalkSpec.WalkRoot(W.EnvOf(l.io, q), root);
      && o.report == Report.Listing(WalkSpec.Yield(walked.emitted, walked.refused, walked.errors), failure)
      && o.st.pinned == st.pinned && o.st.dials == st.dials && o.st.reconnects == st.reconnects
      && (walked.stopped <==> failure == Some(WalkSpec.CallerStopped))
      && (W.After(l.io, walked.cmds).dead ==> failure.Some?)
      && o.st.sess == if walked.stopped || W.After(l.io, walked.cmds).dead then None
                      else Some(l.(io := W.After(l.io, walked.cmds)))
  {
    hide WalkSpec.WalkRoot, W.After, W.EnvOf;
    W.WalkStaysAlive(st.sess.value.io, q, root);
    StopEnds(W.EnvOf(st.sess.value.io, q), root);
  }

  lemma StopEnds(e: WalkSpec.Env, root: P.AuthorizedPath)
    ensures var (w, failure) := WalkSpec.WalkRoot(e, root); w.stopped <==> failure == Some(WalkSpec.CallerStopped)
  {
    WalkFacts.WalkIsInStep(e, root);
  }

  /** The zero path names nothing: nothing is done for it, and no device is asked. */
  lemma ZeroPathDoesNothing(w: World, st: State, op: Op)
    requires (op.ListTree? && op.root.path == []) || (op.Fetch? && op.path.path == [])
    ensures Step(w, st, op) == Outcome(st, Failure(Denied(WalkSpec.PathDenied)), [])
  {
    hide SessionFor;
  }
}
