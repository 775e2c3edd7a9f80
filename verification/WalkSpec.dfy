/** The device walk as a function of what the device answers. */
module WalkSpec {
  import opened ByteStrings
  import opened Options
  import opened DevicePath
  import opened SyncWire
  import Seqs

  datatype Kind = Regular | Directory | Symlink | Other

  /** The file type bits of a mode. */
  function ParseKind(mode: uint32): Kind {
    var t := mode / 0x1000 % 16;
    if t == 8 then Regular else if t == 4 then Directory else if t == 10 then Symlink else Other
  }

  type Perm = p: int | 0 <= p < 0x1000

  type High = h: int | 0 <= h < 0x10000

  /** The type numbers of sockets, pipes, devices and whatever else is not a file, a directory or a link. */
  type SpecialType = t: int | 0 <= t < 16 && t != 8 && t != 4 && t != 10 witness 1

  /** What stands at a path. */
  datatype What = File | Dir | Link | Special(t: SpecialType)

  /** The mode a device reports for it: its type in bits 12 to 15, its permissions below, and above them bits
      that say nothing about it. */
  function ModeOf(what: What, perm: Perm, high: High): (mode: uint32) {
    high * 0x1_0000 + (match what case File => 0x8000 case Dir => 0x4000 case Link => 0xa000
                                  case Special(t) => t * 0x1000) + perm
  }

  /** Whatever its permissions, a file is read as a file, a directory as a directory, a link as a link, and
      anything else as neither. */
  lemma KindShows(what: What, perm: Perm, high: High)
    ensures
      var kind := ParseKind(ModeOf(what, perm, high));
      && (kind == Regular <==> what.File?) && (kind == Directory <==> what.Dir?)
      && (kind == Symlink <==> what.Link?) && (kind == Other <==> what.Special?)
  {
    var t := match what case File => 8 case Dir => 4 case Link => 10 case Special(t) => t as int;
    TypeBits(t, perm, high);
  }

  lemma TypeBits(t: int, perm: Perm, high: High)
    requires 0 <= t < 16
    ensures (high * 0x1_0000 + t * 0x1000 + perm) / 0x1000 % 16 == t
  {
    assert high * 0x1_0000 + t * 0x1000 + perm == 0x1000 * (16 * high + t) + perm;
    assert (0x1000 * (16 * high + t) + perm) / 0x1000 == 16 * high + t;
  }

  datatype Code = PathDenied | PermissionDenied | PathNotFound | TransferFailed | RootNotFound
                | Internal | Disconnected | VolumeUnresolved | NotADirectory

  function CodeForErrno(errno: uint32, notFound: Code, unmeasured: Code): Code {
    if errno == 2 then notFound else if errno == 13 then PermissionDenied else unmeasured
  }

  datatype FileRecord = FileRecord(path: AuthorizedPath, size: uint63, mtime: int64)

  datatype PathError = PathError(path: AuthorizedPath, code: Code)

  /** Why a walk ended early. */
  datatype Failure = CallerStopped | Coded(code: Code)

  /** One command put to the device. */
  datatype Cmd = LstatCmd(path: Bytes) | ListCmd(path: Bytes) | StatRootCmd

  /** A listing as it arrives: its entries, and whether it ended as it should. */
  datatype Reply = Reply(entries: seq<Dirent>, whole: bool)

  /** Everything a walk depends on: the pinned device number, the allowlist, the depth asked for, the
      caller's callback, and a device whose every answer may depend on all the commands put to it
      before. No answer means the session died. */
  datatype Env = Env(pin: uint63, active: seq<Bytes>, maxDepth: nat,
                     take: seq<FileRecord> -> bool,
                     stat: (seq<Cmd>, Cmd) -> Option<Stat>, list: (seq<Cmd>, Cmd) -> Reply)

  /** What a walk has done: every command in order, the summary, the records taken, and whether the
      caller stopped it or the volume root was stated again. */
  datatype Walked = Walked(cmds: seq<Cmd>, files: nat, errors: seq<PathError>, refused: nat,
                           emitted: seq<FileRecord>, stopped: bool, rechecked: bool)

  const START := Walked([], 0, [], 0, [], false, false)

  const MAX_WALK_DEPTH := 128

  function Issue(w: Walked, c: Cmd): Walked {
    w.(cmds := w.cmds + [c])
  }

  function WithError(w: Walked, p: AuthorizedPath, c: Code): Walked {
    w.(errors := w.errors + [PathError(p, c)])
  }

  function WithRefusal(w: Walked): Walked {
    w.(refused := w.refused + 1)
  }

  predicate IsDots(d: Dirent) { d.name == DOT || d.name == DOTDOT }

  predicate MayDescend(e: Env, depth: nat) {
    e.maxDepth == 0 || depth < e.maxDepth
  }

  /** What one entry comes to: the state after it, the directory to descend into if it is one, and
      whether it was off the pin. */
  datatype Sorted = Sorted(w: Walked, child: Option<AuthorizedPath>, offPin: bool)

  /** The per-entry rules, in order: dot names, the error number, the pin, the kind. */
  function Classify(e: Env, w: Walked, dir: AuthorizedPath, d: Dirent, mayDescend: bool): (s: Sorted) {
    if IsDots(d) then Sorted(w, None, false)
    else if d.stat.errno != 0 then
      match Child(dir, d.name, e.active)
      case None => Sorted(WithError(w, dir, PathDenied), None, false)
      case Some(child) =>
        Sorted(WithError(w, child, CodeForErrno(d.stat.errno, PathNotFound, TransferFailed)), None, false)
    else if d.stat.dev != e.pin then Sorted(WithRefusal(w), None, true)
    else
      match ParseKind(d.stat.mode)
      case Directory =>
        if !mayDescend then Sorted(w, None, false)
        else
          (match Child(dir, d.name, e.active)
           case None => Sorted(WithError(w, dir, PathDenied), None, false)
           case Some(child) => Sorted(w, Some(child), false))
      case Regular => Sorted(Emit(e, w, dir, d), None, false)
      case _ => Sorted(WithRefusal(w), None, false)
  }

  /** Streams one accepted regular file to the caller. */
  function Emit(e: Env, w: Walked, dir: AuthorizedPath, d: Dirent): Walked {
    match Child(dir, d.name, e.active)
    case None => WithError(w, dir, PathDenied)
    case Some(child) =>
      var rec := FileRecord(child, d.stat.size, d.stat.mtime);
      if !e.take(w.emitted + [rec]) then w.(stopped := true)
      else w.(emitted := w.emitted + [rec], files := w.files + 1)
  }

  /** What a listing comes to: the state, the directories accepted, and whether any entry was off the
      pin. It ends early when the caller stops. */
  datatype Level = Level(w: Walked, children: seq<AuthorizedPath>, offPin: bool)

  function Adding(children: seq<AuthorizedPath>, child: Option<AuthorizedPath>): seq<AuthorizedPath> {
    match child case None => children case Some(c) => children + [c]
  }

  function ClassifyAll(e: Env, w: Walked, dir: AuthorizedPath, ds: seq<Dirent>, mayDescend: bool,
                       children: seq<AuthorizedPath>, offPin: bool): (l: Level)
    decreases |ds|
  {
    if ds == [] || w.stopped then Level(w, children, offPin)
    else
      var s := Classify(e, w, dir, ds[0], mayDescend);
      ClassifyAll(e, s.w, dir, ds[1..], mayDescend, Adding(children, s.child), offPin || s.offPin)
  }

  /** What a walk adds to its summary. */
  datatype Yield = Yield(records: seq<FileRecord>, refused: nat, errors: seq<PathError>)

  const NOTHING := Yield([], 0, [])

  function Then(a: Yield, b: Yield): Yield {
    Yield(a.records + b.records, a.refused + b.refused, a.errors + b.errors)
  }

  lemma ThenAssoc(a: Yield, b: Yield, c: Yield)
    ensures Then(Then(a, b), c) == Then(a, Then(b, c))
  {
    Seqs.Assoc(a.records, b.records, c.records);
    Seqs.Assoc(a.errors, b.errors, c.errors);
  }

  lemma ThenNothing(y: Yield)
    ensures Then(y, NOTHING) == y == Then(NOTHING, y)
  {
  }

  type Outcome = (Walked, Option<Failure>)

  /** Re-stats the volume root, once per walk. */
  function Recheck(e: Env, w: Walked): (o: Outcome) {
    if w.rechecked then (w, None)
    else
      var w1 := Issue(w.(rechecked := true), StatRootCmd);
      match e.stat(w.cmds, StatRootCmd)
      case None => (w1, Some(Coded(VolumeUnresolved)))
      case Some(st) =>
        if st.errno != 0 || st.dev != e.pin then (w1, Some(Coded(VolumeUnresolved)))
        else (w1, None)
  }

  /** Lists one directory, then descends into the subdirectories it accepted. */
  function WalkDir(e: Env, w: Walked, dir: AuthorizedPath, depth: nat): (o: Outcome)
    requires depth <= MAX_WALK_DEPTH + 1
    decreases MAX_WALK_DEPTH + 1 - depth, 1, 0
  {
    if depth > MAX_WALK_DEPTH then (WithError(w, dir, PathDenied), None)
    else
      var c := ListCmd(dir.path);
      var reply := e.list(w.cmds, c);
      var l := ClassifyAll(e, Issue(w, c), dir, reply.entries, MayDescend(e, depth), [], false);
      if l.w.stopped then (l.w, Some(CallerStopped))
      else if !reply.whole then (l.w, Some(Coded(Disconnected)))
      else
        var r := if l.offPin then Recheck(e, l.w) else (l.w, None);
        if r.1.Some? then r else DescendAll(e, r.0, l.children, depth + 1)
  }

  function DescendAll(e: Env, w: Walked, children: seq<AuthorizedPath>, depth: nat): (o: Outcome)
    requires depth <= MAX_WALK_DEPTH + 1
    decreases MAX_WALK_DEPTH + 1 - depth, 3, |children|
  {
    if children == [] then (w, None)
    else
      var r := Descend(e, w, children[0], depth);
      if r.1.Some? then r else DescendAll(e, r.0, children[1..], depth)
  }

  /** Re-checks a subdirectory and walks it. */
  function Descend(e: Env, w: Walked, child: AuthorizedPath, depth: nat): (o: Outcome)
    requires depth <= MAX_WALK_DEPTH + 1
    decreases MAX_WALK_DEPTH + 1 - depth, 2, 0
  {
    var c := LstatCmd(child.path);
    var w1 := Issue(w, c);
    match e.stat(w.cmds, c)
    case None => (w1, Some(Coded(Disconnected)))
    case Some(st) =>
      if st.errno != 0 then
        (WithError(w1, child, CodeForErrno(st.errno, PathNotFound, TransferFailed)), None)
      else if st.dev != e.pin then Recheck(e, WithRefusal(w1))
      else if ParseKind(st.mode) != Directory then (WithRefusal(w1), None)
      else WalkDir(e, w1, child, depth)
  }

  /** Checks the listing root and then walks it. */
  function WalkRoot(e: Env, root: AuthorizedPath): (o: Outcome) {
    var c := LstatCmd(root.path);
    var w := Issue(START, c);
    match e.stat([], c)
    case None => (w, Some(Coded(Disconnected)))
    case Some(st) =>
      if st.errno != 0 then (w, Some(Coded(CodeForErrno(st.errno, RootNotFound, RootNotFound))))
      else if ParseKind(st.mode) != Directory then (w, Some(Coded(NotADirectory)))
      else if st.dev != e.pin then (w, Some(Coded(VolumeUnresolved)))
      else WalkDir(e, w, root, 1)
  }
}
