/** A walk over one sync session: what each of its commands is on the wire, and what the stream answers. */
module WalkSession {
  import opened ByteStrings
  import opened Options
  import opened DevicePath
  import opened SyncWire
  import opened SyncSession
  import opened WalkSpec
  import SyncRuns
  import WalkFacts

  function VolumeRoot(): Bytes { Ascii("/sdcard") }

  /** A callback that takes every entry. */
  function Everything(): Taker { got => true }

  function Wire(c: Cmd): Command {
    match c
    case LstatCmd(p) => Lstat(p)
    case ListCmd(p) => List(p, Everything())
    case StatRootCmd => Follow(VolumeRoot())
  }

  /** The session after a walk put `cmds` to it. */
  function After(io: Session, cmds: seq<Cmd>): Session {
    if cmds == [] then io else Exec(After(io, cmds[..|cmds| - 1]), Wire(cmds[|cmds| - 1])).0
  }

  /** What the stream answers to a command put after `before`. */
  function Asked(io: Session, before: seq<Cmd>, c: Cmd): Answer {
    Exec(After(io, before), Wire(c)).1
  }

  function StatIn(a: Answer): Option<Stat> {
    if a.Stated? then Some(a.st) else None
  }

  function ReplyIn(a: Answer): Reply {
    match a
    case Listed(es) => Reply(es, true)
    case Failed(es, _) => Reply(es, false)
    case _ => Reply([], false)
  }

  /** What the caller of a listing asks for: the pinned device number, the allowlist in force, a depth and
      a callback. */
  datatype Request = Request(pin: uint63, active: seq<Bytes>, maxDepth: nat, take: seq<FileRecord> -> bool)

  /** The device of a walk is the session it runs on. */
  function EnvOf(io: Session, q: Request): Env {
    Env(q.pin, q.active, q.maxDepth, q.take,
        (before, c) => StatIn(Asked(io, before, c)), (before, c) => ReplyIn(Asked(io, before, c)))
  }

  /** A command of a walk is answered in full exactly when it leaves the session alive. */
  lemma AnsweredIsAlive(io: Session, q: Request, before: seq<Cmd>, c: Cmd)
    ensures WalkFacts.Answered(EnvOf(io, q), before, c) <==> !After(io, before + [c]).dead
  {
    hide Exec;
    assert (before + [c])[..|before|] == before;
    SyncRuns.ExecAligned(After(io, before), Wire(c));
    AnswerKind(After(io, before), Wire(c));
  }

  lemma AnswerKind(s: Session, c: Command)
    ensures
      match Exec(s, c).1
      case Stated(_) => c.Lstat? || c.Follow?
      case Listed(_) => c.List?
      case Received(_) => c.Recv?
      case Failed(_, _) => true
  {
    hide EncodeCommand, PathOk;
  }

  /** Every command of a walk is put on a live session; only the last can retire it, and then the walk
      fails. */
  lemma WalkStaysAlive(io: Session, q: Request, root: AuthorizedPath)
    requires !io.dead
    ensures
      var (w, failure) := WalkRoot(EnvOf(io, q), root);
      && (forall k :: 0 <= k < |w.cmds| ==> !After(io, w.cmds[..k]).dead)
      && (failure.None? ==> !After(io, w.cmds).dead)
  {
    hide After, WalkRoot, EnvOf;
    var e := EnvOf(io, q);
    WalkFacts.WalkIsInStep(e, root);
    var (w, failure) := WalkRoot(e, root);
    forall k | 0 <= k <= |w.cmds| && (k < |w.cmds| || failure.None?) ensures !After(io, w.cmds[..k]).dead {
      if k == 0 {
        NothingAfter(io);
      } else {
        assert WalkFacts.Answered(e, w.cmds[..k - 1], w.cmds[k - 1]);
        AnsweredIsAlive(io, q, w.cmds[..k - 1], w.cmds[k - 1]);
        assert w.cmds[..k - 1] + [w.cmds[k - 1]] == w.cmds[..k];
      }
    }
    assert w.cmds[..|w.cmds|] == w.cmds;
  }

  lemma NothingAfter(io: Session)
    ensures After(io, []) == io
  {
  }

  // ---- A listing that the caller stops ----

  /** The callback of a listing: the entry is classified, and taken unless the caller stopped the walk. */
  function Callback(e: Env, w: Walked, dir: AuthorizedPath, may: bool): Taker {
    got => !ClassifyAll(e, w, dir, got, may, [], false).w.stopped
  }

  lemma {:induction false} ClassifySplit(e: Env, w: Walked, dir: AuthorizedPath, a: seq<Dirent>, b: seq<Dirent>,
                                         may: bool, children: seq<AuthorizedPath>, offPin: bool)
    ensures
      var l := ClassifyAll(e, w, dir, a, may, children, offPin);
      ClassifyAll(e, w, dir, a + b, may, children, offPin) == ClassifyAll(e, l.w, dir, b, may, l.children, l.offPin)
    decreases |a|
  {
    hide Classify;
    if a == [] {
      assert a + b == b;
    } else if w.stopped {
    } else {
      assert (a + b)[0] == a[0] && (a + b)[1..] == a[1..] + b;
      var s := Classify(e, w, dir, a[0], may);
      ClassifySplit(e, s.w, dir, a[1..], b, may, Adding(children, s.child), offPin || s.offPin);
    }
  }

  lemma {:induction false} ReadKeeps(s: Bytes, got: seq<Dirent>, take: Taker)
    ensures got <= ReadList(s, got, take).entries
    decreases |s|
  {
    hide ReadDirent;
    if |s| >= HEADER_LEN && s[..4] != DoneId() && s[..4] == DentId() && ReadDirent(s).Some? {
      var r := ReadDirent(s).value;
      ReadKeeps(s[r.1..], got + [r.0], take);
    }
  }

  /** Classifying entries as they arrive, and leaving the listing where the caller stops, comes to the same
      as classifying the whole of it; and unless the caller stops, it is the same listing. */
  lemma {:induction false} StreamingIsSame(s: Bytes, got: seq<Dirent>, e: Env, w: Walked, dir: AuthorizedPath,
                                           may: bool)
    requires !ClassifyAll(e, w, dir, got, may, [], false).w.stopped
    ensures
      var some, all := ReadList(s, got, Callback(e, w, dir, may)), ReadList(s, got, Everything());
      var l := ClassifyAll(e, w, dir, all.entries, may, [], false);
      && ClassifyAll(e, w, dir, some.entries, may, [], false) == l
      && (if l.w.stopped then !some.done else some == all)
    decreases |s|
  {
    hide ReadDirent, ClassifyAll;
    if |s| >= HEADER_LEN && s[..4] != DoneId() && s[..4] == DentId() && ReadDirent(s).Some? {
      var r := ReadDirent(s).value;
      var more := got + [r.0];
      if ClassifyAll(e, w, dir, more, may, [], false).w.stopped {
        ReadKeeps(s[r.1..], more, Everything());
        var all := ReadList(s, got, Everything());
        assert all.entries == more + all.entries[|more|..];
        ClassifySplit(e, w, dir, more, all.entries[|more|..], may, [], false);
        StoppedStays(e, ClassifyAll(e, w, dir, more, may, [], false), dir, all.entries[|more|..], may);
      } else {
        StreamingIsSame(s[r.1..], more, e, w, dir, may);
      }
    }
  }

  lemma StoppedStays(e: Env, l: Level, dir: AuthorizedPath, ds: seq<Dirent>, may: bool)
    requires l.w.stopped
    ensures ClassifyAll(e, l.w, dir, ds, may, l.children, l.offPin) == l
  {
  }
}
