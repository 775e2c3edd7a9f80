/** The walk as the store runs it: one summary updated in place, one device that answers one command
    at a time. */
module Walker {
  import opened ByteStrings
  import opened Options
  import opened DevicePath
  import opened SyncWire
  import opened WalkSpec

  /** A sync session as the walk sees it. While a listing is open no other command may be put to
      it. */
  class Device {
    const e: Env
    var cmds: seq<Cmd>
    ghost var busy: bool

    constructor (e: Env)
      ensures this.e == e && cmds == [] && !busy
    {
      this.e, this.cmds, this.busy := e, [], false;
    }

    method Stat(c: Cmd) returns (r: Option<Stat>)
      requires !busy && !c.ListCmd?
      modifies this`cmds
      ensures cmds == old(cmds) + [c] && r == e.stat(old(cmds), c)
    {
      r := e.stat(cmds, c);
      cmds := cmds + [c];
    }

    method BeginList(path: Bytes) returns (r: Reply)
      requires !busy
      modifies this
      ensures busy && cmds == old(cmds) + [ListCmd(path)]
      ensures r == e.list(old(cmds), ListCmd(path))
    {
      r := e.list(cmds, ListCmd(path));
      cmds := cmds + [ListCmd(path)];
      busy := true;
    }

    method EndList()
      requires busy
      modifies this`busy
      ensures !busy
    {
      busy := false;
    }
  }

  class Walker {
    const e: Env
    const dev: Device
    var files: nat
    var errors: seq<PathError>
    var refused: nat
    var emitted: seq<FileRecord>
    var callerErr: bool
    var rootRechecked: bool

    ghost predicate Valid()
      reads this
    {
      dev.e == e
    }

    ghost function State(): Walked
      reads this, dev
    {
      Walked(dev.cmds, files, errors, refused, emitted, callerErr, rootRechecked)
    }

    constructor (e: Env)
      ensures Valid() && this.e == e && fresh(dev) && !dev.busy && State() == START
    {
      this.e := e;
      this.dev := new Device(e);
      files, errors, refused, emitted, callerErr, rootRechecked := 0, [], 0, [], false, false;
    }

    /** Streams one accepted regular file to the caller. */
    method Emit(dir: AuthorizedPath, d: Dirent)
      requires Valid()
      modifies this
      ensures Valid() && State() == WalkSpec.Emit(e, old(State()), dir, d)
    {
      hide DevicePath.Child;
      var child := DevicePath.Child(dir, d.name, e.active);
      if child.None? {
        errors := errors + [PathError(dir, PathDenied)];
      } else {
        var rec := FileRecord(child.value, d.stat.size, d.stat.mtime);
        if !e.take(emitted + [rec]) {
          callerErr := true;
        } else {
          emitted := emitted + [rec];
          files := files + 1;
        }
      }
    }

    /** Builds the path for one entry; a name that is refused is recorded against the parent. */
    method ChildOf(dir: AuthorizedPath, d: Dirent) returns (child: Option<AuthorizedPath>)
      modifies this`errors
      ensures child == DevicePath.Child(dir, d.name, e.active)
      ensures errors == old(errors) + if child.None? then [PathError(dir, PathDenied)] else []
    {
      child := DevicePath.Child(dir, d.name, e.active);
      if child.None? { errors := errors + [PathError(dir, PathDenied)]; }
    }

    /** Applies the per-entry rules from inside a listing, so it puts no command to the device. */
    method Classify(dir: AuthorizedPath, d: Dirent, mayDescend: bool)
      returns (child: Option<AuthorizedPath>, offPin: bool)
      requires Valid() && dev.busy
      modifies this
      ensures Valid() && Sorted(State(), child, offPin) == WalkSpec.Classify(e, old(State()), dir, d, mayDescend)
    {
      hide DevicePath.Child, ParseKind, CodeForErrno;
      child, offPin := None, false;
      if IsDots(d) {
      } else if d.stat.errno != 0 {
        var path := ChildOf(dir, d);
        if path.Some? {
          errors := errors + [PathError(path.value, CodeForErrno(d.stat.errno, PathNotFound, TransferFailed))];
        }
      } else if d.stat.dev != e.pin {
        refused := refused + 1;
        offPin := true;
      } else {
        match ParseKind(d.stat.mode) {
          case Directory =>
            if mayDescend { child := ChildOf(dir, d); }
          case Regular => Emit(dir, d);
          case _ => refused := refused + 1;
        }
      }
    }

    /** Re-stats the volume root once per walk. */
    method RecheckRoot() returns (failure: Option<Failure>)
      requires Valid() && !dev.busy
      modifies this, dev`cmds
      ensures Valid() && (State(), failure) == Recheck(e, old(State()))
    {
      if rootRechecked { return None; }
      rootRechecked := true;
      var st := dev.Stat(StatRootCmd);
      if st.None? { return Some(Coded(VolumeUnresolved)); }
      if st.value.errno != 0 || st.value.dev != e.pin { return Some(Coded(VolumeUnresolved)); }
      return None;
    }

    /** Lists one level, classifying entries as they arrive and collecting directories for later. */
    method ListLevel(dir: AuthorizedPath, mayDescend: bool)
      returns (children: seq<AuthorizedPath>, sawOffPin: bool, whole: bool)
      requires Valid() && !dev.busy
      modifies this, dev
      ensures Valid() && !dev.busy
      ensures
        var c := ListCmd(dir.path);
        var w := old(State());
        var reply := e.list(w.cmds, c);
        && whole == reply.whole
        && Level(State(), children, sawOffPin)
           == ClassifyAll(e, Issue(w, c), dir, reply.entries, mayDescend, [], false)
    {
      hide WalkSpec.Classify;
      ghost var w1 := Issue(State(), ListCmd(dir.path));
      var reply := dev.BeginList(dir.path);
      children, sawOffPin, whole := [], false, reply.whole;
      var i := 0;
      while i < |reply.entries| && !callerErr
        invariant Valid() && dev.busy && 0 <= i <= |reply.entries|
        invariant ClassifyAll(e, w1, dir, reply.entries, mayDescend, [], false)
               == ClassifyAll(e, State(), dir, reply.entries[i..], mayDescend, children, sawOffPin)
        decreases |reply.entries| - i
      {
        assert reply.entries[i..][0] == reply.entries[i] && reply.entries[i..][1..] == reply.entries[i + 1..];
        var child, off := Classify(dir, reply.entries[i], mayDescend);
        if child.Some? { children := children + [child.value]; }
        sawOffPin := sawOffPin || off;
        i := i + 1;
      }
      dev.EndList();
    }

    method WalkDir(dir: AuthorizedPath, depth: nat) returns (failure: Option<Failure>)
      requires Valid() && !dev.busy && depth <= MAX_WALK_DEPTH + 1
      modifies this, dev
      ensures Valid() && !dev.busy
      ensures (State(), failure) == WalkSpec.WalkDir(e, old(State()), dir, depth)
      decreases MAX_WALK_DEPTH + 1 - depth, 1, 0
    {
      hide ClassifyAll, Recheck, WalkSpec.DescendAll, WalkSpec.Descend;
      if depth > MAX_WALK_DEPTH {
        errors := errors + [PathError(dir, PathDenied)];
        return None;
      }
      var mayDescend := MayDescend(e, depth);
      var children, sawOffPin, whole := ListLevel(dir, mayDescend);
      if callerErr { return Some(CallerStopped); }
      if !whole { return Some(Coded(Disconnected)); }
      if sawOffPin {
        failure := RecheckRoot();
        if failure.Some? { return; }
      }
      failure := DescendAll(children, depth + 1);
    }

    method DescendAll(children: seq<AuthorizedPath>, depth: nat) returns (failure: Option<Failure>)
      requires Valid() && !dev.busy && depth <= MAX_WALK_DEPTH + 1
      modifies this, dev
      ensures Valid() && !dev.busy
      ensures (State(), failure) == WalkSpec.DescendAll(e, old(State()), children, depth)
      decreases MAX_WALK_DEPTH + 1 - depth, 3, |children|
    {
      hide WalkSpec.Descend;
      ghost var w := State();
      var i := 0;
      while i < |children|
        invariant Valid() && !dev.busy && 0 <= i <= |children|
        invariant WalkSpec.DescendAll(e, w, children, depth)
               == WalkSpec.DescendAll(e, State(), children[i..], depth)
        decreases |children| - i
      {
        assert children[i..][0] == children[i] && children[i..][1..] == children[i + 1..];
        failure := Descend(children[i], depth);
        if failure.Some? { return; }
        i := i + 1;
      }
      return None;
    }

    /** Re-checks a subdirectory and walks it. */
    method Descend(child: AuthorizedPath, depth: nat) returns (failure: Option<Failure>)
      requires Valid() && !dev.busy && depth <= MAX_WALK_DEPTH + 1
      modifies this, dev
      ensures Valid() && !dev.busy
      ensures (State(), failure) == WalkSpec.Descend(e, old(State()), child, depth)
      decreases MAX_WALK_DEPTH + 1 - depth, 2, 0
    {
      hide ParseKind, CodeForErrno, WalkSpec.WalkDir, Recheck;
      var st := dev.Stat(LstatCmd(child.path));
      if st.None? { return Some(Coded(Disconnected)); }
      if st.value.errno != 0 {
        errors := errors + [PathError(child, CodeForErrno(st.value.errno, PathNotFound, TransferFailed))];
        return None;
      }
      if st.value.dev != e.pin {
        refused := refused + 1;
        failure := RecheckRoot();
        return;
      }
      if ParseKind(st.value.mode) != Directory {
        refused := refused + 1;
        return None;
      }
      failure := WalkDir(child, depth);
    }

    /** Checks the listing root and then walks it. */
    method WalkRoot(root: AuthorizedPath) returns (failure: Option<Failure>)
      requires Valid() && !dev.busy && State() == START
      modifies this, dev
      ensures Valid() && !dev.busy
      ensures (State(), failure) == WalkSpec.WalkRoot(e, root)
    {
      hide ParseKind, CodeForErrno, WalkSpec.WalkDir;
      var st := dev.Stat(LstatCmd(root.path));
      if st.None? { return Some(Coded(Disconnected)); }
      if st.value.errno != 0 {
        return Some(Coded(CodeForErrno(st.value.errno, RootNotFound, RootNotFound)));
      }
      if ParseKind(st.value.mode) != Directory { return Some(Coded(NotADirectory)); }
      if st.value.dev != e.pin { return Some(Coded(VolumeUnresolved)); }
      failure := WalkDir(root, 1);
    }
  }
}
