/** What every walk keeps, whatever the device answers. */
module WalkFacts {
  import opened ByteStrings
  import opened Options
  import opened DevicePath
  import opened SyncWire
  import opened WalkSpec
  import opened WalkLedger

  // ---- Accounting ----

  /** Every listed entry ends in exactly one place: a dot name, a record, an error, a refusal, a directory
      to descend into, or a directory past the depth asked for. */
  lemma EntryEndsOnce(e: Env, dir: AuthorizedPath, d: Dirent, mayDescend: bool)
    ensures
      var y := EntryYield(e, dir, d, mayDescend);
      var onPin := !IsDots(d) && d.stat.errno == 0 && d.stat.dev == e.pin;
      |y.records| + y.refused + |y.errors|
      + (if IsDots(d) then 1 else 0) + (if EntryBelow(e, dir, d, mayDescend).Some? then 1 else 0)
      + (if onPin && ParseKind(d.stat.mode) == Directory && !mayDescend then 1 else 0) == 1
  {
    hide Child, ParseKind, CodeForErrno;
  }

  lemma RootTells(e: Env, root: AuthorizedPath)
    ensures
      var c := LstatCmd(root.path);
      var w := Issue(START, c);
      && Tells(e, root, w, NOTHING, if DirOnPin(e, e.stat([], c)) then 1 else 0)
      && Checked(e, w) && Settles(e, root, w.cmds, w.cmds, multiset{})
      && Accepted(e, root, w.cmds) == Restated(w.cmds)
  {
    hide ParseKind;
    var c := LstatCmd(root.path);
    assert [] + [c] == [c];
    OneMore(e, root, [], c);
    OneMoreMet(e, [], c);
    NothingOwed(e, root, [c]);
  }

  lemma WalkKeeps(e: Env, root: AuthorizedPath)
    ensures
      var o := WalkRoot(e, root);
      && Keeps(e, root, [LstatCmd(root.path)], o, multiset{})
      && (o.1.None? ==> Accepted(e, root, o.0.cmds) == Restated(o.0.cmds))
  {
    hide WalkDir, ParseKind, CodeForErrno, RunYield, Accepted, Restated, Openings, Listings, RootStats, MetOffPin,
         RootsHold, StoppedAt, Then;
    RootTells(e, root);
    var c := LstatCmd(root.path);
    assert [] + [c] == [c];
    if DirOnPin(e, e.stat([], c)) {
      WalkDirKeeps(e, root, Issue(START, c), root, 1);
      var o := WalkRoot(e, root);
      if o.1.None? { Even(e, root, [c], o.0.cmds); }
    }
  }

  lemma Even(e: Env, root: AuthorizedPath, a: seq<Cmd>, b: seq<Cmd>)
    requires Settles(e, root, a, b, multiset{}) && Accepted(e, root, a) == Restated(a)
    ensures Accepted(e, root, b) == Restated(b)
  {
    hide Accepted, Restated;
    forall x ensures Accepted(e, root, b)[x] == Restated(b)[x] {
      assert (Accepted(e, root, b) + Restated(a) + multiset{})[x] == (Restated(b) + Accepted(e, root, a))[x];
    }
  }

  /** Against any device the summary is honest: the records, refusals and errors are exactly, and in order,
      what the answers to the commands put add. A walk the caller stopped stands at the very record it
      did not take. Every directory stated good to open was listed, and in a walk that ends well the
      directories accepted are just those stated again. */
  lemma WalkIsAccounted(e: Env, root: AuthorizedPath)
    ensures
      var (w, failure) := WalkRoot(e, root);
      && w.files == |w.emitted| && (w.stopped <==> failure == Some(CallerStopped))
      && (!w.stopped ==> YieldOf(w) == RunYield(e, root, w.cmds) && Listings(w.cmds) == Openings(e, root, w.cmds))
      && (w.stopped ==> exists j: nat :: StoppedAt(e, root, w, j))
      && (failure.None? ==> Accepted(e, root, w.cmds) == Restated(w.cmds))
  {
    hide WalkRoot, RunYield, Accepted, Restated, Openings, Listings;
    WalkKeeps(e, root);
    var w := WalkRoot(e, root).0;
    ThenNothing(YieldOf(w));
    if w.stopped { StoppedCounts(e, root, w); }
  }

  lemma StoppedCounts(e: Env, root: AuthorizedPath, w: Walked)
    requires exists j: nat :: StoppedAt(e, root, w, j)
    ensures w.files == |w.emitted|
  {
  }

  // ---- One command at a time ----

  /** The device answered `c` in full, so the next command may be put. */
  predicate Answered(e: Env, before: seq<Cmd>, c: Cmd) {
    if c.ListCmd? then e.list(before, c).whole else e.stat(before, c).Some?
  }

  ghost predicate AnsweredTo(e: Env, cmds: seq<Cmd>, n: int) {
    forall k :: 0 <= k < n && k < |cmds| ==> Answered(e, cmds[..k], cmds[k])
  }

  /** How a walk may end after its last command: well, when that was answered in full; stopped by the caller,
      inside a listing; with the volume unresolved, when the root did not hold; or else disconnected, when
      that was not answered in full. */
  ghost predicate EndsFor(e: Env, o: Outcome) {
    var k := |o.0.cmds| - 1;
    o.0.cmds != [] &&
    match o.1
    case None => AnsweredTo(e, o.0.cmds, k + 1) && !o.0.stopped
    case Some(CallerStopped) => o.0.stopped && o.0.cmds[k].ListCmd?
    case Some(Coded(code)) =>
      && !o.0.stopped
      && if o.0.cmds[k].StatRootCmd? then code == VolumeUnresolved && !Holds(e, o.0.cmds[..k])
         else code == Disconnected && !Answered(e, o.0.cmds[..k], o.0.cmds[k])
  }

  /** Every command but the last was answered in full, and the walk ended for what came of the last. */
  ghost predicate InStep(e: Env, o: Outcome) {
    o.0.cmds != [] && AnsweredTo(e, o.0.cmds, |o.0.cmds| - 1) && EndsFor(e, o)
  }

  lemma PutNext(e: Env, cmds: seq<Cmd>, c: Cmd)
    requires AnsweredTo(e, cmds, |cmds|)
    ensures AnsweredTo(e, cmds + [c], |cmds|) && (cmds + [c])[..|cmds|] == cmds
    ensures Answered(e, cmds, c) ==> AnsweredTo(e, cmds + [c], |cmds| + 1)
  {
    hide Answered;
    var more := cmds + [c];
    assert more[..|cmds|] == cmds;
    forall k | 0 <= k < |cmds| ensures Answered(e, more[..k], more[k]) {
      assert more[..k] == cmds[..k];
    }
  }

  lemma RecheckInStep(e: Env, w: Walked)
    requires !w.stopped && w.cmds != [] && AnsweredTo(e, w.cmds, |w.cmds|)
    ensures InStep(e, Recheck(e, w))
  {
    PutNext(e, w.cmds, StatRootCmd);
    Whole(e, w.cmds);
    hide AnsweredTo;
  }

  lemma {:induction false} ClassifyPutsNothing(e: Env, w: Walked, dir: AuthorizedPath, ds: seq<Dirent>, may: bool,
                                               children: seq<AuthorizedPath>, offPin: bool)
    ensures ClassifyAll(e, w, dir, ds, may, children, offPin).w.cmds == w.cmds
    decreases |ds|
  {
    hide Child, ParseKind, CodeForErrno, IsDots;
    if ds != [] && !w.stopped {
      var s := Classify(e, w, dir, ds[0], may);
      ClassifyPutsNothing(e, s.w, dir, ds[1..], may, Adding(children, s.child), offPin || s.offPin);
    }
  }

  lemma {:induction false} WalkDirInStep(e: Env, w: Walked, dir: AuthorizedPath, depth: nat)
    requires depth <= MAX_WALK_DEPTH + 1 && !w.stopped && w.cmds != [] && AnsweredTo(e, w.cmds, |w.cmds|)
    ensures InStep(e, WalkDir(e, w, dir, depth))
    decreases MAX_WALK_DEPTH + 1 - depth, 1, 0
  {
    hide ClassifyAll, Recheck, DescendAll, AnsweredTo;
    Whole(e, w.cmds);
    if depth <= MAX_WALK_DEPTH {
      var c := ListCmd(dir.path);
      var reply := e.list(w.cmds, c);
      var may := MayDescend(e, depth);
      PutNext(e, w.cmds, c);
      ClassifyPutsNothing(e, Issue(w, c), dir, reply.entries, may, [], false);
      var l := ClassifyAll(e, Issue(w, c), dir, reply.entries, may, [], false);
      if !l.w.stopped && reply.whole {
        RecheckInStep(e, l.w);
        var r := if l.offPin then Recheck(e, l.w) else (l.w, None);
        Whole(e, l.w.cmds);
        if r.1.None? { DescendAllInStep(e, r.0, l.children, depth + 1); }
      }
    }
  }

  lemma {:induction false} DescendAllInStep(e: Env, w: Walked, children: seq<AuthorizedPath>, depth: nat)
    requires depth <= MAX_WALK_DEPTH + 1 && !w.stopped && w.cmds != [] && AnsweredTo(e, w.cmds, |w.cmds|)
    ensures InStep(e, DescendAll(e, w, children, depth))
    decreases MAX_WALK_DEPTH + 1 - depth, 3, |children|
  {
    hide Descend, AnsweredTo;
    if children == [] {
      Whole(e, w.cmds);
    } else {
      DescendInStep(e, w, children[0], depth);
      var r := Descend(e, w, children[0], depth);
      if r.1.None? { DescendAllInStep(e, r.0, children[1..], depth); }
    }
  }

  lemma Whole(e: Env, cmds: seq<Cmd>)
    requires AnsweredTo(e, cmds, |cmds|)
    ensures AnsweredTo(e, cmds, |cmds| - 1)
  {
    hide Answered;
  }

  lemma {:induction false} DescendInStep(e: Env, w: Walked, child: AuthorizedPath, depth: nat)
    requires depth <= MAX_WALK_DEPTH + 1 && !w.stopped && w.cmds != [] && AnsweredTo(e, w.cmds, |w.cmds|)
    ensures InStep(e, Descend(e, w, child, depth))
    decreases MAX_WALK_DEPTH + 1 - depth, 2, 0
  {
    hide Recheck, WalkDir, ParseKind, CodeForErrno, AnsweredTo;
    var c := LstatCmd(child.path);
    PutNext(e, w.cmds, c);
    var w1 := Issue(w, c);
    match e.stat(w.cmds, c) {
      case None =>
      case Some(st) =>
        if st.errno != 0 {
        } else if st.dev != e.pin {
          RecheckInStep(e, WithRefusal(w1));
        } else if ParseKind(st.mode) == Directory {
          WalkDirInStep(e, w1, child, depth);
        }
    }
  }

  /** What the first stat of the root decides: the walk ends there unless the root is a directory on the pin, and
      then it is listed next. */
  ghost predicate RootDecides(e: Env, root: AuthorizedPath, o: Outcome) {
    var c := LstatCmd(root.path);
    match e.stat([], c)
    case None => o == (Issue(START, c), Some(Coded(Disconnected)))
    case Some(st) =>
      if st.errno != 0 then
        o == (Issue(START, c), Some(Coded(if st.errno == 13 then PermissionDenied else RootNotFound)))
      else if !(exists perm, high :: st.mode == ModeOf(Dir, perm, high)) then
        o == (Issue(START, c), Some(Coded(NotADirectory)))
      else if st.dev != e.pin then o == (Issue(START, c), Some(Coded(VolumeUnresolved)))
      else |o.0.cmds| > 1 && o.0.cmds[0] == c && o.0.cmds[1] == ListCmd(root.path)
  }

  /** A mode is a directory's exactly when it is one that a directory is reported with. */
  lemma DirShows(mode: uint32)
    ensures ParseKind(mode) == Directory <==> exists perm, high :: mode == ModeOf(Dir, perm, high)
  {
    if ParseKind(mode) == Directory {
      var perm: Perm, high: High := mode % 0x1000, mode / 0x1_0000;
      ModeSplits(mode);
      assert mode == ModeOf(Dir, perm, high);
    }
    if perm, high :| mode == ModeOf(Dir, perm, high) { KindShows(Dir, perm, high); }
  }

  lemma ModeSplits(mode: uint32)
    ensures mode == mode / 0x1_0000 * 0x1_0000 + mode / 0x1000 % 16 * 0x1000 + mode % 0x1000
    ensures mode / 0x1_0000 < 0x1_0000
  {
    assert mode / 0x1000 / 16 == mode / 0x1_0000;
  }

  lemma WalkDirLists(e: Env, w: Walked, dir: AuthorizedPath)
    ensures
      var cmds := WalkDir(e, w, dir, 1).0.cmds;
      |cmds| > |w.cmds| && cmds[..|w.cmds| + 1] == w.cmds + [ListCmd(dir.path)]
  {
    hide ClassifyAll, Recheck, DescendAll;
    var c := ListCmd(dir.path);
    var reply := e.list(w.cmds, c);
    ClassifyPutsNothing(e, Issue(w, c), dir, reply.entries, MayDescend(e, 1), [], false);
    var l := ClassifyAll(e, Issue(w, c), dir, reply.entries, MayDescend(e, 1), [], false);
    RecheckAdds(e, l.w);
    var r := if l.offPin then Recheck(e, l.w) else (l.w, None);
    DescendAllAdds(e, r.0, l.children, 2);
  }

  lemma RecheckAdds(e: Env, w: Walked)
    ensures w.cmds <= Recheck(e, w).0.cmds
  {
  }

  lemma {:induction false} WalkDirAdds(e: Env, w: Walked, dir: AuthorizedPath, depth: nat)
    requires depth <= MAX_WALK_DEPTH + 1
    ensures w.cmds <= WalkDir(e, w, dir, depth).0.cmds
    decreases MAX_WALK_DEPTH + 1 - depth, 1, 0
  {
    hide ClassifyAll, Recheck, DescendAll;
    if depth <= MAX_WALK_DEPTH {
      var c := ListCmd(dir.path);
      var reply := e.list(w.cmds, c);
      var may := MayDescend(e, depth);
      ClassifyPutsNothing(e, Issue(w, c), dir, reply.entries, may, [], false);
      var l := ClassifyAll(e, Issue(w, c), dir, reply.entries, may, [], false);
      RecheckAdds(e, l.w);
      var r := if l.offPin then Recheck(e, l.w) else (l.w, None);
      DescendAllAdds(e, r.0, l.children, depth + 1);
    }
  }

  lemma {:induction false} DescendAllAdds(e: Env, w: Walked, children: seq<AuthorizedPath>, depth: nat)
    requires depth <= MAX_WALK_DEPTH + 1
    ensures w.cmds <= DescendAll(e, w, children, depth).0.cmds
    decreases MAX_WALK_DEPTH + 1 - depth, 3, |children|
  {
    hide Descend;
    if children != [] {
      DescendAdds(e, w, children[0], depth);
      var r := Descend(e, w, children[0], depth);
      if r.1.None? { DescendAllAdds(e, r.0, children[1..], depth); }
    }
  }

  lemma {:induction false} DescendAdds(e: Env, w: Walked, child: AuthorizedPath, depth: nat)
    requires depth <= MAX_WALK_DEPTH + 1
    ensures w.cmds <= Descend(e, w, child, depth).0.cmds
    decreases MAX_WALK_DEPTH + 1 - depth, 2, 0
  {
    hide Recheck, WalkDir, ParseKind, CodeForErrno;
    var w1 := Issue(w, LstatCmd(child.path));
    WalkDirAdds(e, w1, child, depth);
    RecheckAdds(e, WithRefusal(w1));
  }

  lemma RootIsDecided(e: Env, root: AuthorizedPath)
    ensures RootDecides(e, root, WalkRoot(e, root))
  {
    hide WalkDir, ParseKind, ModeOf;
    var c := LstatCmd(root.path);
    assert [] + [c] == [c];
    if e.stat([], c).Some? { DirShows(e.stat([], c).value.mode); }
    WalkDirLists(e, Issue(START, c), root);
  }

  /** A walk puts no command after one that was not answered in full, and ends for what came of its last: when
      that is its first, for what the root was found to be. */
  lemma WalkIsInStep(e: Env, root: AuthorizedPath)
    ensures
      var o := WalkRoot(e, root);
      && RootDecides(e, root, o)
      && o.0.cmds != [] && AnsweredTo(e, o.0.cmds, |o.0.cmds| - 1) && (|o.0.cmds| > 1 ==> EndsFor(e, o))
      && (o.1.None? ==> AnsweredTo(e, o.0.cmds, |o.0.cmds|))
  {
    hide WalkDir, ParseKind, CodeForErrno, AnsweredTo, RootDecides;
    RootIsDecided(e, root);
    var c := LstatCmd(root.path);
    assert [] + [c] == [c];
    NothingPut(e);
    PutNext(e, [], c);
    if DirOnPin(e, e.stat([], c)) { WalkDirInStep(e, Issue(START, c), root, 1); }
  }

  lemma NothingPut(e: Env)
    ensures AnsweredTo(e, [], 0)
  {
  }

  // ---- The volume re-check ----

  lemma {:induction false} SomeRootStat(cmds: seq<Cmd>) returns (k: nat)
    requires RootStats(cmds) > 0
    ensures k < |cmds| && cmds[k].StatRootCmd?
    decreases |cmds|
  {
    k := |cmds| - 1;
    if !cmds[k].StatRootCmd? { k := SomeRootStat(cmds[..k]); }
  }

  /** In any walk the volume root is stated again at most once. A walk that ends well has done so exactly
      when some answer showed something off the pin, and found the root on it; and when the root was
      found anywhere else, that is how the walk ends. */
  lemma WalkRechecksOnce(e: Env, root: AuthorizedPath)
    ensures
      var (w, failure) := WalkRoot(e, root);
      && RootStats(w.cmds) <= 1
      && (RootsHold(e, w.cmds) || failure == Some(Coded(VolumeUnresolved)))
      && (failure.None? && !MetOffPin(e, w.cmds) ==> RootStats(w.cmds) == 0)
      && (failure.None? && MetOffPin(e, w.cmds) ==>
            exists k :: 0 <= k < |w.cmds| && w.cmds[k] == StatRootCmd && Holds(e, w.cmds[..k]))
  {
    hide WalkRoot, RunYield, Accepted, Restated, Openings, Listings, RootStats, OffPin, Holds;
    WalkKeeps(e, root);
    var (w, failure) := WalkRoot(e, root);
    if failure.None? && MetOffPin(e, w.cmds) {
      var k := SomeRootStat(w.cmds);
      assert w.cmds[k] == StatRootCmd && Holds(e, w.cmds[..k]);
    }
  }

  // ---- Confinement ----

  /** `p` extends `root` by `n` plain names and, unless it is the root itself, is within the
      allowlist. */
  ghost predicate Extends(e: Env, root: AuthorizedPath, p: AuthorizedPath, n: nat) {
    && FormOk(root.path) && FormOk(p.path) && (n > 0 ==> WithinAny(p.path, e.active))
    && |Segments(p.path)| == |Segments(root.path)| + n
    && Segments(root.path) <= Segments(p.path)
    && forall i :: |Segments(root.path)| <= i < |Segments(p.path)| ==> NameOk(Segments(p.path)[i])
  }

  /** How deep below the root a walk may reach. */
  ghost function Reach(e: Env): (n: nat) {
    if e.maxDepth == 0 || e.maxDepth > MAX_WALK_DEPTH then MAX_WALK_DEPTH else e.maxDepth
  }

  /** Command `k` names the root, something below it, or the volume root; and a directory is listed only
      straight after it was itself stated to be one on the pin. */
  ghost predicate GoodCmd(e: Env, root: AuthorizedPath, cmds: seq<Cmd>, k: nat)
    requires k < |cmds|
  {
    match cmds[k]
    case StatRootCmd => true
    case LstatCmd(p) => exists n: nat :: n <= Reach(e) && Extends(e, root, AuthorizedPath(p), n)
    case ListCmd(p) =>
      && k > 0 && cmds[k - 1] == LstatCmd(p) && DirOnPin(e, e.stat(cmds[..k - 1], cmds[k - 1]))
      && exists n: nat :: n < Reach(e) && Extends(e, root, AuthorizedPath(p), n)
  }

  ghost predicate GoodCmds(e: Env, root: AuthorizedPath, cmds: seq<Cmd>) {
    forall k :: 0 <= k < |cmds| ==> GoodCmd(e, root, cmds, k)
  }

  lemma ChildOfExtends(e: Env, root: AuthorizedPath, dir: AuthorizedPath, n: nat, name: Bytes)
    requires Extends(e, root, dir, n) && Child(dir, name, e.active).Some?
    ensures Extends(e, root, Child(dir, name, e.active).value, n + 1)
  {
    hide Segments, NameOk, WithinAny, FormOk;
    ChildExtends(dir, name, e.active);
    ChildIsNamed(dir, name, e.active);
  }

  lemma ChildIsNamed(dir: AuthorizedPath, name: Bytes, active: seq<Bytes>)
    requires Child(dir, name, active).Some?
    ensures
      var p := Child(dir, name, active).value;
      FormOk(p.path) && WithinAny(p.path, active) && NameOk(name)
  {
    hide FormOk, WithinAny, NameOk;
  }

  lemma ExtendsByNone(e: Env, root: AuthorizedPath, p: AuthorizedPath)
    requires Extends(e, root, p, 0)
    ensures p == root
  {
    hide Split;
    assert Segments(p.path) == Segments(root.path);
    JoinSplit(p.path[1..]);
    JoinSplit(root.path[1..]);
    assert p.path == [SLASH] + p.path[1..] && root.path == [SLASH] + root.path[1..];
  }

  lemma ExtendsWithin(e: Env, root: AuthorizedPath, p: AuthorizedPath, n: nat)
    requires Extends(e, root, p, n) && n > 0
    ensures FormOk(p.path) && WithinAny(p.path, e.active)
  {
    hide WithinAny, Segments, NameOk;
  }

  ghost predicate AllExtend(e: Env, root: AuthorizedPath, ps: seq<AuthorizedPath>, n: nat) {
    forall i :: 0 <= i < |ps| ==> Extends(e, root, ps[i], n)
  }

  lemma ClassifyConfines(e: Env, root: AuthorizedPath, w: Walked, dir: AuthorizedPath, d: Dirent,
                         mayDescend: bool, n: nat)
    requires Extends(e, root, dir, n)
    ensures
      var s := Classify(e, w, dir, d, mayDescend);
      s.w.cmds == w.cmds && (s.child.Some? ==> mayDescend && Extends(e, root, s.child.value, n + 1))
  {
    hide Child, ParseKind, CodeForErrno, Extends, IsDots;
    if Child(dir, d.name, e.active).Some? { ChildOfExtends(e, root, dir, n, d.name); }
  }

  lemma {:induction false} LevelConfines(e: Env, root: AuthorizedPath, w: Walked, dir: AuthorizedPath,
                                         ds: seq<Dirent>, mayDescend: bool,
                                         children: seq<AuthorizedPath>, offPin: bool, n: nat)
    requires Extends(e, root, dir, n)
    requires AllExtend(e, root, children, n + 1) && (children == [] || mayDescend)
    ensures
      var l := ClassifyAll(e, w, dir, ds, mayDescend, children, offPin);
      && l.w.cmds == w.cmds && AllExtend(e, root, l.children, n + 1) && (l.children == [] || mayDescend)
    decreases |ds|
  {
    hide Classify, Extends;
    if ds != [] && !w.stopped {
      ClassifyConfines(e, root, w, dir, ds[0], mayDescend, n);
      var s := Classify(e, w, dir, ds[0], mayDescend);
      LevelConfines(e, root, s.w, dir, ds[1..], mayDescend, Adding(children, s.child), offPin || s.offPin, n);
    }
  }

  lemma OneMoreGood(e: Env, root: AuthorizedPath, cmds: seq<Cmd>, c: Cmd)
    requires GoodCmds(e, root, cmds) && GoodCmd(e, root, cmds + [c], |cmds|)
    ensures GoodCmds(e, root, cmds + [c])
  {
    hide Extends, Reach, DirOnPin;
    var more := cmds + [c];
    forall k | 0 <= k < |more| ensures GoodCmd(e, root, more, k) {
      if k < |cmds| {
        assert GoodCmd(e, root, cmds, k);
        if k > 0 { assert more[..k - 1] == cmds[..k - 1]; }
      }
    }
  }

  /** A stat of an extension of the root. */
  lemma StatIsGood(e: Env, root: AuthorizedPath, cmds: seq<Cmd>, p: AuthorizedPath, n: nat)
    requires GoodCmds(e, root, cmds) && Extends(e, root, p, n) && n <= Reach(e)
    ensures GoodCmds(e, root, cmds + [LstatCmd(p.path)])
  {
    hide Extends, Reach, GoodCmds;
    assert AuthorizedPath(p.path) == p;
    OneMoreGood(e, root, cmds, LstatCmd(p.path));
  }

  lemma ListIsGood(e: Env, root: AuthorizedPath, cmds: seq<Cmd>, p: AuthorizedPath, n: nat)
    requires GoodCmds(e, root, cmds) && Extends(e, root, p, n) && n < Reach(e) && Opened(e, cmds, p)
    ensures GoodCmds(e, root, cmds + [ListCmd(p.path)])
  {
    hide Extends, Reach, GoodCmds, DirOnPin;
    assert AuthorizedPath(p.path) == p;
    var more, k := cmds + [ListCmd(p.path)], |cmds|;
    assert more[..k - 1] == cmds[..k - 1];
    OneMoreGood(e, root, cmds, ListCmd(p.path));
  }

  /** The last command stated `p` to be a directory on the pin. */
  ghost predicate Opened(e: Env, cmds: seq<Cmd>, p: AuthorizedPath) {
    && cmds != [] && cmds[|cmds| - 1] == LstatCmd(p.path)
    && DirOnPin(e, e.stat(cmds[..|cmds| - 1], cmds[|cmds| - 1]))
  }

  lemma RecheckConfines(e: Env, root: AuthorizedPath, w: Walked)
    requires GoodCmds(e, root, w.cmds)
    ensures GoodCmds(e, root, Recheck(e, w).0.cmds)
  {
    OneMoreGood(e, root, w.cmds, StatRootCmd);
    hide GoodCmds;
  }

  lemma {:induction false} WalkDirConfines(e: Env, root: AuthorizedPath, w: Walked, dir: AuthorizedPath,
                                           depth: nat)
    requires 1 <= depth <= MAX_WALK_DEPTH + 1 && (e.maxDepth == 0 || depth <= e.maxDepth)
    requires GoodCmds(e, root, w.cmds) && Extends(e, root, dir, depth - 1) && Opened(e, w.cmds, dir)
    ensures GoodCmds(e, root, WalkDir(e, w, dir, depth).0.cmds)
    decreases MAX_WALK_DEPTH + 1 - depth, 1, 0
  {
    hide ClassifyAll, Recheck, Descend, DescendAll, GoodCmds, Extends, Opened;
    if depth <= MAX_WALK_DEPTH {
      var c := ListCmd(dir.path);
      var reply := e.list(w.cmds, c);
      var may := MayDescend(e, depth);
      ListIsGood(e, root, w.cmds, dir, depth - 1);
      LevelConfines(e, root, Issue(w, c), dir, reply.entries, may, [], false, depth - 1);
      var l := ClassifyAll(e, Issue(w, c), dir, reply.entries, may, [], false);
      if !l.w.stopped && reply.whole {
        RecheckConfines(e, root, l.w);
        var r := if l.offPin then Recheck(e, l.w) else (l.w, None);
        if r.1.None? && l.children != [] {
          DescendAllConfines(e, root, r.0, l.children, depth + 1);
        } else if r.1.None? {
          NothingToDescend(e, r.0, depth + 1);
        }
      }
    }
  }

  lemma NothingToDescend(e: Env, w: Walked, depth: nat)
    requires depth <= MAX_WALK_DEPTH + 1
    ensures DescendAll(e, w, [], depth) == (w, None)
  {
  }

  lemma {:induction false} DescendAllConfines(e: Env, root: AuthorizedPath, w: Walked,
                                              children: seq<AuthorizedPath>, depth: nat)
    requires 1 <= depth <= MAX_WALK_DEPTH + 1 && (e.maxDepth == 0 || depth <= e.maxDepth)
    requires GoodCmds(e, root, w.cmds) && AllExtend(e, root, children, depth - 1)
    ensures GoodCmds(e, root, DescendAll(e, w, children, depth).0.cmds)
    decreases MAX_WALK_DEPTH + 1 - depth, 3, |children|
  {
    hide Descend, GoodCmds, Extends;
    if children != [] {
      DescendConfines(e, root, w, children[0], depth);
      var r := Descend(e, w, children[0], depth);
      if r.1.None? { DescendAllConfines(e, root, r.0, children[1..], depth); }
    }
  }

  lemma {:induction false} DescendConfines(e: Env, root: AuthorizedPath, w: Walked, child: AuthorizedPath,
                                           depth: nat)
    requires 1 <= depth <= MAX_WALK_DEPTH + 1 && (e.maxDepth == 0 || depth <= e.maxDepth)
    requires GoodCmds(e, root, w.cmds) && Extends(e, root, child, depth - 1)
    ensures GoodCmds(e, root, Descend(e, w, child, depth).0.cmds)
    decreases MAX_WALK_DEPTH + 1 - depth, 2, 0
  {
    hide Recheck, WalkDir, ParseKind, CodeForErrno, GoodCmds, Extends;
    var c := LstatCmd(child.path);
    StatIsGood(e, root, w.cmds, child, depth - 1);
    Front(w.cmds, c);
    var w1 := Issue(w, c);
    match e.stat(w.cmds, c) {
      case None =>
      case Some(st) =>
        if st.errno != 0 {
        } else if st.dev != e.pin {
          RecheckConfines(e, root, WithRefusal(w1));
        } else if ParseKind(st.mode) == Directory {
          WalkDirConfines(e, root, w1, child, depth);
        }
    }
  }

  lemma RootExtendsItself(e: Env, root: AuthorizedPath)
    requires FormOk(root.path)
    ensures Extends(e, root, root, 0)
  {
    hide FormOk, Segments;
  }

  lemma CommandsConfined(e: Env, root: AuthorizedPath)
    requires FormOk(root.path)
    ensures GoodCmds(e, root, WalkRoot(e, root).0.cmds)
  {
    hide WalkDir, ParseKind, CodeForErrno, FormOk, Extends, GoodCmds, Reach, GoodCmd, Opened;
    var c := LstatCmd(root.path);
    RootExtendsItself(e, root);
    NoneIsGood(e, root);
    StatIsGood(e, root, [], root, 0);
    assert [] + [c] == [c];
    if DirOnPin(e, e.stat([], c)) {
      OpenedByRoot(e, root);
      WalkDirConfines(e, root, Issue(START, c), root, 1);
    }
  }

  lemma OpenedByRoot(e: Env, root: AuthorizedPath)
    requires DirOnPin(e, e.stat([], LstatCmd(root.path)))
    ensures Opened(e, [LstatCmd(root.path)], root)
  {
    hide DirOnPin;
    assert [LstatCmd(root.path)][..0] == [];
  }

  lemma NoneIsGood(e: Env, root: AuthorizedPath)
    ensures GoodCmds(e, root, [])
  {
  }

  // ---- Where records come from ----

  /** `rec` is what entry `j` of the listing put as command `k` was: a regular file on the pin, under its
      own plain name in the directory listed. */
  ghost predicate IsEntry(e: Env, cmds: seq<Cmd>, rec: FileRecord, k: nat, j: nat) {
    && k < |cmds| && cmds[k].ListCmd?
    && var entries := e.list(cmds[..k], cmds[k]).entries;
       && j < |entries|
       && FromEntry(e, AuthorizedPath(cmds[k].path), rec, entries[j])
  }

  ghost predicate FromEntry(e: Env, dir: AuthorizedPath, rec: FileRecord, d: Dirent) {
    && d.stat.errno == 0 && d.stat.dev == e.pin && ParseKind(d.stat.mode) == Regular && NameOk(d.name)
    && Child(dir, d.name, e.active) == Some(rec.path) && rec.path.path == dir.path + [SLASH] + d.name
    && rec.size == d.stat.size && rec.mtime == d.stat.mtime
  }

  lemma EntryRecord(e: Env, dir: AuthorizedPath, d: Dirent, may: bool, rec: FileRecord)
    requires rec in EntryYield(e, dir, d, may).records
    ensures FromEntry(e, dir, rec, d)
  {
    hide FormOk, WithinAny, ParseKind, NameOk;
  }

  lemma {:induction false} ListRecord(e: Env, dir: AuthorizedPath, ds: seq<Dirent>, may: bool, rec: FileRecord)
    returns (j: nat)
    requires rec in ListYield(e, dir, ds, may).records
    ensures j < |ds| && FromEntry(e, dir, rec, ds[j])
    decreases |ds|
  {
    hide EntryYield, FromEntry;
    j := 0;
    if rec in EntryYield(e, dir, ds[0], may).records {
      EntryRecord(e, dir, ds[0], may, rec);
    } else {
      j := ListRecord(e, dir, ds[1..], may, rec);
      j := j + 1;
    }
  }

  lemma {:induction false} RunRecord(e: Env, root: AuthorizedPath, cmds: seq<Cmd>, rec: FileRecord)
    returns (k: nat, j: nat)
    requires rec in RunYield(e, root, cmds).records
    ensures IsEntry(e, cmds, rec, k, j)
    decreases |cmds|
  {
    hide FromEntry, ListYield, MayDescendFrom;
    var front, c := cmds[..|cmds| - 1], cmds[|cmds| - 1];
    if rec in RunYield(e, root, front).records {
      k, j := RunRecord(e, root, front, rec);
      assert cmds[..k] == front[..k];
    } else {
      k := |cmds| - 1;
      j := ListRecord(e, AuthorizedPath(c.path), e.list(front, c).entries, MayDescendFrom(e, root, c.path), rec);
    }
  }

  lemma RecordIsListed(e: Env, root: AuthorizedPath, rec: FileRecord) returns (k: nat, j: nat)
    requires rec in WalkRoot(e, root).0.emitted
    ensures IsEntry(e, WalkRoot(e, root).0.cmds, rec, k, j)
  {
    hide WalkRoot, RunYield, Accepted, Restated, Openings, Listings, FromEntry, ListYield, MayDescendFrom;
    WalkIsAccounted(e, root);
    var w := WalkRoot(e, root).0;
    if !w.stopped {
      k, j := RunRecord(e, root, w.cmds, rec);
    } else {
      var i: nat :| StoppedAt(e, root, w, i);
      var front, c := w.cmds[..|w.cmds| - 1], w.cmds[|w.cmds| - 1];
      if rec in RunYield(e, root, front).records {
        k, j := RunRecord(e, root, front, rec);
        assert w.cmds[..k] == front[..k];
      } else {
        k := |w.cmds| - 1;
        j := ListRecord(e, AuthorizedPath(c.path), e.list(front, c).entries[..i], MayDescendFrom(e, root, c.path), rec);
      }
    }
  }

  ghost predicate Listed(e: Env, cmds: seq<Cmd>, rec: FileRecord) {
    exists k: nat, j: nat :: IsEntry(e, cmds, rec, k, j)
  }

  ghost predicate Below(e: Env, root: AuthorizedPath, p: AuthorizedPath) {
    exists n: nat :: 1 <= n <= Reach(e) && Extends(e, root, p, n)
  }

  /** Against any device, every record is an entry the device listed: a regular file on the pin, named
      under the directory that was listed, which was itself just stated to be a directory on the pin,
      and at least one and at most `Reach` plain names below the root. And no command names anything but
      the root, something below it, or the compiled volume root. */
  lemma WalkIsConfined(e: Env, root: AuthorizedPath)
    requires FormOk(root.path)
    ensures
      var w := WalkRoot(e, root).0;
      && GoodCmds(e, root, w.cmds)
      && forall i :: 0 <= i < |w.emitted| ==> Listed(e, w.cmds, w.emitted[i]) && Below(e, root, w.emitted[i].path)
  {
    hide WalkRoot, FromEntry, Extends, FormOk, WithinAny, Reach, DirOnPin;
    CommandsConfined(e, root);
    var w := WalkRoot(e, root).0;
    forall i | 0 <= i < |w.emitted|
      ensures Listed(e, w.cmds, w.emitted[i]) && Below(e, root, w.emitted[i].path)
    {
      var k, j := RecordIsListed(e, root, w.emitted[i]);
      assert GoodCmd(e, root, w.cmds, k);
      var n: nat :| n < Reach(e) && Extends(e, root, AuthorizedPath(w.cmds[k].path), n);
      EntryExtends(e, root, AuthorizedPath(w.cmds[k].path), n, w.emitted[i],
                   e.list(w.cmds[..k], w.cmds[k]).entries[j]);
    }
  }

  lemma EntryExtends(e: Env, root: AuthorizedPath, dir: AuthorizedPath, n: nat, rec: FileRecord, d: Dirent)
    requires Extends(e, root, dir, n) && FromEntry(e, dir, rec, d)
    ensures Extends(e, root, rec.path, n + 1)
  {
    hide Extends, ParseKind, Child;
    ChildOfExtends(e, root, dir, n, d.name);
  }
}
