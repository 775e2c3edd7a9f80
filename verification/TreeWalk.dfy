/** The device walk on a static tree, against a simple recursive reading of that tree. */
module TreeWalk {
  import opened ByteStrings
  import opened Options
  import opened DevicePath
  import opened SyncWire
  import opened WalkSpec
  import Seqs

  /** A file-system object: what it is, the numbers kept with it, the device number it resolves to when links
      are followed, and what it holds if it is a directory. */
  datatype Node = Node(what: What, perm: Perm, high: High, inode: Stat, target: Option<uint63>,
                       children: seq<Entry>)
  {
    /** The stat a device reports of it. */
    function Stat(): Stat { inode.(mode := ModeOf(what, perm, high)) }
  }

  datatype Entry = Entry(name: Bytes, node: Node)

  /** Readable, with the names a file system has; only a link resolves anywhere else. */
  ghost predicate WellFormed(n: Node) {
    && n.Stat().errno == 0
    && (!n.what.Link? ==> n.target == Some(n.Stat().dev))
    && forall i :: 0 <= i < |n.children| ==> NameOk(n.children[i].name) && WellFormed(n.children[i].node)
  }

  ghost predicate AllWellFormed(es: seq<Entry>) {
    forall i :: 0 <= i < |es| ==> NameOk(es[i].name) && WellFormed(es[i].node)
  }

  function Under(dir: AuthorizedPath, name: Bytes): AuthorizedPath {
    AuthorizedPath(dir.path + [SLASH] + name)
  }

  predicate OnPin(e: Env, n: Node) { n.Stat().dev == e.pin }

  // ---- The simple reading ----

  /** What one entry yields by itself: a regular file on the pin a record, a directory on the pin
      nothing yet, anything else a refusal. */
  function Own(e: Env, dir: AuthorizedPath, en: Entry): Yield {
    if !OnPin(e, en.node) then Yield([], 1, [])
    else
      match en.node.what
      case File => Yield([FileRecord(Under(dir, en.name), en.node.Stat().size, en.node.Stat().mtime)], 0, [])
      case Dir => NOTHING
      case _ => Yield([], 1, [])
  }

  function OwnAll(e: Env, dir: AuthorizedPath, es: seq<Entry>): Yield {
    if es == [] then NOTHING else Then(Own(e, dir, es[0]), OwnAll(e, dir, es[1..]))
  }

  predicate IsSubdir(e: Env, en: Entry) {
    OnPin(e, en.node) && en.node.what.Dir?
  }

  function Subdirs(e: Env, es: seq<Entry>): (ds: seq<Entry>)
    ensures forall x :: x in ds ==> x in es && IsSubdir(e, x)
  {
    if es == [] then []
    else if IsSubdir(e, es[0]) then [es[0]] + Subdirs(e, es[1..])
    else Subdirs(e, es[1..])
  }

  /** A directory's own files in listing order, then each subdirectory in order, cut at the depth asked
      for and at the fixed limit. */
  function Read(e: Env, dir: AuthorizedPath, n: Node, depth: nat): (y: Yield)
    requires depth <= MAX_WALK_DEPTH + 1
    decreases MAX_WALK_DEPTH + 1 - depth, 0, 0
  {
    if depth > MAX_WALK_DEPTH then Yield([], 0, [PathError(dir, PathDenied)])
    else if MayDescend(e, depth) then
      Then(OwnAll(e, dir, n.children), ReadAll(e, dir, Subdirs(e, n.children), depth + 1))
    else OwnAll(e, dir, n.children)
  }

  function ReadAll(e: Env, dir: AuthorizedPath, ds: seq<Entry>, depth: nat): (y: Yield)
    requires depth <= MAX_WALK_DEPTH + 1
    decreases MAX_WALK_DEPTH + 1 - depth, 1, |ds|
  {
    if ds == [] then NOTHING
    else Then(Read(e, Under(dir, ds[0].name), ds[0].node, depth), ReadAll(e, dir, ds[1..], depth))
  }

  /** Every directory the walk must name has a path the protocol can carry. */
  predicate Fits(e: Env, dir: AuthorizedPath, n: Node, depth: nat)
    requires depth <= MAX_WALK_DEPTH + 1
    decreases MAX_WALK_DEPTH + 1 - depth, 0, 0
  {
    && |dir.path| <= MAX_PATH
    && (depth <= MAX_WALK_DEPTH && MayDescend(e, depth) ==>
          FitsAll(e, dir, Subdirs(e, n.children), depth + 1))
  }

  predicate FitsAll(e: Env, dir: AuthorizedPath, ds: seq<Entry>, depth: nat)
    requires depth <= MAX_WALK_DEPTH + 1
    decreases MAX_WALK_DEPTH + 1 - depth, 1, |ds|
  {
    ds == [] || (Fits(e, Under(dir, ds[0].name), ds[0].node, depth) && FitsAll(e, dir, ds[1..], depth))
  }

  // ---- An honest device ----

  /** The tree `n` stands at `path`, and everything in it where its names say. */
  ghost predicate Placed(at: Bytes -> Option<Node>, path: Bytes, n: Node)
    decreases n
  {
    && at(path) == Some(n)
    && forall i :: 0 <= i < |n.children| ==>
         Placed(at, path + [SLASH] + n.children[i].name, n.children[i].node)
  }

  function Dirents(es: seq<Entry>): (ds: seq<Dirent>)
    ensures |ds| == |es|
  {
    if es == [] then [] else [Dirent(es[0].node.Stat(), es[0].name)] + Dirents(es[1..])
  }

  function WithoutDots(ds: seq<Dirent>): seq<Dirent> {
    if ds == [] then []
    else if ds[0].name == DOT || ds[0].name == DOTDOT then WithoutDots(ds[1..])
    else [ds[0]] + WithoutDots(ds[1..])
  }

  /** A whole listing of `es` in order, with "." and ".." wherever the device puts them. */
  predicate Lists(r: Reply, es: seq<Entry>) {
    r.whole && WithoutDots(r.entries) == Dirents(es)
  }

  /** A device that answers every command at every moment as the tree stands, refuses only a path too
      long to send, and keeps its volume root on the pin; and a caller that takes every record. */
  ghost predicate Honest(e: Env, at: Bytes -> Option<Node>) {
    && (forall rs :: e.take(rs))
    && (forall k: seq<Cmd>, p: Bytes :: at(p).Some? ==>
          && e.stat(k, LstatCmd(p)) == (if |p| > MAX_PATH then None else Some(at(p).value.Stat()))
          && (if |p| > MAX_PATH then e.list(k, ListCmd(p)) == Reply([], false)
              else Lists(e.list(k, ListCmd(p)), at(p).value.children)))
    && (forall k: seq<Cmd> :: e.stat(k, StatRootCmd).Some? && e.stat(k, StatRootCmd).value.errno == 0
                         && e.stat(k, StatRootCmd).value.dev == e.pin)
  }

  /** From `w` the walk yielded `y` and went on. */
  ghost predicate Yielded(w: Walked, w': Walked, y: Yield) {
    && w'.emitted == w.emitted + y.records
    && w'.files == w.files + |y.records|
    && w'.refused == w.refused + y.refused
    && w'.errors == w.errors + y.errors
    && w'.stopped == w.stopped
  }

  lemma YieldedThen(a: Walked, b: Walked, c: Walked, x: Yield, y: Yield)
    requires Yielded(a, b, x) && Yielded(b, c, y)
    ensures Yielded(a, c, Then(x, y))
  {
    Seqs.Assoc(a.emitted, x.records, y.records);
    Seqs.Assoc(a.errors, x.errors, y.errors);
  }

  lemma YieldedNothing(w: Walked)
    ensures Yielded(w, w, NOTHING)
  {
  }

  /** A good name under an authorised directory is always accepted. */
  lemma ChildAccepted(e: Env, dir: AuthorizedPath, name: Bytes)
    requires FormOk(dir.path) && WithinAny(dir.path, e.active) && NameOk(name)
    ensures Child(dir, name, e.active) == Some(Under(dir, name))
    ensures FormOk(Under(dir, name).path) && WithinAny(Under(dir, name).path, e.active)
  {
    ChildExtends(dir, name, e.active);
    hide FormOk, WithinAny, NameOk;
  }

  lemma EmitHonest(e: Env, w: Walked, dir: AuthorizedPath, d: Dirent)
    requires Child(dir, d.name, e.active) == Some(Under(dir, d.name))
    requires e.take(w.emitted + [FileRecord(Under(dir, d.name), d.stat.size, d.stat.mtime)])
    ensures Yielded(w, Emit(e, w, dir, d),
                    Yield([FileRecord(Under(dir, d.name), d.stat.size, d.stat.mtime)], 0, []))
  {
    hide Child, Under;
  }

  lemma ClassifyHonest(e: Env, w: Walked, dir: AuthorizedPath, en: Entry, mayDescend: bool)
    requires FormOk(dir.path) && WithinAny(dir.path, e.active) && (forall rs :: e.take(rs))
    requires NameOk(en.name) && en.node.Stat().errno == 0
    ensures
      var s := Classify(e, w, dir, Dirent(en.node.Stat(), en.name), mayDescend);
      && Yielded(w, s.w, Own(e, dir, en))
      && s.child == if IsSubdir(e, en) && mayDescend then Some(Under(dir, en.name)) else None
  {
    hide Child, FormOk, WithinAny, ParseKind, Under, Emit;
    NotDots(en.name);
    KindShows(en.node.what, en.node.perm, en.node.high);
    ChildAccepted(e, dir, en.name);
    hide NameOk, ModeOf;
    var d := Dirent(en.node.Stat(), en.name);
    if ParseKind(d.stat.mode) == Regular {
      EmitHonest(e, w, dir, d);
    }
  }

  lemma NotDots(name: Bytes)
    requires NameOk(name)
    ensures name != DOT && name != DOTDOT
  {
  }

  function Paths(dir: AuthorizedPath, ds: seq<Entry>): (ps: seq<AuthorizedPath>)
    ensures |ps| == |ds|
  {
    if ds == [] then [] else [Under(dir, ds[0].name)] + Paths(dir, ds[1..])
  }

  lemma {:induction false} LevelHonest(e: Env, w: Walked, dir: AuthorizedPath, ds: seq<Dirent>, es: seq<Entry>,
                                       mayDescend: bool, children: seq<AuthorizedPath>, offPin: bool)
    requires FormOk(dir.path) && WithinAny(dir.path, e.active) && (forall rs :: e.take(rs))
    requires AllWellFormed(es) && WithoutDots(ds) == Dirents(es) && !w.stopped
    ensures
      var l := ClassifyAll(e, w, dir, ds, mayDescend, children, offPin);
      && Yielded(w, l.w, OwnAll(e, dir, es))
      && l.children == children + if mayDescend then Paths(dir, Subdirs(e, es)) else []
    decreases |ds|
  {
    hide Classify, Own, FormOk, WithinAny, NameOk, Under, IsSubdir, Yielded;
    if ds == [] {
      YieldedNothing(w);
    } else if IsDots(ds[0]) {
      ClassifyDots(e, w, dir, ds[0], mayDescend);
      var w1 := Classify(e, w, dir, ds[0], mayDescend).w;
      StillRunning(w, w1, NOTHING);
      LevelHonest(e, w1, dir, ds[1..], es, mayDescend, children, offPin);
      YieldedThen(w, w1, ClassifyAll(e, w1, dir, ds[1..], mayDescend, children, offPin).w,
                  NOTHING, OwnAll(e, dir, es));
      ThenNothing(OwnAll(e, dir, es));
    } else {
      HeadOfListing(ds, es);
      ClassifyHonest(e, w, dir, es[0], mayDescend);
      var s := Classify(e, w, dir, ds[0], mayDescend);
      var cs := Adding(children, s.child);
      StillRunning(w, s.w, Own(e, dir, es[0]));
      LevelHonest(e, s.w, dir, ds[1..], es[1..], mayDescend, cs, offPin || s.offPin);
      var l := ClassifyAll(e, s.w, dir, ds[1..], mayDescend, cs, offPin || s.offPin);
      YieldedThen(w, s.w, l.w, Own(e, dir, es[0]), OwnAll(e, dir, es[1..]));
      if mayDescend && IsSubdir(e, es[0]) {
        Seqs.Assoc(children, [Under(dir, es[0].name)], Paths(dir, Subdirs(e, es[1..])));
      }
    }
  }

  lemma ClassifyDots(e: Env, w: Walked, dir: AuthorizedPath, d: Dirent, mayDescend: bool)
    requires IsDots(d)
    ensures Yielded(w, Classify(e, w, dir, d, mayDescend).w, NOTHING)
    ensures Classify(e, w, dir, d, mayDescend).child == None
    ensures !Classify(e, w, dir, d, mayDescend).offPin
  {
  }

  lemma HeadOfListing(ds: seq<Dirent>, es: seq<Entry>)
    requires ds != [] && !IsDots(ds[0]) && WithoutDots(ds) == Dirents(es)
    ensures es != [] && ds[0] == Dirent(es[0].node.Stat(), es[0].name)
    ensures WithoutDots(ds[1..]) == Dirents(es[1..])
  {
    assert |WithoutDots(ds)| > 0;
    assert WithoutDots(ds)[0] == ds[0] && WithoutDots(ds)[1..] == WithoutDots(ds[1..]);
    assert Dirents(es)[1..] == Dirents(es[1..]);
  }

  lemma StillRunning(w: Walked, w': Walked, y: Yield)
    requires Yielded(w, w', y)
    ensures w'.stopped == w.stopped
  {
  }

  lemma RecheckHonest(e: Env, at: Bytes -> Option<Node>, w: Walked)
    requires Honest(e, at)
    ensures Recheck(e, w).1.None? && Yielded(w, Recheck(e, w).0, NOTHING)
  {
  }

  /** What the walk of one directory comes to on an honest device. */
  ghost predicate Faithful(w: Walked, o: Outcome, fits: bool, y: Yield) {
    if fits then o.1.None? && Yielded(w, o.0, y) else o.1 == Some(Coded(Disconnected))
  }

  lemma PlacedAnswers(e: Env, at: Bytes -> Option<Node>, path: Bytes, n: Node, k: seq<Cmd>)
    requires Honest(e, at) && Placed(at, path, n)
    ensures e.stat(k, LstatCmd(path)) == if |path| > MAX_PATH then None else Some(n.Stat())
    ensures if |path| > MAX_PATH then e.list(k, ListCmd(path)) == Reply([], false)
            else Lists(e.list(k, ListCmd(path)), n.children)
  {
  }

  lemma {:induction false} WalkDirReads(e: Env, at: Bytes -> Option<Node>, w: Walked,
                                        dir: AuthorizedPath, n: Node, depth: nat)
    requires 1 <= depth <= MAX_WALK_DEPTH + 1 && Honest(e, at) && Placed(at, dir.path, n)
    requires WellFormed(n) && FormOk(dir.path) && WithinAny(dir.path, e.active) && !w.stopped
    requires |dir.path| <= MAX_PATH || depth <= MAX_WALK_DEPTH
    ensures Faithful(w, WalkDir(e, w, dir, depth), Fits(e, dir, n, depth), Read(e, dir, n, depth))
    decreases MAX_WALK_DEPTH + 1 - depth, 1, 0
  {
    hide Classify, ClassifyAll, Recheck, Descend, DescendAll, FormOk, WithinAny, OwnAll, FitsAll,
         ReadAll, Honest, Placed, Lists, WellFormed, Subdirs;
    if depth <= MAX_WALK_DEPTH {
      var c := ListCmd(dir.path);
      PlacedAnswers(e, at, dir.path, n, w.cmds);
      var w1 := Issue(w, c);
      var reply := e.list(w.cmds, c);
      if |dir.path| <= MAX_PATH {
        ListedHonest(e, at, w1, dir, n, reply, depth);
        var l := ClassifyAll(e, w1, dir, reply.entries, MayDescend(e, depth), [], false);
        var r := if l.offPin then Recheck(e, l.w) else (l.w, None);
        StillRunning(w1, l.w, OwnAll(e, dir, n.children));
        AfterListing(e, at, w, r.0, dir, n, depth);
      } else {
        NoEntries(e, w1, dir, MayDescend(e, depth));
      }
    }
  }

  /** One listing and the re-check after it. */
  lemma ListedHonest(e: Env, at: Bytes -> Option<Node>, w1: Walked, dir: AuthorizedPath, n: Node,
                     reply: Reply, depth: nat)
    requires Honest(e, at) && WellFormed(n) && !w1.stopped && Lists(reply, n.children)
    requires FormOk(dir.path) && WithinAny(dir.path, e.active)
    ensures reply.whole
    ensures
      var l := ClassifyAll(e, w1, dir, reply.entries, MayDescend(e, depth), [], false);
      var r := if l.offPin then Recheck(e, l.w) else (l.w, None);
      && Yielded(w1, l.w, OwnAll(e, dir, n.children))
      && l.children == (if MayDescend(e, depth) then Paths(dir, Subdirs(e, n.children)) else [])
      && r.1.None? && Yielded(w1, r.0, OwnAll(e, dir, n.children))
  {
    hide ClassifyAll, Recheck, OwnAll, Subdirs, FormOk, WithinAny, Honest, MayDescend, WellFormed, Yielded;
    HonestTakes(e, at);
    ChildrenWellFormed(n);
    LevelHonest(e, w1, dir, reply.entries, n.children, MayDescend(e, depth), [], false);
    var l := ClassifyAll(e, w1, dir, reply.entries, MayDescend(e, depth), [], false);
    RecheckHonest(e, at, l.w);
    var own := OwnAll(e, dir, n.children);
    if l.offPin { YieldedThen(w1, l.w, Recheck(e, l.w).0, own, NOTHING); }
    ThenNothing(own);
  }

  lemma ChildrenWellFormed(n: Node)
    requires WellFormed(n)
    ensures AllWellFormed(n.children)
  {
  }

  /** What comes after a directory's own entries. */
  lemma {:induction false} AfterListing(e: Env, at: Bytes -> Option<Node>, w: Walked, w': Walked,
                                        dir: AuthorizedPath, n: Node, depth: nat)
    requires 1 <= depth <= MAX_WALK_DEPTH && Honest(e, at) && Placed(at, dir.path, n)
    requires WellFormed(n) && FormOk(dir.path) && WithinAny(dir.path, e.active)
    requires |dir.path| <= MAX_PATH && !w'.stopped && Yielded(w, w', OwnAll(e, dir, n.children))
    ensures
      var cs := if MayDescend(e, depth) then Paths(dir, Subdirs(e, n.children)) else [];
      Faithful(w, DescendAll(e, w', cs, depth + 1), Fits(e, dir, n, depth), Read(e, dir, n, depth))
    decreases MAX_WALK_DEPTH + 1 - depth, 0, 0
  {
    hide Descend, DescendAll, FormOk, WithinAny, OwnAll, FitsAll, ReadAll, Honest, Placed, WellFormed,
         Subdirs, Paths;
    var ds := Subdirs(e, n.children);
    if MayDescend(e, depth) {
      SubdirsPlaced(e, at, dir, n);
      SubdirsWellFormed(e, n);
      DescendAllReads(e, at, w', dir, ds, depth + 1);
      var o := DescendAll(e, w', Paths(dir, ds), depth + 1);
      if FitsAll(e, dir, ds, depth + 1) {
        YieldedThen(w, w', o.0, OwnAll(e, dir, n.children), ReadAll(e, dir, ds, depth + 1));
      }
    } else {
      NoChildren(e, w', depth + 1);
    }
  }

  lemma HonestTakes(e: Env, at: Bytes -> Option<Node>)
    requires Honest(e, at)
    ensures forall rs :: e.take(rs)
  {
  }

  lemma NoEntries(e: Env, w: Walked, dir: AuthorizedPath, mayDescend: bool)
    ensures ClassifyAll(e, w, dir, [], mayDescend, [], false) == Level(w, [], false)
  {
  }

  lemma NoChildren(e: Env, w: Walked, depth: nat)
    requires depth <= MAX_WALK_DEPTH + 1
    ensures DescendAll(e, w, [], depth) == (w, None)
  {
  }

  ghost predicate AllPlaced(at: Bytes -> Option<Node>, dir: AuthorizedPath, ds: seq<Entry>) {
    forall i :: 0 <= i < |ds| ==> Placed(at, Under(dir, ds[i].name).path, ds[i].node)
  }

  lemma SubdirsPlaced(e: Env, at: Bytes -> Option<Node>, dir: AuthorizedPath, n: Node)
    requires Placed(at, dir.path, n)
    ensures AllPlaced(at, dir, Subdirs(e, n.children))
  {
    hide IsSubdir;
    var ds := Subdirs(e, n.children);
    forall i | 0 <= i < |ds| ensures Placed(at, Under(dir, ds[i].name).path, ds[i].node) {
      assert ds[i] in n.children;
      var j :| 0 <= j < |n.children| && n.children[j] == ds[i];
    }
  }

  lemma SubdirsWellFormed(e: Env, n: Node)
    requires WellFormed(n)
    ensures AllWellFormed(Subdirs(e, n.children)) && AllWellFormed(n.children)
  {
    hide IsSubdir, NameOk;
    var ds := Subdirs(e, n.children);
    forall i | 0 <= i < |ds| ensures NameOk(ds[i].name) && WellFormed(ds[i].node) {
      assert ds[i] in n.children;
    }
  }

  lemma {:induction false} DescendAllReads(e: Env, at: Bytes -> Option<Node>, w: Walked,
                                           dir: AuthorizedPath, ds: seq<Entry>, depth: nat)
    requires 1 <= depth <= MAX_WALK_DEPTH + 1 && Honest(e, at) && AllPlaced(at, dir, ds)
    requires AllWellFormed(ds) && (forall i :: 0 <= i < |ds| ==> IsSubdir(e, ds[i]))
    requires FormOk(dir.path) && WithinAny(dir.path, e.active) && !w.stopped
    ensures Faithful(w, DescendAll(e, w, Paths(dir, ds), depth), FitsAll(e, dir, ds, depth),
                     ReadAll(e, dir, ds, depth))
    decreases MAX_WALK_DEPTH + 1 - depth, 3, |ds|
  {
    hide Descend, FormOk, WithinAny, Honest, Placed, Fits, Read, Under, WellFormed, NameOk, IsSubdir;
    if ds == [] {
      YieldedNothing(w);
    } else {
      var d := ds[0];
      ChildAccepted(e, dir, d.name);
      DescendReads(e, at, w, Under(dir, d.name), d, depth);
      var r := Descend(e, w, Under(dir, d.name), depth);
      if r.1.None? {
        DescendAllReads(e, at, r.0, dir, ds[1..], depth);
        if FitsAll(e, dir, ds[1..], depth) {
          YieldedThen(w, r.0, DescendAll(e, r.0, Paths(dir, ds[1..]), depth).0,
                      Read(e, Under(dir, d.name), d.node, depth), ReadAll(e, dir, ds[1..], depth));
        }
      }
    }
  }

  lemma {:induction false} DescendReads(e: Env, at: Bytes -> Option<Node>, w: Walked,
                                        child: AuthorizedPath, d: Entry, depth: nat)
    requires 1 <= depth <= MAX_WALK_DEPTH + 1 && Honest(e, at) && Placed(at, child.path, d.node)
    requires WellFormed(d.node) && IsSubdir(e, d) && !w.stopped
    requires FormOk(child.path) && WithinAny(child.path, e.active)
    ensures Faithful(w, Descend(e, w, child, depth), Fits(e, child, d.node, depth),
                     Read(e, child, d.node, depth))
    decreases MAX_WALK_DEPTH + 1 - depth, 2, 0
  {
    hide Recheck, WalkDir, ParseKind, CodeForErrno, FormOk, WithinAny, Honest, Placed, Read;
    var c := LstatCmd(child.path);
    KindShows(d.node.what, d.node.perm, d.node.high);
    PlacedAnswers(e, at, child.path, d.node, w.cmds);
    if |child.path| <= MAX_PATH {
      var w1 := Issue(w, c);
      WalkDirReads(e, at, w1, child, d.node, depth);
    }
  }

  /** On a static, readable tree whose root passes its checks, the walk ends well exactly when every
      directory it must name has a path the protocol can carry, and then it yields exactly the
      simple reading of the tree. */
  lemma WalkReadsTree(e: Env, at: Bytes -> Option<Node>, root: AuthorizedPath, n: Node)
    requires Honest(e, at) && Placed(at, root.path, n) && WellFormed(n)
    requires FormOk(root.path) && WithinAny(root.path, e.active)
    requires OnPin(e, n) && n.what.Dir?
    ensures
      var (w, failure) := WalkRoot(e, root);
      var y := Read(e, root, n, 1);
      && (failure.None? <==> Fits(e, root, n, 1))
      && (failure.Some? ==> failure == Some(Coded(Disconnected)))
      && (failure.None? ==> w.emitted == y.records && w.files == |y.records|
                            && w.refused == y.refused && w.errors == y.errors)
  {
    hide WalkDir, ParseKind, CodeForErrno, FormOk, WithinAny, Honest, Placed, Read;
    var c := LstatCmd(root.path);
    KindShows(n.what, n.perm, n.high);
    PlacedAnswers(e, at, root.path, n, []);
    WalkDirReads(e, at, Issue(START, c), root, n, 1);
  }
}
