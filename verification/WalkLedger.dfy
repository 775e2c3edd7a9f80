/** What every walk reports, told from the commands it put and the answers it got. */
module WalkLedger {
  import opened ByteStrings
  import opened Options
  import opened DevicePath
  import opened SyncWire
  import opened WalkSpec
  import Seqs

  // ---- What the answers say ----

  function Slashes(p: Bytes): (n: nat) {
    if p == [] then 0 else Slashes(p[..|p| - 1]) + if p[|p| - 1] == SLASH then 1 else 0
  }

  /** How far below `root` the entries of `dir` are: 1 for the root's own. */
  function DepthOf(root: AuthorizedPath, dir: Bytes): int {
    Slashes(dir) - Slashes(root.path) + 1
  }

  predicate MayDescendFrom(e: Env, root: AuthorizedPath, dir: Bytes) {
    e.maxDepth == 0 || DepthOf(root, dir) < e.maxDepth
  }

  /** What a path is reported for when the device answers an error number: absent for 2, forbidden for 13. */
  function ReasonFor(errno: uint32): Code {
    match errno case 2 => PathNotFound case 13 => PermissionDenied case _ => TransferFailed
  }

  /** What one listed entry adds: a dot name nothing; an unreadable entry an error; one off the pin, or
      neither a file nor a directory, a refusal; a file its record; and a name that is refused an
      error against its parent. */
  function EntryYield(e: Env, dir: AuthorizedPath, d: Dirent, mayDescend: bool): (y: Yield) {
    var child := Child(dir, d.name, e.active);
    if IsDots(d) then NOTHING
    else if d.stat.errno != 0 then
      Yield([], 0, [if child.None? then PathError(dir, PathDenied)
                    else PathError(child.value, ReasonFor(d.stat.errno))])
    else
      var kind := ParseKind(d.stat.mode);
      if d.stat.dev != e.pin || (kind != Regular && kind != Directory) then Yield([], 1, [])
      else if kind == Directory && !mayDescend then NOTHING
      else if child.None? then Yield([], 0, [PathError(dir, PathDenied)])
      else if kind == Directory then NOTHING
      else Yield([FileRecord(child.value, d.stat.size, d.stat.mtime)], 0, [])
  }

  /** The directory an entry leads down to, if it does. */
  function EntryBelow(e: Env, dir: AuthorizedPath, d: Dirent, mayDescend: bool): (p: Option<AuthorizedPath>) {
    if !IsDots(d) && d.stat.errno == 0 && d.stat.dev == e.pin && ParseKind(d.stat.mode) == Directory && mayDescend
    then Child(dir, d.name, e.active)
    else None
  }

  predicate EntryOffPin(e: Env, d: Dirent) {
    !IsDots(d) && d.stat.errno == 0 && d.stat.dev != e.pin
  }

  function ListYield(e: Env, dir: AuthorizedPath, ds: seq<Dirent>, mayDescend: bool): (y: Yield)
    decreases |ds|
  {
    if ds == [] then NOTHING
    else Then(EntryYield(e, dir, ds[0], mayDescend), ListYield(e, dir, ds[1..], mayDescend))
  }

  function ListBelow(e: Env, dir: AuthorizedPath, ds: seq<Dirent>, mayDescend: bool): (ps: seq<AuthorizedPath>)
    decreases |ds|
  {
    if ds == [] then []
    else Adding([], EntryBelow(e, dir, ds[0], mayDescend)) + ListBelow(e, dir, ds[1..], mayDescend)
  }

  predicate ListOffPin(e: Env, ds: seq<Dirent>) {
    exists j :: 0 <= j < |ds| && EntryOffPin(e, ds[j])
  }

  /** The stat of a directory on the pin. */
  predicate DirOnPin(e: Env, st: Option<Stat>) {
    st.Some? && st.value.errno == 0 && st.value.dev == e.pin && ParseKind(st.value.mode) == Directory
  }

  /** What the answer to one command adds, given the commands before it: a listing what its entries add,
      a stat of a subdirectory an error or a refusal unless it is a directory on the pin within the
      fixed limit. */
  function CommandYield(e: Env, root: AuthorizedPath, before: seq<Cmd>, c: Cmd): (y: Yield) {
    match c
    case ListCmd(p) =>
      ListYield(e, AuthorizedPath(p), e.list(before, c).entries, MayDescendFrom(e, root, p))
    case LstatCmd(p) =>
      var st := e.stat(before, c);
      if before == [] || st.None? then NOTHING
      else if st.value.errno != 0 then
        Yield([], 0, [PathError(AuthorizedPath(p), ReasonFor(st.value.errno))])
      else if !DirOnPin(e, st) then Yield([], 1, [])
      else if DepthOf(root, p) > 128 then Yield([], 0, [PathError(AuthorizedPath(p), PathDenied)])
      else NOTHING
    case StatRootCmd => NOTHING
  }

  /** What all the answers together add, in order. */
  function RunYield(e: Env, root: AuthorizedPath, cmds: seq<Cmd>): (y: Yield)
    decreases |cmds|
  {
    if cmds == [] then NOTHING
    else
      var front, c := cmds[..|cmds| - 1], cmds[|cmds| - 1];
      Then(RunYield(e, root, front), CommandYield(e, root, front, c))
  }

  /** The directories accepted for descent, and the subdirectories stated again. */
  function Accepted(e: Env, root: AuthorizedPath, cmds: seq<Cmd>): (m: multiset<AuthorizedPath>)
    decreases |cmds|
  {
    if cmds == [] then multiset{}
    else
      var front, c := cmds[..|cmds| - 1], cmds[|cmds| - 1];
      Accepted(e, root, front) + multiset(CommandBelow(e, root, front, c))
  }

  function CommandBelow(e: Env, root: AuthorizedPath, before: seq<Cmd>, c: Cmd): (ps: seq<AuthorizedPath>) {
    if c.ListCmd? then
      ListBelow(e, AuthorizedPath(c.path), e.list(before, c).entries, MayDescendFrom(e, root, c.path))
    else []
  }

  function Restated(cmds: seq<Cmd>): (m: multiset<AuthorizedPath>)
    decreases |cmds|
  {
    if |cmds| <= 1 then multiset{}
    else
      var c := cmds[|cmds| - 1];
      Restated(cmds[..|cmds| - 1]) + if c.LstatCmd? then multiset{AuthorizedPath(c.path)} else multiset{}
  }

  /** How many directories were stated good to open, and how many were listed. */
  function Openings(e: Env, root: AuthorizedPath, cmds: seq<Cmd>): (n: nat)
    decreases |cmds|
  {
    if cmds == [] then 0
    else
      var front, c := cmds[..|cmds| - 1], cmds[|cmds| - 1];
      Openings(e, root, front) + if Opens(e, root, front, c) then 1 else 0
  }

  predicate Opens(e: Env, root: AuthorizedPath, before: seq<Cmd>, c: Cmd) {
    c.LstatCmd? && DirOnPin(e, e.stat(before, c)) && DepthOf(root, c.path) <= MAX_WALK_DEPTH
  }

  function Listings(cmds: seq<Cmd>): (n: nat)
    decreases |cmds|
  {
    if cmds == [] then 0
    else Listings(cmds[..|cmds| - 1]) + if cmds[|cmds| - 1].ListCmd? then 1 else 0
  }

  // ---- The volume re-check ----

  function RootStats(cmds: seq<Cmd>): (n: nat)
    decreases |cmds|
  {
    if cmds == [] then 0
    else RootStats(cmds[..|cmds| - 1]) + if cmds[|cmds| - 1].StatRootCmd? then 1 else 0
  }

  /** The answer to a command shows something off the pin. */
  predicate OffPin(e: Env, before: seq<Cmd>, c: Cmd) {
    match c
    case ListCmd(_) => ListOffPin(e, e.list(before, c).entries)
    case LstatCmd(_) =>
      var st := e.stat(before, c);
      before != [] && st.Some? && st.value.errno == 0 && st.value.dev != e.pin
    case StatRootCmd => false
  }

  ghost predicate MetOffPin(e: Env, cmds: seq<Cmd>) {
    exists k :: 0 <= k < |cmds| && OffPin(e, cmds[..k], cmds[k])
  }

  /** The volume root was found still on the pin. */
  predicate Holds(e: Env, before: seq<Cmd>) {
    var st := e.stat(before, StatRootCmd);
    st.Some? && st.value.errno == 0 && st.value.dev == e.pin
  }

  ghost predicate RootsHold(e: Env, cmds: seq<Cmd>) {
    forall k :: 0 <= k < |cmds| && cmds[k].StatRootCmd? ==> Holds(e, cmds[..k])
  }

  // ---- The ledger of a walk ----

  function YieldOf(w: Walked): Yield { Yield(w.emitted, w.refused, w.errors) }

  /** The summary is what the answers add, but for `late`, and every directory stated good to open was
      listed, but for `open` of them. */
  ghost predicate Tells(e: Env, root: AuthorizedPath, w: Walked, late: Yield, open: nat) {
    && !w.stopped && w.files == |w.emitted|
    && Then(YieldOf(w), late) == RunYield(e, root, w.cmds)
    && Listings(w.cmds) + open == Openings(e, root, w.cmds)
  }

  /** The caller stopped the walk at entry `j` of its last listing, a record it did not take; the
      summary is what the answers before that entry add. */
  ghost predicate StoppedAt(e: Env, root: AuthorizedPath, w: Walked, j: nat) {
    && w.stopped && w.files == |w.emitted|
    && w.cmds != [] && w.cmds[|w.cmds| - 1].ListCmd?
    && var before, c := w.cmds[..|w.cmds| - 1], w.cmds[|w.cmds| - 1];
       var dir, ds, may := AuthorizedPath(c.path), e.list(before, c).entries, MayDescendFrom(e, root, c.path);
       && j < |ds| && YieldOf(w) == Then(RunYield(e, root, before), ListYield(e, dir, ds[..j], may))
       && Untaken(e, w, EntryYield(e, dir, ds[j], may))
  }

  ghost predicate Untaken(e: Env, w: Walked, y: Yield) {
    |y.records| == 1 && !e.take(w.emitted + y.records)
  }

  /** The re-check so far: one for all that was off the pin, and it held. */
  ghost predicate Checked(e: Env, w: Walked) {
    && RootStats(w.cmds) == (if w.rechecked then 1 else 0) && RootsHold(e, w.cmds)
    && (w.rechecked <==> MetOffPin(e, w.cmds))
  }

  /** From `w` on, with `owed` directories accepted and not yet stated again, all of them were. */
  ghost predicate Settles(e: Env, root: AuthorizedPath, before: seq<Cmd>, after: seq<Cmd>,
                          owed: multiset<AuthorizedPath>)
  {
    Accepted(e, root, after) + Restated(before) + owed == Restated(after) + Accepted(e, root, before)
  }

  ghost predicate Keeps(e: Env, root: AuthorizedPath, before: seq<Cmd>, o: Outcome, owed: multiset<AuthorizedPath>) {
    && (o.0.stopped <==> o.1 == Some(CallerStopped))
    && (o.0.stopped ==> exists j: nat :: StoppedAt(e, root, o.0, j))
    && (!o.0.stopped ==> Tells(e, root, o.0, NOTHING, 0))
    && RootStats(o.0.cmds) <= 1
    && (RootsHold(e, o.0.cmds) || o.1 == Some(Coded(VolumeUnresolved)))
    && (o.1.None? ==> Checked(e, o.0) && Settles(e, root, before, o.0.cmds, owed))
  }

  // ---- One more command ----

  lemma Front(cmds: seq<Cmd>, c: Cmd)
    ensures (cmds + [c])[..|cmds|] == cmds && (cmds + [c])[|cmds|] == c
  {
  }

  lemma OneMore(e: Env, root: AuthorizedPath, cmds: seq<Cmd>, c: Cmd)
    ensures
      var more := cmds + [c];
      && RunYield(e, root, more) == Then(RunYield(e, root, cmds), CommandYield(e, root, cmds, c))
      && Accepted(e, root, more) == Accepted(e, root, cmds) + multiset(CommandBelow(e, root, cmds, c))
      && (cmds != [] ==>
            Restated(more) == Restated(cmds) + if c.LstatCmd? then multiset{AuthorizedPath(c.path)} else multiset{})
      && Openings(e, root, more) == Openings(e, root, cmds) + (if Opens(e, root, cmds, c) then 1 else 0)
      && Listings(more) == Listings(cmds) + (if c.ListCmd? then 1 else 0)
      && RootStats(more) == RootStats(cmds) + if c.StatRootCmd? then 1 else 0
  {
    hide CommandYield, CommandBelow, Opens, Then;
    Front(cmds, c);
  }

  lemma OneMoreMet(e: Env, cmds: seq<Cmd>, c: Cmd)
    ensures MetOffPin(e, cmds + [c]) <==> MetOffPin(e, cmds) || OffPin(e, cmds, c)
    ensures RootsHold(e, cmds + [c]) <==> RootsHold(e, cmds) && (c.StatRootCmd? ==> Holds(e, cmds))
  {
    hide OffPin, Holds;
    var more := cmds + [c];
    Front(cmds, c);
    assert forall k :: 0 <= k < |cmds| ==> more[..k] == cmds[..k] && more[k] == cmds[k];
    if MetOffPin(e, cmds) {
      var k :| 0 <= k < |cmds| && OffPin(e, cmds[..k], cmds[k]);
      assert OffPin(e, more[..k], more[k]);
    }
    if OffPin(e, cmds, c) { assert OffPin(e, more[..|cmds|], more[|cmds|]); }
    if RootsHold(e, more) {
      forall k | 0 <= k < |cmds| && cmds[k].StatRootCmd? ensures Holds(e, cmds[..k]) {
        assert Holds(e, more[..k]);
      }
    }
  }

  lemma {:induction false} SlashesJoin(a: Bytes, b: Bytes)
    ensures Slashes(a + b) == Slashes(a) + Slashes(b)
    decreases |b|
  {
    if b == [] {
      assert a + b == a;
    } else {
      assert (a + b)[..|a + b| - 1] == a + b[..|b| - 1];
      SlashesJoin(a, b[..|b| - 1]);
    }
  }

  lemma {:induction false} NoSlashes(name: Bytes)
    requires SLASH !in name
    ensures Slashes(name) == 0
  {
    if name != [] { NoSlashes(name[..|name| - 1]); }
  }

  lemma ChildIsDeeper(e: Env, root: AuthorizedPath, dir: AuthorizedPath, name: Bytes)
    requires Child(dir, name, e.active).Some?
    ensures DepthOf(root, Child(dir, name, e.active).value.path) == DepthOf(root, dir.path) + 1
  {
    hide FormOk, WithinAny;
    SlashesJoin(dir.path + [SLASH], name);
    SlashesJoin(dir.path, [SLASH]);
    assert Slashes([SLASH]) == 1 by { assert [SLASH][..0] == []; }
    NoSlashes(name);
  }

  // ---- One listing ----

  lemma ReasonIsCode(errno: uint32)
    ensures ReasonFor(errno) == CodeForErrno(errno, PathNotFound, TransferFailed)
  {
  }

  lemma EmitTells(e: Env, w: Walked, dir: AuthorizedPath, d: Dirent, may: bool)
    requires !IsDots(d) && d.stat.errno == 0 && d.stat.dev == e.pin && ParseKind(d.stat.mode) == Regular
    requires !w.stopped && w.files == |w.emitted|
    ensures
      var w' := Emit(e, w, dir, d);
      var y := EntryYield(e, dir, d, may);
      && w'.cmds == w.cmds && w'.rechecked == w.rechecked && w'.files == |w'.emitted|
      && if w'.stopped then YieldOf(w') == YieldOf(w) && Untaken(e, w', y) else YieldOf(w') == Then(YieldOf(w), y)
  {
    hide Child, ParseKind;
  }

  lemma ClassifyTells(e: Env, w: Walked, dir: AuthorizedPath, d: Dirent, may: bool)
    requires !w.stopped && w.files == |w.emitted|
    ensures
      var s := Classify(e, w, dir, d, may);
      var y := EntryYield(e, dir, d, may);
      && s.w.cmds == w.cmds && s.w.rechecked == w.rechecked && s.w.files == |s.w.emitted|
      && s.child == EntryBelow(e, dir, d, may) && s.offPin == EntryOffPin(e, d)
      && if s.w.stopped then YieldOf(s.w) == YieldOf(w) && Untaken(e, s.w, y)
         else YieldOf(s.w) == Then(YieldOf(w), y)
  {
    ReasonIsCode(d.stat.errno);
    hide Child, ParseKind, Emit, CodeForErrno, ReasonFor, IsDots, Untaken;
    if !IsDots(d) && d.stat.errno == 0 && d.stat.dev == e.pin && ParseKind(d.stat.mode) == Regular {
      EmitTells(e, w, dir, d, may);
    }
  }

  /** A whole listing adds what its entries add; one the caller stopped, what those before the stop do. */
  lemma {:induction false} LevelTells(e: Env, w: Walked, dir: AuthorizedPath, ds: seq<Dirent>, may: bool,
                                      children: seq<AuthorizedPath>, offPin: bool)
    returns (j: nat)
    requires !w.stopped && w.files == |w.emitted|
    ensures
      var l := ClassifyAll(e, w, dir, ds, may, children, offPin);
      && l.w.cmds == w.cmds && l.w.rechecked == w.rechecked && l.w.files == |l.w.emitted|
      && (!l.w.stopped ==> YieldOf(l.w) == Then(YieldOf(w), ListYield(e, dir, ds, may))
                           && l.children == children + ListBelow(e, dir, ds, may)
                           && l.offPin == (offPin || ListOffPin(e, ds)))
      && (l.w.stopped ==> j < |ds| && YieldOf(l.w) == Then(YieldOf(w), ListYield(e, dir, ds[..j], may))
                          && Untaken(e, l.w, EntryYield(e, dir, ds[j], may)))
    decreases |ds|
  {
    hide Classify, EntryYield, EntryBelow, EntryOffPin, Then, YieldOf, Untaken;
    j := 0;
    if ds == [] {
      ThenNothing(YieldOf(w));
      Seqs.TakeAll(children);
    } else {
      var d := ds[0];
      ClassifyTells(e, w, dir, d, may);
      var s := Classify(e, w, dir, d, may);
      var y := EntryYield(e, dir, d, may);
      if s.w.stopped {
        ThenNothing(YieldOf(w));
        assert ds[..0] == [];
      } else {
        var i := LevelTells(e, s.w, dir, ds[1..], may, Adding(children, s.child), offPin || s.offPin);
        j := i + 1;
        ThenAssoc(YieldOf(w), y, ListYield(e, dir, ds[1..], may));
        AddingFirst(children, s.child, ListBelow(e, dir, ds[1..], may));
        OffPinFirst(e, ds);
        var l := ClassifyAll(e, s.w, dir, ds[1..], may, Adding(children, s.child), offPin || s.offPin);
        if l.w.stopped {
          ThenAssoc(YieldOf(w), y, ListYield(e, dir, ds[1..][..i], may));
          assert ds[..j][1..] == ds[1..][..i] && ds[..j][0] == d;
        }
      }
    }
  }

  lemma AddingFirst(children: seq<AuthorizedPath>, child: Option<AuthorizedPath>, rest: seq<AuthorizedPath>)
    ensures Adding(children, child) + rest == children + (Adding([], child) + rest)
  {
  }

  lemma OffPinFirst(e: Env, ds: seq<Dirent>)
    requires ds != []
    ensures ListOffPin(e, ds) <==> EntryOffPin(e, ds[0]) || ListOffPin(e, ds[1..])
  {
    hide EntryOffPin;
    if j :| 0 <= j < |ds[1..]| && EntryOffPin(e, ds[1..][j]) { assert EntryOffPin(e, ds[j + 1]); }
    if j :| 0 <= j < |ds| && EntryOffPin(e, ds[j]) {
      if j > 0 { assert EntryOffPin(e, ds[1..][j - 1]); }
    }
  }

  ghost predicate AllAt(root: AuthorizedPath, ps: seq<AuthorizedPath>, depth: int) {
    forall i :: 0 <= i < |ps| ==> DepthOf(root, ps[i].path) == depth
  }

  lemma {:induction false} BelowIsDeeper(e: Env, root: AuthorizedPath, dir: AuthorizedPath, ds: seq<Dirent>, may: bool)
    ensures AllAt(root, ListBelow(e, dir, ds, may), DepthOf(root, dir.path) + 1)
    decreases |ds|
  {
    hide DepthOf, Child, ParseKind;
    if ds != [] {
      BelowIsDeeper(e, root, dir, ds[1..], may);
      if EntryBelow(e, dir, ds[0], may).Some? { ChildIsDeeper(e, root, dir, ds[0].name); }
    }
  }

  // ---- The whole walk ----

  lemma RecheckKeeps(e: Env, root: AuthorizedPath, before: seq<Cmd>, w: Walked, owed: multiset<AuthorizedPath>)
    requires Tells(e, root, w, NOTHING, 0) && w.cmds != [] && RootsHold(e, w.cmds) && MetOffPin(e, w.cmds)
    requires RootStats(w.cmds) == (if w.rechecked then 1 else 0)
    requires Settles(e, root, before, w.cmds, owed)
    ensures Keeps(e, root, before, Recheck(e, w), owed)
    ensures Recheck(e, w).0.cmds != []
  {
    hide RunYield, Accepted, Restated, Openings, Listings, RootStats, MetOffPin, RootsHold, Then;
    OneMore(e, root, w.cmds, StatRootCmd);
    OneMoreMet(e, w.cmds, StatRootCmd);
    ThenNothing(RunYield(e, root, w.cmds));
    assert Accepted(e, root, w.cmds + [StatRootCmd]) == Accepted(e, root, w.cmds);
    assert Restated(w.cmds + [StatRootCmd]) == Restated(w.cmds);
  }

  /** A listing just ended, whole or not. */
  lemma ListTells(e: Env, root: AuthorizedPath, w: Walked, dir: AuthorizedPath)
    returns (j: nat)
    requires Tells(e, root, w, NOTHING, 1) && w.cmds != [] && Checked(e, w)
    ensures
      var c := ListCmd(dir.path);
      var ds, may := e.list(w.cmds, c).entries, MayDescendFrom(e, root, dir.path);
      var l := ClassifyAll(e, Issue(w, c), dir, ds, may, [], false);
      && l.w.cmds == w.cmds + [c] && l.w.rechecked == w.rechecked
      && RootStats(l.w.cmds) == RootStats(w.cmds) && RootsHold(e, l.w.cmds)
      && (l.w.stopped ==> StoppedAt(e, root, l.w, j))
      && (!l.w.stopped ==>
            && Tells(e, root, l.w, NOTHING, 0) && l.children == ListBelow(e, dir, ds, may)
            && (MetOffPin(e, l.w.cmds) <==> w.rechecked || l.offPin)
            && Accepted(e, root, l.w.cmds) == Accepted(e, root, w.cmds) + multiset(l.children)
            && Restated(l.w.cmds) == Restated(w.cmds))
  {
    hide ClassifyAll, ListYield, ListBelow, ListOffPin, RunYield, Accepted, Restated, Openings, Listings, RootStats,
         MetOffPin, RootsHold, Then, Untaken, MayDescendFrom;
    var c := ListCmd(dir.path);
    assert AuthorizedPath(dir.path) == dir;
    Front(w.cmds, c);
    OneMore(e, root, w.cmds, c);
    OneMoreMet(e, w.cmds, c);
    j := LevelTells(e, Issue(w, c), dir, e.list(w.cmds, c).entries, MayDescendFrom(e, root, dir.path), [], false);
    ThenNothing(YieldOf(w));
    var l := ClassifyAll(e, Issue(w, c), dir, e.list(w.cmds, c).entries, MayDescendFrom(e, root, dir.path), [], false);
    ThenNothing(YieldOf(l.w));
    Seqs.TakeAll(ListBelow(e, dir, e.list(w.cmds, c).entries, MayDescendFrom(e, root, dir.path)));
  }

  lemma Chained(e: Env, root: AuthorizedPath, a: seq<Cmd>, b: seq<Cmd>, c: seq<Cmd>,
                first: multiset<AuthorizedPath>, second: multiset<AuthorizedPath>)
    requires Settles(e, root, a, b, first) && Settles(e, root, b, c, second)
    ensures Settles(e, root, a, c, first + second)
  {
    hide Accepted, Restated;
    var left := Accepted(e, root, c) + Restated(a) + (first + second);
    var right := Restated(c) + Accepted(e, root, a);
    forall x ensures left[x] == right[x] {
      assert (Accepted(e, root, b) + Restated(a) + first)[x] == (Restated(b) + Accepted(e, root, a))[x];
      assert (Accepted(e, root, c) + Restated(b) + second)[x] == (Restated(c) + Accepted(e, root, b))[x];
    }
    assert left == right;
  }

  /** What a listing accepts is owed before it, and settled after it. */
  lemma ListOwes(e: Env, root: AuthorizedPath, a: seq<Cmd>, b: seq<Cmd>, c: seq<Cmd>, d: seq<Cmd>,
                 found: multiset<AuthorizedPath>)
    requires Accepted(e, root, b) == Accepted(e, root, a) + found && Restated(b) == Restated(a)
    requires Settles(e, root, b, c, multiset{}) && Settles(e, root, c, d, found)
    ensures Settles(e, root, a, d, multiset{})
  {
    hide Accepted, Restated;
    Chained(e, root, b, c, d, multiset{}, found);
    assert multiset{} + found == found;
    var left, right := Accepted(e, root, d) + Restated(a), Restated(d) + Accepted(e, root, a);
    forall x ensures left[x] == right[x] {
      assert (Accepted(e, root, d) + Restated(b) + found)[x] == (Restated(d) + Accepted(e, root, b))[x];
    }
    assert left == right == left + multiset{};
  }

  lemma NothingOwed(e: Env, root: AuthorizedPath, cmds: seq<Cmd>)
    ensures Settles(e, root, cmds, cmds, multiset{})
  {
    hide Accepted, Restated;
  }

  /** What is pending when a directory is about to be walked. */
  function Late(dir: AuthorizedPath, depth: nat): Yield {
    if depth > MAX_WALK_DEPTH then Yield([], 0, [PathError(dir, PathDenied)]) else NOTHING
  }

  lemma {:induction false} WalkDirKeeps(e: Env, root: AuthorizedPath, w: Walked, dir: AuthorizedPath, depth: nat)
    requires depth <= MAX_WALK_DEPTH + 1 && DepthOf(root, dir.path) == depth && w.cmds != []
    requires Tells(e, root, w, Late(dir, depth), if depth > MAX_WALK_DEPTH then 0 else 1) && Checked(e, w)
    ensures Keeps(e, root, w.cmds, WalkDir(e, w, dir, depth), multiset{})
    ensures WalkDir(e, w, dir, depth).0.cmds != []
    decreases MAX_WALK_DEPTH + 1 - depth, 1, 0
  {
    hide ClassifyAll, Recheck, Descend, DescendAll, RunYield, Accepted, Restated, Openings, Listings, RootStats,
         MetOffPin, RootsHold, ListBelow, Settles, DepthOf, StoppedAt;
    NothingOwed(e, root, w.cmds);
    if depth > MAX_WALK_DEPTH {
      ThenNothing(Then(YieldOf(w), Late(dir, depth)));
    } else {
      var c := ListCmd(dir.path);
      var reply := e.list(w.cmds, c);
      var j := ListTells(e, root, w, dir);
      var l := ClassifyAll(e, Issue(w, c), dir, reply.entries, MayDescend(e, depth), [], false);
      if !l.w.stopped && reply.whole {
        NothingOwed(e, root, l.w.cmds);
        if l.offPin { RecheckKeeps(e, root, l.w.cmds, l.w, multiset{}); }
        var r := if l.offPin then Recheck(e, l.w) else (l.w, None);
        if r.1.None? {
          BelowIsDeeper(e, root, dir, reply.entries, MayDescend(e, depth));
          DescendAllKeeps(e, root, r.0, l.children, depth + 1);
          var o := DescendAll(e, r.0, l.children, depth + 1);
          if o.1.None? { ListOwes(e, root, w.cmds, l.w.cmds, r.0.cmds, o.0.cmds, multiset(l.children)); }
        }
      }
    }
  }

  lemma {:induction false} DescendAllKeeps(e: Env, root: AuthorizedPath, w: Walked, children: seq<AuthorizedPath>,
                                           depth: nat)
    requires depth <= MAX_WALK_DEPTH + 1 && AllAt(root, children, depth) && w.cmds != []
    requires Tells(e, root, w, NOTHING, 0) && Checked(e, w)
    ensures Keeps(e, root, w.cmds, DescendAll(e, w, children, depth), multiset(children))
    ensures DescendAll(e, w, children, depth).0.cmds != []
    decreases MAX_WALK_DEPTH + 1 - depth, 3, |children|
  {
    hide Descend, RunYield, Accepted, Restated, Openings, Listings, RootStats, MetOffPin, RootsHold, Settles, DepthOf,
         StoppedAt, Then, YieldOf;
    if children == [] {
      NothingOwed(e, root, w.cmds);
    } else {
      var first, rest := children[0], children[1..];
      DescendKeeps(e, root, w, first, depth);
      var r := Descend(e, w, first, depth);
      if r.1.None? {
        DescendAllKeeps(e, root, r.0, rest, depth);
        var o := DescendAll(e, r.0, rest, depth);
        if o.1.None? {
          Chained(e, root, w.cmds, r.0.cmds, o.0.cmds, multiset{first}, multiset(rest));
          assert children == [first] + rest;
        }
      }
    }
  }

  lemma {:induction false} DescendKeeps(e: Env, root: AuthorizedPath, w: Walked, child: AuthorizedPath, depth: nat)
    requires depth <= MAX_WALK_DEPTH + 1 && DepthOf(root, child.path) == depth && w.cmds != []
    requires Tells(e, root, w, NOTHING, 0) && Checked(e, w)
    ensures Keeps(e, root, w.cmds, Descend(e, w, child, depth), multiset{child})
    ensures Descend(e, w, child, depth).0.cmds != []
    decreases MAX_WALK_DEPTH + 1 - depth, 2, 0
  {
    hide Recheck, WalkDir, ParseKind, CodeForErrno, ReasonFor, RunYield, Accepted, Restated, Openings, Listings,
         RootStats, MetOffPin, RootsHold, DepthOf, Settles, StoppedAt;
    var c := LstatCmd(child.path);
    assert AuthorizedPath(child.path) == child;
    OneMore(e, root, w.cmds, c);
    OneMoreMet(e, w.cmds, c);
    StatSettles(e, root, w.cmds, child);
    var w1 := Issue(w, c);
    var y := CommandYield(e, root, w.cmds, c);
    if e.stat(w.cmds, c).Some? { ReasonIsCode(e.stat(w.cmds, c).value.errno); }
    ThenNothing(YieldOf(w));
    ThenNothing(Then(YieldOf(w), y));
    match e.stat(w.cmds, c) {
      case None =>
      case Some(st) =>
        if st.errno != 0 {
        } else if st.dev != e.pin {
          RecheckKeeps(e, root, w.cmds, WithRefusal(w1), multiset{child});
        } else if ParseKind(st.mode) == Directory {
          WalkDirKeeps(e, root, w1, child, depth);
          var o := WalkDir(e, w1, child, depth);
          if o.1.None? {
            Chained(e, root, w.cmds, w1.cmds, o.0.cmds, multiset{child}, multiset{});
            assert multiset{child} + multiset{} == multiset{child};
          }
        }
    }
  }

  lemma StatSettles(e: Env, root: AuthorizedPath, cmds: seq<Cmd>, child: AuthorizedPath)
    requires cmds != []
    ensures Settles(e, root, cmds, cmds + [LstatCmd(child.path)], multiset{child})
  {
    hide Accepted, Restated;
    assert AuthorizedPath(child.path) == child;
    OneMore(e, root, cmds, LstatCmd(child.path));
  }
}
