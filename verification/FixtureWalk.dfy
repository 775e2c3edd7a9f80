/** The second walk, over a local directory tree: entries in name order, each subdirectory in place. */
module FixtureWalk {
  import opened ByteStrings
  import opened Options
  import opened DevicePath
  import opened SyncWire
  import opened WalkSpec
  import opened TreeWalk
  import Seqs

  /** What the walk has done so far; `stopped` once the caller's callback has refused a record. */
  datatype Seen = Seen(emitted: seq<FileRecord>, files: nat, refused: nat, errors: seq<PathError>,
                       stopped: bool)

  const NONE_SEEN := Seen([], 0, 0, [], false)

  /** The order in which a directory is read: every entry once. */
  type Order = seq<Entry> -> seq<Entry>

  ghost predicate Rearranges(order: Order) {
    forall es :: multiset(order(es)) == multiset(es)
  }

  function Height(n: Node): (h: nat)
    decreases n
  {
    1 + Tallest(n.children)
  }

  function Tallest(es: seq<Entry>): (h: nat)
    ensures forall i :: 0 <= i < |es| ==> Height(es[i].node) <= h
    decreases es
  {
    if es == [] then 0
    else
      var rest := Tallest(es[1..]);
      var h := if Height(es[0].node) > rest then Height(es[0].node) else rest;
      assert forall i :: 0 < i < |es| ==> es[i] == es[1..][i - 1];
      h
  }

  ghost predicate Below(es: seq<Entry>, h: nat) {
    forall i :: 0 <= i < |es| ==> Height(es[i].node) < h
  }

  lemma OrderedBelow(order: Order, n: Node)
    requires Rearranges(order)
    ensures Below(order(n.children), Height(n))
  {
    var es := order(n.children);
    forall i | 0 <= i < |es| ensures Height(es[i].node) < Height(n) {
      assert es[i] in multiset(es);
      assert es[i] in n.children;
    }
  }

  // ---- The walk as a function ----

  function VisitAll(e: Env, order: Order, s: Seen, dir: AuthorizedPath, es: seq<Entry>, depth: nat,
                    ghost h: nat): (r: Seen)
    requires Rearranges(order) && Below(es, h)
    decreases h, |es|
  {
    if es == [] || s.stopped then s
    else VisitAll(e, order, VisitEntry(e, order, s, dir, es[0], depth, h), dir, es[1..], depth, h)
  }

  /** Names the entry, checks the device its name leads to, then goes by its own kind. */
  function VisitEntry(e: Env, order: Order, s: Seen, dir: AuthorizedPath, en: Entry, depth: nat,
                      ghost h: nat): (r: Seen)
    requires Rearranges(order) && Height(en.node) < h
    decreases h, 0
  {
    match Child(dir, en.name, e.active)
    case None => s.(errors := s.errors + [PathError(dir, PathDenied)])
    case Some(child) =>
      if en.node.target != Some(e.pin) then s.(refused := s.refused + 1)
      else
        match en.node.what
        case File =>
          var rec := FileRecord(child, en.node.Stat().size, en.node.Stat().mtime);
          if !e.take(s.emitted + [rec]) then s.(stopped := true)
          else s.(emitted := s.emitted + [rec], files := s.files + 1)
        case Dir =>
          if !MayDescend(e, depth) then s
          else
            OrderedBelow(order, en.node);
            VisitAll(e, order, s, child, order(en.node.children), depth + 1, Height(en.node))
        case _ => s.(refused := s.refused + 1)
  }

  /** The root's own kind and device, without following a link, and then the walk. */
  function VisitRoot(e: Env, order: Order, s: Seen, root: AuthorizedPath, n: Node): (r: (Seen, Option<Code>))
    requires Rearranges(order)
  {
    if !n.what.Dir? then (s, Some(NotADirectory))
    else if n.Stat().dev != e.pin then (s, Some(PathDenied))
    else
      OrderedBelow(order, n);
      (VisitAll(e, order, s, root, order(n.children), 1, Height(n)), None)
  }

  // ---- The walk itself ----

  class FixtureWalker {
    const e: Env
    const order: Order
    var emitted: seq<FileRecord>
    var files: nat
    var refused: nat
    var errors: seq<PathError>
    var stopped: bool

    constructor (e: Env, order: Order)
      ensures this.e == e && this.order == order && State() == NONE_SEEN
    {
      this.e, this.order := e, order;
      emitted, files, refused, errors, stopped := [], 0, 0, [], false;
    }

    ghost function State(): Seen
      reads this
    {
      Seen(emitted, files, refused, errors, stopped)
    }

    method WalkRoot(root: AuthorizedPath, n: Node) returns (failure: Option<Code>)
      requires Rearranges(order)
      modifies this
      ensures (State(), failure) == VisitRoot(e, order, old(State()), root, n)
    {
      if !n.what.Dir? { return Some(NotADirectory); }
      if n.Stat().dev != e.pin { return Some(PathDenied); }
      OrderedBelow(order, n);
      WalkDir(root, n, 1);
      return None;
    }

    method WalkDir(dir: AuthorizedPath, n: Node, depth: nat)
      requires Rearranges(order) && Below(order(n.children), Height(n))
      modifies this
      ensures State() == VisitAll(e, order, old(State()), dir, order(n.children), depth, Height(n))
      decreases Height(n), 1
    {
      var entries := order(n.children);
      var i := 0;
      while i < |entries| && !stopped
        invariant 0 <= i <= |entries|
        invariant VisitAll(e, order, State(), dir, entries[i..], depth, Height(n))
                  == VisitAll(e, order, old(State()), dir, entries, depth, Height(n))
      {
        Visit(dir, entries[i], depth, Height(n));
        assert entries[i..][1..] == entries[i + 1..];
        i := i + 1;
      }
    }

    method Visit(dir: AuthorizedPath, en: Entry, depth: nat, ghost h: nat)
      requires Rearranges(order) && Height(en.node) < h && !stopped
      modifies this
      ensures State() == VisitEntry(e, order, old(State()), dir, en, depth, h)
      decreases h, 0
    {
      var child := Child(dir, en.name, e.active);
      if child.None? {
        errors := errors + [PathError(dir, PathDenied)];
        return;
      }
      if en.node.target != Some(e.pin) {
        refused := refused + 1;
        return;
      }
      match en.node.what {
        case File =>
          var rec := FileRecord(child.value, en.node.Stat().size, en.node.Stat().mtime);
          if !e.take(emitted + [rec]) {
            stopped := true;
            return;
          }
          emitted := emitted + [rec];
          files := files + 1;
        case Dir =>
          if MayDescend(e, depth) {
            OrderedBelow(order, en.node);
            WalkDir(child.value, en.node, depth + 1);
          }
        case _ => refused := refused + 1;
      }
    }
  }

  // ---- The caller's stop ----

  /** The same request with a caller that takes every record. */
  function Willing(e: Env): Env { e.(take := _ => true) }

  /** `b` has gone on from `a`. */
  ghost predicate GoesOn(a: Seen, b: Seen) {
    a.emitted <= b.emitted && a.errors <= b.errors && a.refused <= b.refused
  }

  /** From `s` the walk came to `r` where with a willing caller it comes to `full`: to just that, when the caller
      takes every record on the way, and else to what was emitted before the first it refuses. */
  ghost predicate Cut(e: Env, s: Seen, full: Seen, r: Seen) {
    && GoesOn(s, r) && GoesOn(r, full)
    && (forall j :: |s.emitted| < j <= |r.emitted| ==> e.take(full.emitted[..j]))
    && (if r.stopped then
          |r.emitted| < |full.emitted| && !e.take(full.emitted[..|r.emitted| + 1])
          && r.files == s.files + |r.emitted| - |s.emitted|
        else r == full)
  }

  lemma CutThen(e: Env, s: Seen, t: Seen, full: Seen, r: Seen)
    requires Cut(e, s, t, t) && Cut(e, t, full, r) && t.files == s.files + |t.emitted| - |s.emitted|
    ensures Cut(e, s, full, r)
  {
    forall j | |s.emitted| < j <= |r.emitted| ensures e.take(full.emitted[..j]) {
      if j <= |t.emitted| { assert full.emitted[..j] == t.emitted[..j]; }
    }
  }

  lemma CutEarlier(e: Env, s: Seen, t: Seen, r: Seen, full: Seen)
    requires Cut(e, s, t, r) && r.stopped && GoesOn(t, full)
    ensures Cut(e, s, full, r)
  {
    assert forall j :: 0 <= j <= |t.emitted| ==> full.emitted[..j] == t.emitted[..j];
  }

  lemma {:induction false} VisitAllCut(e: Env, order: Order, s: Seen, dir: AuthorizedPath, es: seq<Entry>,
                                       depth: nat, h: nat)
    requires Rearranges(order) && Below(es, h) && !s.stopped
    ensures
      var full := VisitAll(Willing(e), order, s, dir, es, depth, h);
      && Cut(e, s, full, VisitAll(e, order, s, dir, es, depth, h))
      && !full.stopped && full.files == s.files + |full.emitted| - |s.emitted|
    decreases h, |es|
  {
    hide VisitEntry, Rearranges, Height, Cut;
    if es == [] {
      NoCut(e, s);
    } else {
      VisitEntryCut(e, order, s, dir, es[0], depth, h);
      var t := VisitEntry(Willing(e), order, s, dir, es[0], depth, h);
      var u := VisitEntry(e, order, s, dir, es[0], depth, h);
      VisitAllCut(e, order, t, dir, es[1..], depth, h);
      var full := VisitAll(Willing(e), order, t, dir, es[1..], depth, h);
      var r := VisitAll(e, order, t, dir, es[1..], depth, h);
      CutGoesOn(e, t, full, r);
      CutEnds(e, s, t, u);
      if u.stopped {
        CutEarlier(e, s, t, u, full);
      } else {
        CutThen(e, s, t, full, r);
      }
    }
  }

  lemma NoCut(e: Env, s: Seen)
    requires !s.stopped
    ensures Cut(e, s, s, s)
  {
  }

  lemma CutGoesOn(e: Env, s: Seen, full: Seen, r: Seen)
    requires Cut(e, s, full, r)
    ensures GoesOn(s, full)
  {
  }

  lemma CutEnds(e: Env, s: Seen, full: Seen, r: Seen)
    requires Cut(e, s, full, r)
    ensures !r.stopped ==> r == full
  {
  }

  lemma {:induction false} VisitEntryCut(e: Env, order: Order, s: Seen, dir: AuthorizedPath, en: Entry,
                                         depth: nat, h: nat)
    requires Rearranges(order) && Height(en.node) < h && !s.stopped
    ensures
      var full := VisitEntry(Willing(e), order, s, dir, en, depth, h);
      && Cut(e, s, full, VisitEntry(e, order, s, dir, en, depth, h))
      && !full.stopped && full.files == s.files + |full.emitted| - |s.emitted|
    decreases h, 0
  {
    hide VisitAll, Rearranges, Child, Height;
    if en.node.what.Dir? && MayDescend(e, depth) && Child(dir, en.name, e.active).Some? {
      OrderedBelow(order, en.node);
      var child := Child(dir, en.name, e.active).value;
      VisitAllCut(e, order, s, child, order(en.node.children), depth + 1, Height(en.node));
    }
    if en.node.what.File? && Child(dir, en.name, e.active).Some? {
      var rec := FileRecord(Child(dir, en.name, e.active).value, en.node.Stat().size, en.node.Stat().mtime);
      Seqs.TakeAll(s.emitted + [rec]);
      assert forall j :: |s.emitted| < j <= |s.emitted| + 1 ==> (s.emitted + [rec])[..j] == s.emitted + [rec];
    }
  }

  /** Whatever the caller refuses, the walk emits what it would emit to a caller that takes everything, up to the
      first record refused, and all of it if there is none. */
  lemma StopsAtFirstRefusal(e: Env, order: Order, root: AuthorizedPath, n: Node)
    requires Rearranges(order)
    ensures
      var (full, f) := VisitRoot(Willing(e), order, NONE_SEEN, root, n);
      var (r, g) := VisitRoot(e, order, NONE_SEEN, root, n);
      && f == g && !full.stopped && r.files == |r.emitted|
      && r.emitted <= full.emitted
      && (forall j :: 0 < j <= |r.emitted| ==> e.take(full.emitted[..j]))
      && (if r.stopped then |r.emitted| < |full.emitted| && !e.take(full.emitted[..|r.emitted| + 1]) else r == full)
  {
    hide VisitAll, Rearranges, Height;
    OrderedBelow(order, n);
    VisitAllCut(e, order, NONE_SEEN, root, order(n.children), 1, Height(n));
  }

  // ---- What both walks hold of one tree, in no order ----

  datatype Bag = Bag(records: multiset<FileRecord>, refused: nat)

  const EMPTY_BAG := Bag(multiset{}, 0)

  function Plus(a: Bag, b: Bag): Bag { Bag(a.records + b.records, a.refused + b.refused) }

  function BagOf(y: Yield): Bag { Bag(multiset(y.records), y.refused) }

  /** Everything below `dir` as far as the request goes. */
  function HeldAll(e: Env, dir: AuthorizedPath, es: seq<Entry>, depth: nat): Bag
    decreases es
  {
    if es == [] then EMPTY_BAG
    else Plus(HeldOne(e, dir, es[0], depth), HeldAll(e, dir, es[1..], depth))
  }

  function HeldOne(e: Env, dir: AuthorizedPath, en: Entry, depth: nat): Bag
    decreases en
  {
    Plus(BagOf(Own(e, dir, en)),
         if IsSubdir(e, en) && MayDescend(e, depth) then
           HeldAll(e, Under(dir, en.name), en.node.children, depth + 1)
         else EMPTY_BAG)
  }

  lemma BagOfThen(a: Yield, b: Yield)
    ensures BagOf(Then(a, b)) == Plus(BagOf(a), BagOf(b))
  {
    assert multiset(a.records + b.records) == multiset(a.records) + multiset(b.records);
  }

  lemma {:induction false} HeldConcat(e: Env, dir: AuthorizedPath, a: seq<Entry>, b: seq<Entry>, depth: nat)
    ensures HeldAll(e, dir, a + b, depth) == Plus(HeldAll(e, dir, a, depth), HeldAll(e, dir, b, depth))
    decreases |a|
  {
    hide HeldOne;
    if a == [] {
      assert a + b == b;
    } else {
      assert (a + b)[1..] == a[1..] + b;
      HeldConcat(e, dir, a[1..], b, depth);
    }
  }

  /** What a directory holds does not depend on the order it is read in. */
  lemma {:induction false} HeldInAnyOrder(e: Env, dir: AuthorizedPath, a: seq<Entry>, b: seq<Entry>, depth: nat)
    requires multiset(a) == multiset(b)
    ensures HeldAll(e, dir, a, depth) == HeldAll(e, dir, b, depth)
    decreases |a|
  {
    hide HeldOne, Plus;
    if a == [] {
      SameSize(a, b);
    } else {
      var i := Without(a, b);
      HeldInAnyOrder(e, dir, a[1..], b[..i] + b[i + 1..], depth);
      HeldMoved(e, dir, b, i, depth);
    }
  }

  /** An entry may as well come first. */
  lemma HeldMoved(e: Env, dir: AuthorizedPath, b: seq<Entry>, i: nat, depth: nat)
    requires i < |b|
    ensures HeldAll(e, dir, b, depth)
            == Plus(HeldOne(e, dir, b[i], depth), HeldAll(e, dir, b[..i] + b[i + 1..], depth))
  {
    hide HeldOne;
    HeldConcat(e, dir, b[..i], b[i + 1..], depth);
    HeldConcat(e, dir, b[..i], b[i..], depth);
    assert b == b[..i] + b[i..] && b[i..][1..] == b[i + 1..];
  }

  lemma SameSize(a: seq<Entry>, b: seq<Entry>)
    requires multiset(a) == multiset(b)
    ensures |a| == |b|
  {
    assert |multiset(a)| == |a| && |multiset(b)| == |b|;
  }

  lemma Without(a: seq<Entry>, b: seq<Entry>) returns (i: nat)
    requires a != [] && multiset(a) == multiset(b)
    ensures i < |b| && b[i] == a[0] && multiset(a[1..]) == multiset(b[..i] + b[i + 1..])
  {
    assert a[0] in multiset(a);
    i :| 0 <= i < |b| && b[i] == a[0];
    assert a[..0] + a[1..] == a[1..];
    Seqs.MultisetWithout(a, 0);
    Seqs.MultisetWithout(b, i);
  }

  // ---- The local walk ----

  ghost predicate TakesAll(e: Env) { forall rs :: e.take(rs) }

  /** From `s` the walk met exactly `b` and no error. */
  ghost predicate Met(s: Seen, r: Seen, b: Bag) {
    && multiset(r.emitted) == multiset(s.emitted) + b.records
    && r.files == s.files + |b.records|
    && r.refused == s.refused + b.refused
    && r.errors == s.errors && r.stopped == s.stopped
  }

  lemma MetThen(s: Seen, t: Seen, r: Seen, a: Bag, b: Bag)
    requires Met(s, t, a) && Met(t, r, b)
    ensures Met(s, r, Plus(a, b))
  {
  }

  lemma MetNothing(s: Seen)
    ensures Met(s, s, EMPTY_BAG)
  {
  }

  lemma {:induction false} VisitAllMeets(e: Env, order: Order, s: Seen, dir: AuthorizedPath,
                                         es: seq<Entry>, depth: nat, h: nat)
    requires Rearranges(order) && Below(es, h) && AllWellFormed(es) && TakesAll(e) && !s.stopped
    requires FormOk(dir.path) && WithinAny(dir.path, e.active)
    ensures Met(s, VisitAll(e, order, s, dir, es, depth, h), HeldAll(e, dir, es, depth))
    decreases h, |es|
  {
    hide VisitEntry, HeldOne, FormOk, WithinAny, WellFormed, NameOk, Rearranges, TakesAll, Height;
    if es == [] {
      MetNothing(s);
    } else {
      VisitEntryMeets(e, order, s, dir, es[0], depth, h);
      var t := VisitEntry(e, order, s, dir, es[0], depth, h);
      VisitAllMeets(e, order, t, dir, es[1..], depth, h);
      MetThen(s, t, VisitAll(e, order, t, dir, es[1..], depth, h),
              HeldOne(e, dir, es[0], depth), HeldAll(e, dir, es[1..], depth));
    }
  }

  lemma {:induction false} VisitEntryMeets(e: Env, order: Order, s: Seen, dir: AuthorizedPath,
                                           en: Entry, depth: nat, h: nat)
    requires Rearranges(order) && Height(en.node) < h && NameOk(en.name) && WellFormed(en.node)
    requires TakesAll(e) && !s.stopped && FormOk(dir.path) && WithinAny(dir.path, e.active)
    ensures Met(s, VisitEntry(e, order, s, dir, en, depth, h), HeldOne(e, dir, en, depth))
    decreases h, 0
  {
    hide VisitAll, HeldAll, FormOk, WithinAny, NameOk, Rearranges, Child, Under, Height;
    ChildAccepted(e, dir, en.name);
    var n := en.node;
    OwnByTarget(e, dir, en);
    if IsSubdir(e, en) && MayDescend(e, depth) {
      OrderedBelow(order, n);
      OrderedWellFormed(order, n);
      var child := Under(dir, en.name);
      VisitAllMeets(e, order, s, child, order(n.children), depth + 1, Height(n));
      Rearranged(order, n.children);
      HeldInAnyOrder(e, child, order(n.children), n.children, depth + 1);
    }
  }

  lemma Rearranged(order: Order, es: seq<Entry>)
    requires Rearranges(order)
    ensures multiset(order(es)) == multiset(es)
  {
  }

  lemma OrderedWellFormed(order: Order, n: Node)
    requires Rearranges(order) && WellFormed(n)
    ensures AllWellFormed(order(n.children))
  {
    hide NameOk;
    var es := order(n.children);
    forall i | 0 <= i < |es| ensures NameOk(es[i].name) && WellFormed(es[i].node) {
      assert es[i] in multiset(es);
      assert es[i] in n.children;
    }
  }

  /** Following links changes nothing that is kept: what a link leads to is refused either way. */
  lemma OwnByTarget(e: Env, dir: AuthorizedPath, en: Entry)
    requires WellFormed(en.node)
    ensures
      Own(e, dir, en) ==
        if en.node.target != Some(e.pin) then Yield([], 1, [])
        else if en.node.what.File? then
          Yield([FileRecord(Under(dir, en.name), en.node.Stat().size, en.node.Stat().mtime)], 0, [])
        else if en.node.what.Dir? then NOTHING
        else Yield([], 1, [])
    ensures IsSubdir(e, en) <==> en.node.target == Some(e.pin) && en.node.what.Dir?
  {
    hide Under;
  }

  // ---- The device walk ----

  /** The same request with the fixed limit made part of it. */
  function Capped(e: Env): Env {
    e.(maxDepth := if e.maxDepth == 0 || e.maxDepth > MAX_WALK_DEPTH then MAX_WALK_DEPTH else e.maxDepth)
  }

  lemma {:induction false} ReadHolds(e: Env, dir: AuthorizedPath, n: Node, depth: nat)
    requires 1 <= depth <= MAX_WALK_DEPTH + 1
    ensures BagOf(Read(e, dir, n, depth))
            == if depth > MAX_WALK_DEPTH then EMPTY_BAG else HeldAll(Capped(e), dir, n.children, depth)
    decreases MAX_WALK_DEPTH + 1 - depth, 2, 0
  {
    hide OwnAll, ReadAll, HeldAll, Subdirs;
    if depth <= MAX_WALK_DEPTH {
      LevelHolds(e, dir, n.children, depth);
      if MayDescend(e, depth) {
        BagOfThen(OwnAll(e, dir, n.children), ReadAll(e, dir, Subdirs(e, n.children), depth + 1));
      }
    }
  }

  lemma {:induction false} LevelHolds(e: Env, dir: AuthorizedPath, es: seq<Entry>, depth: nat)
    requires 1 <= depth <= MAX_WALK_DEPTH
    ensures HeldAll(Capped(e), dir, es, depth)
            == Plus(BagOf(OwnAll(e, dir, es)),
                    if MayDescend(e, depth) then BagOf(ReadAll(e, dir, Subdirs(e, es), depth + 1))
                    else EMPTY_BAG)
    decreases MAX_WALK_DEPTH + 1 - depth, 1, |es|
  {
    hide Own, Read, IsSubdir, Under, HeldOne, Plus, BagOf, Then, MayDescend, Capped;
    if es == [] {
      PlusNothing(EMPTY_BAG);
      BagOfNothing();
    } else {
      var en, rest := es[0], es[1..];
      LevelHolds(e, dir, rest, depth);
      BagOfThen(Own(e, dir, en), OwnAll(e, dir, rest));
      OneHolds(e, dir, en, depth);
      if MayDescend(e, depth) {
        var below := if IsSubdir(e, en) then Read(e, Under(dir, en.name), en.node, depth + 1) else NOTHING;
        var others := ReadAll(e, dir, Subdirs(e, rest), depth + 1);
        BagOfThen(below, others);
        PlusSwap(BagOf(Own(e, dir, en)), BagOf(below), BagOf(OwnAll(e, dir, rest)), BagOf(others));
        ThenNothing(others);
        BagOfNothing();
      } else {
        PlusSwap(BagOf(Own(e, dir, en)), EMPTY_BAG, BagOf(OwnAll(e, dir, rest)), EMPTY_BAG);
        PlusNothing(EMPTY_BAG);
      }
    }
  }

  /** One entry, with what is read below it. */
  lemma {:induction false} OneHolds(e: Env, dir: AuthorizedPath, en: Entry, depth: nat)
    requires 1 <= depth <= MAX_WALK_DEPTH
    ensures HeldOne(Capped(e), dir, en, depth)
            == Plus(BagOf(Own(e, dir, en)),
                    if IsSubdir(e, en) && MayDescend(e, depth) then
                      BagOf(Read(e, Under(dir, en.name), en.node, depth + 1))
                    else EMPTY_BAG)
    decreases MAX_WALK_DEPTH + 1 - depth, 0, 0
  {
    hide Own, Read, IsSubdir, Under, HeldAll, Plus, BagOf;
    SameOwn(e, dir, en);
    if IsSubdir(e, en) && MayDescend(e, depth) {
      ReadHolds(e, Under(dir, en.name), en.node, depth + 1);
    }
  }

  lemma PlusSwap(a: Bag, b: Bag, c: Bag, d: Bag)
    ensures Plus(Plus(a, b), Plus(c, d)) == Plus(Plus(a, c), Plus(b, d))
  {
  }

  lemma PlusNothing(a: Bag)
    ensures Plus(a, EMPTY_BAG) == a == Plus(EMPTY_BAG, a)
  {
  }

  lemma BagOfNothing()
    ensures BagOf(NOTHING) == EMPTY_BAG
  {
  }

  lemma SameOwn(e: Env, dir: AuthorizedPath, en: Entry)
    ensures Own(Capped(e), dir, en) == Own(e, dir, en) && IsSubdir(Capped(e), en) == IsSubdir(e, en)
  {
  }

  /** No directory the request reaches stands past the fixed limit. */
  predicate WithinLimit(e: Env, n: Node, depth: nat)
    requires depth <= MAX_WALK_DEPTH + 1
    decreases MAX_WALK_DEPTH + 1 - depth, 0, 0
  {
    depth <= MAX_WALK_DEPTH
    && (MayDescend(e, depth) ==> AllWithinLimit(e, Subdirs(e, n.children), depth + 1))
  }

  predicate AllWithinLimit(e: Env, ds: seq<Entry>, depth: nat)
    requires depth <= MAX_WALK_DEPTH + 1
    decreases MAX_WALK_DEPTH + 1 - depth, 1, |ds|
  {
    ds == [] || (WithinLimit(e, ds[0].node, depth) && AllWithinLimit(e, ds[1..], depth))
  }

  lemma {:induction false} ErrorsPastLimit(e: Env, dir: AuthorizedPath, n: Node, depth: nat)
    requires 1 <= depth <= MAX_WALK_DEPTH + 1
    ensures Read(e, dir, n, depth).errors == [] <==> WithinLimit(e, n, depth)
    decreases MAX_WALK_DEPTH + 1 - depth, 0, 0
  {
    hide OwnAll, ReadAll, Subdirs, AllWithinLimit;
    if depth <= MAX_WALK_DEPTH {
      OwnErrs(e, dir, n.children);
      if MayDescend(e, depth) {
        AllErrorsPastLimit(e, dir, Subdirs(e, n.children), depth + 1);
      }
    }
  }

  lemma {:induction false} AllErrorsPastLimit(e: Env, dir: AuthorizedPath, ds: seq<Entry>, depth: nat)
    requires 1 <= depth <= MAX_WALK_DEPTH + 1
    ensures ReadAll(e, dir, ds, depth).errors == [] <==> AllWithinLimit(e, ds, depth)
    decreases MAX_WALK_DEPTH + 1 - depth, 1, |ds|
  {
    hide Read, WithinLimit;
    if ds != [] {
      ErrorsPastLimit(e, Under(dir, ds[0].name), ds[0].node, depth);
      AllErrorsPastLimit(e, dir, ds[1..], depth);
    }
  }

  lemma {:induction false} OwnErrs(e: Env, dir: AuthorizedPath, es: seq<Entry>)
    ensures OwnAll(e, dir, es).errors == []
    decreases |es|
  {
    if es != [] { OwnErrs(e, dir, es[1..]); }
  }

  /** Within the limit, making it part of the request changes nothing. */
  lemma {:induction false} CapIdle(e: Env, dir: AuthorizedPath, es: seq<Entry>, depth: nat)
    requires 1 <= depth <= MAX_WALK_DEPTH
    requires MayDescend(e, depth) ==> AllWithinLimit(e, Subdirs(e, es), depth + 1)
    ensures HeldAll(Capped(e), dir, es, depth) == HeldAll(e, dir, es, depth)
    decreases MAX_WALK_DEPTH - depth, 1, |es|
  {
    hide Own, IsSubdir, Under, HeldOne, WithinLimit, Capped, Plus;
    if es != [] {
      CapIdle(e, dir, es[1..], depth);
      CapIdleOne(e, dir, es[0], depth);
    }
  }

  lemma {:induction false} CapIdleOne(e: Env, dir: AuthorizedPath, en: Entry, depth: nat)
    requires 1 <= depth <= MAX_WALK_DEPTH
    requires MayDescend(e, depth) && IsSubdir(e, en) ==> WithinLimit(e, en.node, depth + 1)
    ensures HeldOne(Capped(e), dir, en, depth) == HeldOne(e, dir, en, depth)
    decreases MAX_WALK_DEPTH - depth, 0
  {
    hide Own, IsSubdir, Under, HeldAll, Plus;
    SameOwn(e, dir, en);
    if IsSubdir(e, en) && MayDescend(e, depth) {
      LimitBelow(e, en.node, depth + 1);
      CapIdle(e, Under(dir, en.name), en.node.children, depth + 1);
    }
  }

  // ---- The two walks of one tree ----

  /** On one static, readable tree the device walk and the local walk, which reads each directory in
      any order and enters subdirectories as it meets them, count the same files and refusals and
      emit the same records, for every depth asked for, unless a directory the request reaches stands
      past the fixed limit; and exactly then the device walk reports errors and the local one
      none. With the fixed limit made part of its request the local walk agrees always. The device walk
      alone fails, exactly when a directory it must name has a path the protocol cannot carry. */
  lemma WalksAgree(e: Env, order: Order, at: Bytes -> Option<Node>, root: AuthorizedPath, n: Node)
    requires Honest(e, at) && Placed(at, root.path, n) && WellFormed(n) && Rearranges(order)
    requires FormOk(root.path) && WithinAny(root.path, e.active)
    requires OnPin(e, n) && n.what.Dir?
    ensures
      var (w, failure) := WalkRoot(e, root);
      var (full, f) := VisitRoot(e, order, NONE_SEEN, root, n);
      var (capped, g) := VisitRoot(Capped(e), order, NONE_SEEN, root, n);
      && f.None? && g.None? && full.errors == capped.errors == []
      && (if Fits(e, root, n, 1) then failure.None? else failure == Some(Coded(Disconnected)))
      && (failure.None? ==>
            && SameRecords(w, capped)
            && (WithinLimit(e, n, 1) ==> SameRecords(w, full))
            && (w.errors == [] <==> WithinLimit(e, n, 1)))
  {
    hide WalkRoot, VisitAll, HeldAll, Read, WithinLimit, Honest, Placed, Fits, FormOk, WithinAny,
         Height, WellFormed;
    var es := order(n.children);
    OrderedBelow(order, n);
    HonestTakes(e, at);
    WalkReadsTree(e, at, root, n);
    ReadHolds(e, root, n, 1);
    ErrorsPastLimit(e, root, n, 1);
    OrderedWellFormed(order, n);
    VisitAllMeets(e, order, NONE_SEEN, root, es, 1, Height(n));
    VisitAllMeets(Capped(e), order, NONE_SEEN, root, es, 1, Height(n));
    HeldInAnyOrder(e, root, es, n.children, 1);
    HeldInAnyOrder(Capped(e), root, es, n.children, 1);
    if WithinLimit(e, n, 1) {
      LimitBelow(e, n, 1);
      CapIdle(e, root, n.children, 1);
    }
  }

  /** On a root that is no directory on the pin neither walk emits or counts anything. Both name a root that is
      not a directory so; of a directory off the pin the device walk says that the volume did not hold, and the
      local one that the path is denied. A path that cannot be sent is the device walk's own failure. */
  lemma RootsFail(e: Env, order: Order, at: Bytes -> Option<Node>, root: AuthorizedPath, n: Node)
    requires Honest(e, at) && Placed(at, root.path, n) && WellFormed(n) && Rearranges(order)
    requires !n.what.Dir? || !OnPin(e, n)
    ensures
      var (w, failure) := WalkRoot(e, root);
      var (r, g) := VisitRoot(e, order, NONE_SEEN, root, n);
      && w == Issue(START, LstatCmd(root.path)) && r == NONE_SEEN
      && g == Some(if n.what.Dir? then PathDenied else NotADirectory)
      && failure == Some(Coded(if |root.path| > 4096 then Disconnected
                               else if n.what.Dir? then VolumeUnresolved
                               else NotADirectory))
  {
    hide Honest, Placed, ParseKind, CodeForErrno;
    KindShows(n.what, n.perm, n.high);
    PlacedAnswers(e, at, root.path, n, []);
  }

  lemma LimitBelow(e: Env, n: Node, depth: nat)
    requires 1 <= depth <= MAX_WALK_DEPTH + 1 && WithinLimit(e, n, depth)
    ensures depth <= MAX_WALK_DEPTH
    ensures MayDescend(e, depth) ==> AllWithinLimit(e, Subdirs(e, n.children), depth + 1)
  {
  }

  ghost predicate SameRecords(w: Walked, s: Seen) {
    && multiset(w.emitted) == multiset(s.emitted)
    && w.files == s.files && w.refused == s.refused
  }
}
