/** Path confinement: which device paths the broker will name, and how that set shrinks. */
module DevicePath {
  import opened ByteStrings
  import opened Options
  import Seqs
  import Sorting

  const SLASH: byte := 47

  const DOT: Bytes := [46]

  const DOTDOT: Bytes := [46, 46]

  function VolumePrefix(): Bytes { Ascii("/sdcard/") }

  /** `s` cut at every separator; always at least one segment. */
  function Split(s: Bytes): (segs: seq<Bytes>)
    ensures segs != []
  {
    if s == [] then [[]]
    else
      var rest := Split(s[1..]);
      if s[0] == SLASH then [[]] + rest else [[s[0]] + rest[0]] + rest[1..]
  }

  ghost function Join(segs: seq<Bytes>): (s: Bytes)
    requires segs != []
  {
    if |segs| == 1 then segs[0] else segs[0] + [SLASH] + Join(segs[1..])
  }

  /** The segments of an absolute path. */
  function Segments(s: Bytes): (segs: seq<Bytes>)
    requires s != []
  {
    Split(s[1..])
  }

  predicate PlainSegment(seg: Bytes) {
    seg != [] && seg != DOT && seg != DOTDOT
  }

  predicate AllPlain(segs: seq<Bytes>) {
    forall i :: 0 <= i < |segs| ==> PlainSegment(segs[i])
  }

  predicate HasNul(s: Bytes) {
    exists i :: 0 <= i < |s| && s[i] == 0
  }

  /** Every rule that does not involve the allowlist. */
  predicate FormOk(s: Bytes) {
    s != [] && !HasNul(s) && s[0] == SLASH && VolumePrefix() <= s && AllPlain(Segments(s))
  }

  /** `s` is `root` or lies beneath it, told from the bytes alone. */
  predicate Within(s: Bytes, root: Bytes) {
    s == root || (|s| > |root| && s[|root|] == SLASH && s[..|root|] == root)
  }

  predicate WithinAny(s: Bytes, roots: seq<Bytes>) {
    exists i :: 0 <= i < |roots| && Within(s, roots[i])
  }

  function CompiledAllowlist(): seq<Bytes> {
    [ VolumePrefix() + Ascii("DCIM"), VolumePrefix() + Ascii("Download"),
      VolumePrefix() + Ascii("Movies"), VolumePrefix() + Ascii("Music"),
      VolumePrefix() + Ascii("Pictures"), VolumePrefix() + Ascii("Recordings") ]
  }

  // ---- Segments ----

  lemma {:induction false} JoinSplit(s: Bytes)
    ensures Join(Split(s)) == s
  {
    if s != [] {
      JoinSplit(s[1..]);
      var rest := Split(s[1..]);
      if s[0] != SLASH {
        var segs := [[s[0]] + rest[0]] + rest[1..];
        assert segs[1..] == rest[1..];
      } else {
        assert ([[]] + rest)[1..] == rest;
      }
    }
  }

  lemma SplitStep(s: Bytes)
    requires s != []
    ensures
      var rest := Split(s[1..]);
      Split(s) == if s[0] == SLASH then [[]] + rest else [[s[0]] + rest[0]] + rest[1..]
  {
  }

  lemma {:induction false} SplitConcat(a: Bytes, b: Bytes)
    ensures Split(a + [SLASH] + b) == Split(a) + Split(b)
  {
    if a == [] {
      assert a + [SLASH] + b == [SLASH] + b && ([SLASH] + b)[1..] == b;
    } else {
      var s := a + [SLASH] + b;
      assert s[0] == a[0] && s[1..] == a[1..] + [SLASH] + b;
      SplitConcat(a[1..], b);
      var rest, tail := Split(a[1..]), Split(b);
      SplitStep(a);
      SplitStep(s);
      hide Split;
      Seqs.DropOfAppend(rest, tail, 1);
      Seqs.Assoc([[]], rest, tail);
      Seqs.Assoc([[a[0]] + rest[0]], rest[1..], tail);
    }
  }

  lemma {:induction false} JoinConcat(x: seq<Bytes>, y: seq<Bytes>)
    requires x != [] && y != []
    ensures Join(x + y) == Join(x) + [SLASH] + Join(y)
  {
    if |x| == 1 {
      assert (x + y)[1..] == y;
    } else {
      assert (x + y)[1..] == x[1..] + y;
      JoinConcat(x[1..], y);
    }
  }

  /** On absolute paths the byte test is exactly whole-segment prefix. */
  lemma WithinIsSegmentPrefix(s: Bytes, root: Bytes)
    requires s != [] && root != [] && s[0] == root[0] == SLASH
    ensures Within(s, root) <==> Segments(root) <= Segments(s)
  {
    hide Split, Join;
    if Within(s, root) && s != root {
      var t := s[|root| + 1..];
      assert s[1..] == root[1..] + [SLASH] + t;
      SplitConcat(root[1..], t);
    }
    if Segments(root) <= Segments(s) {
      JoinSplit(root[1..]);
      JoinSplit(s[1..]);
      var rest := Segments(s)[|Segments(root)|..];
      assert Segments(s) == Segments(root) + rest;
      assert root == [SLASH] + root[1..] && s == [SLASH] + s[1..];
      if rest != [] {
        JoinConcat(Segments(root), rest);
        assert s == root + [SLASH] + Join(rest);
      } else {
        assert Segments(s) == Segments(root);
      }
    }
  }

  lemma WithinTransitive(s: Bytes, a: Bytes, b: Bytes)
    requires Within(s, a) && Within(a, b)
    ensures Within(s, b)
  {
  }

  /** A well-formed path that names a byte-prefix sibling of a root is not within it. */
  lemma SiblingIsOutside(root: Bytes, more: Bytes)
    requires more != [] && more[0] != SLASH
    ensures !Within(root + more, root)
  {
    assert (root + more)[|root|] == more[0];
  }

  // ---- Authority ----

  /** A path the storage layer will accept; the zero value names nothing. */
  datatype AuthorizedPath = AuthorizedPath(path: Bytes) {
    predicate IsZero() { path == [] }
  }

  /** Validates a caller's string against the allowlist in force. */
  function Parse(s: Bytes, active: seq<Bytes>): (p: Option<AuthorizedPath>) {
    if FormOk(s) && WithinAny(s, active) then Some(AuthorizedPath(s)) else None
  }

  predicate NameOk(name: Bytes) {
    PlainSegment(name) && !HasNul(name) && forall i :: 0 <= i < |name| ==> name[i] != SLASH
  }

  /** Joins one directory entry's name to `a` and revalidates the whole path. */
  function Child(a: AuthorizedPath, name: Bytes, active: seq<Bytes>): (p: Option<AuthorizedPath>) {
    if a.IsZero() || !NameOk(name) then None else Parse(a.path + [SLASH] + name, active)
  }

  lemma {:induction false} SplitPlainName(name: Bytes)
    requires forall i :: 0 <= i < |name| ==> name[i] != SLASH
    ensures Split(name) == [name]
  {
    if name != [] {
      SplitPlainName(name[1..]);
      assert name == [name[0]] + name[1..] && [name[1..]][1..] == [];
    }
  }

  /** A child lies one segment below its parent, and a name is refused only for its own sake while
      the parent is still within the allowlist. */
  lemma ChildExtends(a: AuthorizedPath, name: Bytes, active: seq<Bytes>)
    requires FormOk(a.path)
    ensures Child(a, name, active).Some? ==>
              var p := Child(a, name, active).value;
              Segments(p.path) == Segments(a.path) + [name]
    ensures WithinAny(a.path, active) ==> (Child(a, name, active).Some? <==> NameOk(name))
  {
    hide Split, VolumePrefix;
    if NameOk(name) {
      var s := a.path + [SLASH] + name;
      assert s[1..] == a.path[1..] + [SLASH] + name;
      SplitConcat(a.path[1..], name);
      SplitPlainName(name);
      assert !HasNul(s);
      assert VolumePrefix() <= s;
      if WithinAny(a.path, active) {
        var i :| 0 <= i < |active| && Within(a.path, active[i]);
        assert Within(s, a.path);
        WithinTransitive(s, a.path, active[i]);
      }
    }
  }

  // ---- Narrowing ----

  /** Every entry of an allowlist is well formed and within a compiled root. */
  predicate Restricts(active: seq<Bytes>, outer: seq<Bytes>) {
    forall i :: 0 <= i < |active| ==> FormOk(active[i]) && WithinAny(active[i], outer)
  }

  /** Byte-wise order, as strings are compared. */
  predicate Before(a: Bytes, b: Bytes) {
    a == [] || (b != [] && (a[0] < b[0] || (a[0] == b[0] && Before(a[1..], b[1..]))))
  }

  /** `a` runs out first, or is the lower at the first place where they differ. */
  ghost predicate Precedes(a: Bytes, b: Bytes, n: nat) {
    && n <= |a| && n <= |b| && a[..n] == b[..n]
    && (n == |a| || (n < |b| && a[n] < b[n]))
  }

  lemma FirstAgree(a: Bytes, b: Bytes, n: nat)
    ensures 0 < n <= |a| && n <= |b| && a[..n] == b[..n] ==> a[0] == b[0]
  {
    if 0 < n <= |a| && n <= |b| { assert a[..n][0] == a[0] && b[..n][0] == b[0]; }
  }

  lemma {:induction false} BeforeIs(a: Bytes, b: Bytes)
    ensures Before(a, b) <==> exists n :: Precedes(a, b, n)
  {
    if a == [] {
      assert Precedes(a, b, 0);
    } else if b != [] {
      BeforeIs(a[1..], b[1..]);
      if a[0] < b[0] { assert Precedes(a, b, 0); }
      if a[0] == b[0] {
        if n: nat :| Precedes(a[1..], b[1..], n) {
          assert a[..n + 1] == [a[0]] + a[1..][..n] && b[..n + 1] == [b[0]] + b[1..][..n];
          assert Precedes(a, b, n + 1);
        }
        if n: nat :| Precedes(a, b, n) {
          assert n > 0 && a[1..][..n - 1] == a[..n][1..] && b[1..][..n - 1] == b[..n][1..];
          assert Precedes(a[1..], b[1..], n - 1);
        }
      } else if n: nat :| Precedes(a, b, n) {
        FirstAgree(a, b, n);
      }
    }
  }

  predicate Sorted(s: seq<Bytes>) {
    forall i, j :: 0 <= i < j < |s| ==> Before(s[i], s[j])
  }

  lemma {:induction false} BeforeTotal(a: Bytes, b: Bytes)
    ensures Before(a, b) || Before(b, a)
  {
    if a != [] && b != [] { BeforeTotal(a[1..], b[1..]); }
  }

  lemma {:induction false} BeforeTransitive(a: Bytes, b: Bytes, c: Bytes)
    requires Before(a, b) && Before(b, c)
    ensures Before(a, c)
  {
    if a != [] && a[0] == b[0] && b[0] == c[0] { BeforeTransitive(a[1..], b[1..], c[1..]); }
  }

  predicate StrictlyBefore(a: Bytes, b: Bytes) { !Before(b, a) }

  function Sort(s: seq<Bytes>): (r: seq<Bytes>) { Sorting.Sort(StrictlyBefore, s) }

  lemma SortSorts(s: seq<Bytes>)
    ensures Sorted(Sort(s)) && multiset(Sort(s)) == multiset(s)
  {
    hide Before;
    forall a, b ensures StrictlyBefore(a, b) ==> !StrictlyBefore(b, a) { BeforeTotal(a, b); }
    forall a, b, c ensures !StrictlyBefore(b, a) && !StrictlyBefore(c, b) ==> !StrictlyBefore(c, a) {
      if Before(a, b) && Before(b, c) { BeforeTransitive(a, b, c); }
    }
    Sorting.SortSorts(StrictlyBefore, s);
  }

  /** Restricts the allowlist in force; only ever shrinks it. */
  class Allowlist {
    var active: seq<Bytes>

    constructor ()
      ensures active == CompiledAllowlist()
    {
      active := CompiledAllowlist();
    }

    method Narrow(subset: seq<Bytes>) returns (ok: bool)
      modifies this
      ensures ok <==> subset != [] && Restricts(subset, old(active))
      ensures NarrowedTo(old(active), subset, active)
    {
      if subset == [] { return false; }
      hide FormOk, WithinAny, Before;
      var narrowed: seq<Bytes> := [];
      for k := 0 to |subset|
        invariant Restricts(subset[..k], active) && Distinct(narrowed)
        invariant forall p :: p in narrowed <==> p in subset[..k]
      {
        assert subset[..k + 1] == subset[..k] + [subset[k]];
        if !FormOk(subset[k]) || !WithinAny(subset[k], active) {
          assert subset[k] in subset;
          return false;
        }
        if subset[k] !in narrowed { narrowed := narrowed + [subset[k]]; }
      }
      assert subset[..|subset|] == subset;
      SortSorts(narrowed);
      SameElements(Sort(narrowed), narrowed);
      active := Sort(narrowed);
      return true;
    }
  }

  predicate Distinct(s: seq<Bytes>) {
    forall i, j :: 0 <= i < j < |s| ==> s[i] != s[j]
  }

  lemma {:induction false} DistinctCounts(s: seq<Bytes>, x: Bytes)
    ensures Distinct(s) ==> multiset(s)[x] <= 1
  {
    if s != [] {
      assert s == s[..|s| - 1] + [s[|s| - 1]];
      DistinctCounts(s[..|s| - 1], x);
    }
  }

  lemma RepeatCounts(a: seq<Bytes>, i: nat, j: nat)
    requires i < j < |a|
    ensures a[i] == a[j] ==> multiset(a)[a[i]] >= 2
  {
    assert a == a[..j] + [a[j]] + a[j + 1..];
    assert a[i] in a[..j];
  }

  /** A rearrangement keeps the elements and their being distinct. */
  lemma SameElements(a: seq<Bytes>, b: seq<Bytes>)
    requires multiset(a) == multiset(b)
    ensures forall p :: p in a <==> p in b
    ensures Distinct(b) ==> Distinct(a)
  {
    forall p ensures p in a <==> p in b {
      assert p in a <==> p in multiset(a);
      assert p in b <==> p in multiset(b);
    }
    if Distinct(b) {
      forall i, j | 0 <= i < j < |a| ensures a[i] != a[j] {
        DistinctCounts(b, a[i]);
        RepeatCounts(a, i, j);
      }
    }
  }

  // ---- Whole runs ----

  /** What a program can do with paths: parse a string, join a name to path number `i` it already
      holds, or narrow the allowlist. */
  datatype Op = ParseOp(s: Bytes) | ChildOp(i: nat, name: Bytes) | NarrowOp(subset: seq<Bytes>)

  /** The allowlist in force and every path obtained so far. */
  datatype Authority = Authority(active: seq<Bytes>, held: seq<AuthorizedPath>)

  ghost predicate NarrowedTo(before: seq<Bytes>, subset: seq<Bytes>, after: seq<Bytes>) {
    if subset != [] && Restricts(subset, before) then
      Sorted(after) && Distinct(after) && forall p :: p in after <==> p in subset
    else after == before
  }

  function Gain(p: Option<AuthorizedPath>): seq<AuthorizedPath> {
    match p case None => [] case Some(q) => [q]
  }

  /** One operation takes `a` to `b`. */
  ghost predicate Step(a: Authority, op: Op, b: Authority) {
    match op
    case ParseOp(s) => b == Authority(a.active, a.held + Gain(Parse(s, a.active)))
    case ChildOp(i, name) =>
      b == if i < |a.held| then Authority(a.active, a.held + Gain(Child(a.held[i], name, a.active))) else a
    case NarrowOp(subset) => NarrowedTo(a.active, subset, b.active) && b.held == a.held
  }

  /** A run from the compiled allowlist. */
  ghost predicate IsRun(states: seq<Authority>, ops: seq<Op>) {
    && |states| == |ops| + 1
    && states[0] == Authority(CompiledAllowlist(), [])
    && forall k :: 0 <= k < |ops| ==> Step(states[k], ops[k], states[k + 1])
  }

  /** A path that may be served: well formed and within a compiled root. */
  predicate Confined(p: AuthorizedPath) {
    FormOk(p.path) && WithinAny(p.path, CompiledAllowlist())
  }

  ghost predicate Bounded(a: Authority) {
    && Restricts(a.active, CompiledAllowlist())
    && forall i :: 0 <= i < |a.held| ==> Confined(a.held[i])
  }

  /** Every string one allowlist accepts, the other accepts too. */
  ghost predicate NoWider(inner: seq<Bytes>, outer: seq<Bytes>) {
    forall s :: WithinAny(s, inner) ==> WithinAny(s, outer)
  }

  lemma RestrictsIsNoWider(inner: seq<Bytes>, outer: seq<Bytes>)
    requires Restricts(inner, outer)
    ensures NoWider(inner, outer)
  {
    hide FormOk, Within;
    forall s | WithinAny(s, inner) ensures WithinAny(s, outer) {
      var i :| 0 <= i < |inner| && Within(s, inner[i]);
      assert WithinAny(inner[i], outer);
      var j :| 0 <= j < |outer| && Within(inner[i], outer[j]);
      WithinTransitive(s, inner[i], outer[j]);
    }
  }

  lemma NarrowedIsNoWider(before: seq<Bytes>, subset: seq<Bytes>, after: seq<Bytes>)
    requires NarrowedTo(before, subset, after)
    ensures NoWider(after, before)
    ensures Restricts(after, before) || after == before
  {
    hide FormOk, WithinAny, Sorted, Distinct;
    if subset != [] && Restricts(subset, before) {
      forall i | 0 <= i < |after| ensures FormOk(after[i]) && WithinAny(after[i], before) {
        assert after[i] in subset;
      }
      RestrictsIsNoWider(after, before);
    }
  }

  lemma RestrictsCompose(a: seq<Bytes>, b: seq<Bytes>, c: seq<Bytes>)
    requires Restricts(a, b) && NoWider(b, c)
    ensures Restricts(a, c)
  {
    hide FormOk, WithinAny;
  }

  /** A plain name right under the volume root makes a well-formed path. */
  lemma UnderVolumeForm(name: Bytes)
    requires NameOk(name)
    ensures FormOk(VolumePrefix() + name)
    ensures Segments(VolumePrefix() + name) == [Ascii("sdcard"), name]
  {
    var s := VolumePrefix() + name;
    assert VolumePrefix()[1..] == Ascii("sdcard") + [SLASH];
    assert s[1..] == Ascii("sdcard") + [SLASH] + name;
    hide Split;
    SplitConcat(Ascii("sdcard"), name);
    SplitPlainName(Ascii("sdcard"));
    SplitPlainName(name);
    assert !HasNul(s);
  }

  lemma CompiledNames()
    ensures NameOk(Ascii("DCIM")) && NameOk(Ascii("Download")) && NameOk(Ascii("Movies"))
    ensures NameOk(Ascii("Music")) && NameOk(Ascii("Pictures")) && NameOk(Ascii("Recordings"))
  {
  }

  lemma CompiledIsWellFormed()
    ensures Restricts(CompiledAllowlist(), CompiledAllowlist())
  {
    hide FormOk, NameOk, VolumePrefix;
    CompiledNames();
    UnderVolumeForm(Ascii("DCIM"));
    UnderVolumeForm(Ascii("Download"));
    UnderVolumeForm(Ascii("Movies"));
    UnderVolumeForm(Ascii("Music"));
    UnderVolumeForm(Ascii("Pictures"));
    UnderVolumeForm(Ascii("Recordings"));
    hide Ascii;
    var roots := CompiledAllowlist();
    forall i | 0 <= i < |roots| ensures WithinAny(roots[i], roots) {
      assert Within(roots[i], roots[i]);
    }
  }

  lemma StepKeepsBounded(a: Authority, op: Op, b: Authority)
    requires Bounded(a) && Step(a, op, b)
    ensures Bounded(b) && NoWider(b.active, a.active)
    ensures a.held <= b.held
  {
    hide FormOk, WithinAny, CompiledAllowlist, Sorted, Distinct;
    RestrictsIsNoWider(a.active, CompiledAllowlist());
    match op {
      case ParseOp(s) =>
      case ChildOp(i, name) =>
      case NarrowOp(subset) =>
        NarrowedIsNoWider(a.active, subset, b.active);
        if b.active != a.active { RestrictsCompose(b.active, a.active, CompiledAllowlist()); }
    }
  }

  /** In every run of parsing, joining and narrowing, every path ever obtained is confined, and what
      the allowlist accepts only ever shrinks. */
  lemma {:induction false} RunIsConfined(states: seq<Authority>, ops: seq<Op>, j: nat, k: nat)
    requires IsRun(states, ops) && j <= k <= |ops|
    ensures Bounded(states[k]) && NoWider(states[k].active, states[j].active)
    decreases k
  {
    hide Step, CompiledAllowlist, WithinAny, FormOk;
    if k == 0 {
      CompiledIsWellFormed();
    } else {
      RunIsConfined(states, ops, if j < k then j else k - 1, k - 1);
      StepKeepsBounded(states[k - 1], ops[k - 1], states[k]);
    }
  }

  /** A confined path reaches nothing outside a compiled root and has only plain segments. */
  lemma ConfinedMeans(p: AuthorizedPath)
    requires Confined(p)
    ensures AllPlain(Segments(p.path)) && !HasNul(p.path)
    ensures exists i :: 0 <= i < 6 && Segments(CompiledAllowlist()[i]) <= Segments(p.path)
  {
    hide Split;
    var roots := CompiledAllowlist();
    var i :| 0 <= i < 6 && Within(p.path, roots[i]);
    CompiledIsWellFormed();
    assert FormOk(roots[i]);
    WithinIsSegmentPrefix(p.path, roots[i]);
  }
}
