/** Which paths the broker accepts, spelled out from the roots and the names below them. */
module PathShape {
  import opened ByteStrings
  import opened Options
  import opened DevicePath

  /** A name that can stand in a path: something, but not the directory itself or its parent, with no NUL and no
      separator in it. */
  predicate IsName(name: Bytes) {
    name != [] && name != Ascii(".") && name != Ascii("..") && 0 !in name && 47 !in name
  }

  predicate AllNames(names: seq<Bytes>) {
    forall i :: 0 <= i < |names| ==> IsName(names[i])
  }

  /** `root` and then each name in turn. */
  function Reach(root: Bytes, names: seq<Bytes>): (p: Bytes) {
    if names == [] then root else Reach(root, names[..|names| - 1]) + [47] + names[|names| - 1]
  }

  lemma NameIs(name: Bytes)
    ensures NameOk(name) <==> IsName(name)
  {
    assert Ascii(".") == DOT && Ascii("..") == DOTDOT;
  }

  /** Going down by names from a root stays accepted. */
  lemma {:induction false} ReachIsAccepted(root: Bytes, names: seq<Bytes>, active: seq<Bytes>)
    requires FormOk(root) && root in active && AllNames(names)
    ensures FormOk(Reach(root, names)) && WithinAny(Reach(root, names), active)
  {
    hide FormOk, WithinAny, IsName, NameOk;
    if names == [] {
      RootIsWithin(root, active);
    } else {
      var front, name := names[..|names| - 1], names[|names| - 1];
      ReachIsAccepted(root, front, active);
      var a := AuthorizedPath(Reach(root, front));
      assert IsName(name);
      NameIs(name);
      ChildExtends(a, name, active);
      ChildParses(a, name, active);
    }
  }

  lemma ChildParses(a: AuthorizedPath, name: Bytes, active: seq<Bytes>)
    requires Child(a, name, active).Some?
    ensures FormOk(a.path + [47] + name) && WithinAny(a.path + [47] + name, active)
  {
    hide FormOk, WithinAny, NameOk;
  }

  lemma RootIsWithin(root: Bytes, active: seq<Bytes>)
    requires root in active
    ensures WithinAny(root, active)
  {
    var i :| 0 <= i < |active| && active[i] == root;
    assert Within(root, active[i]);
  }

  ghost predicate NoneHolds(segs: seq<Bytes>, b: byte) {
    forall i :: 0 <= i < |segs| ==> b !in segs[i]
  }

  /** No segment holds a separator, nor any byte that is not there. */
  lemma {:induction false} SegmentsAvoid(s: Bytes, b: byte)
    requires b == SLASH || b !in s
    ensures NoneHolds(Split(s), b)
  {
    if s != [] {
      SegmentsAvoid(s[1..], b);
      SplitStep(s);
      var rest := Split(s[1..]);
      hide Split;
      if s[0] == SLASH {
        assert forall i :: 1 <= i < |Split(s)| ==> Split(s)[i] == rest[i - 1];
      } else {
        assert forall i :: 1 <= i < |Split(s)| ==> Split(s)[i] == rest[i];
        assert b !in rest[0] && s[0] != b;
      }
    }
  }

  lemma {:induction false} ReachJoins(root: Bytes, names: seq<Bytes>)
    requires names != []
    ensures Reach(root, names) == root + [47] + Join(names)
  {
    var n := |names| - 1;
    if n == 0 {
      assert names[..0] == [];
    } else {
      ReachJoins(root, names[..n]);
      assert names == names[..n] + [names[n]];
      JoinConcat(names[..n], [names[n]]);
    }
  }

  /** What lies beneath a well-formed root, and is itself well formed, is reached by names. */
  lemma WithinIsReached(s: Bytes, root: Bytes) returns (names: seq<Bytes>)
    requires FormOk(s) && FormOk(root) && Within(s, root)
    ensures AllNames(names) && s == Reach(root, names)
  {
    names := [];
    if s != root {
      var t := s[|root| + 1..];
      assert s == root + [47] + t && s[1..] == root[1..] + [SLASH] + t;
      names := Split(t);
      SplitConcat(root[1..], t);
      SegmentsAvoid(t, SLASH);
      NoNulBelow(s, t);
      SegmentsAvoid(t, 0);
      PlainBelow(s, Split(root[1..]), names);
      NamesArePlain(names);
      hide Split, FormOk, Join;
      JoinSplit(t);
      ReachJoins(root, names);
    }
  }

  lemma NoNulBelow(s: Bytes, t: Bytes)
    requires !HasNul(s) && |t| <= |s| && t == s[|s| - |t|..]
    ensures 0 !in t
  {
    assert forall k :: 0 <= k < |t| ==> t[k] == s[|s| - |t| + k];
  }

  lemma PlainBelow(s: Bytes, front: seq<Bytes>, names: seq<Bytes>)
    requires FormOk(s) && Segments(s) == front + names
    ensures AllPlain(names)
  {
    hide Split, PlainSegment;
    forall i | 0 <= i < |names| ensures PlainSegment(names[i]) { assert Segments(s)[|front| + i] == names[i]; }
  }

  lemma NamesArePlain(names: seq<Bytes>)
    requires AllPlain(names) && NoneHolds(names, SLASH) && NoneHolds(names, 0)
    ensures AllNames(names)
  {
    assert Ascii(".") == DOT && Ascii("..") == DOTDOT;
    hide Ascii;
  }

  /** A string is accepted exactly when it is a root of the allowlist in force followed by names: any number of
      them, each after a separator. */
  lemma AcceptedIsReached(s: Bytes, active: seq<Bytes>)
    requires forall i :: 0 <= i < |active| ==> FormOk(active[i])
    ensures Parse(s, active).Some? <==>
              exists root, names :: root in active && AllNames(names) && s == Reach(root, names)
    ensures Parse(s, active).Some? ==> Parse(s, active) == Some(AuthorizedPath(s))
  {
    hide FormOk, AllNames, Within;
    if Parse(s, active).Some? {
      var i :| 0 <= i < |active| && Within(s, active[i]);
      var names := WithinIsReached(s, active[i]);
      assert active[i] in active;
    }
    if root, names :| root in active && AllNames(names) && s == Reach(root, names) {
      var i :| 0 <= i < |active| && active[i] == root;
      ReachIsAccepted(root, names, active);
    }
  }

  function Folder(name: string): Bytes { Ascii("/sdcard/") + Ascii(name) }

  /** At first that is one of six folders of the shared storage and anything below them. */
  lemma AcceptedAtFirst(s: Bytes)
    ensures Parse(s, CompiledAllowlist()).Some? <==>
              exists root, names ::
                && root in [Folder("DCIM"), Folder("Download"), Folder("Movies"), Folder("Music"), Folder("Pictures"),
                            Folder("Recordings")]
                && AllNames(names) && s == Reach(root, names)
  {
    hide FormOk, AllNames, Ascii;
    CompiledIsWellFormed();
    AcceptedIsReached(s, CompiledAllowlist());
  }

  /** And what may be served is just that. */
  lemma ConfinedIsReached(p: AuthorizedPath)
    ensures Confined(p) <==> Parse(p.path, CompiledAllowlist()) == Some(p)
  {
    hide FormOk, WithinAny, CompiledAllowlist;
  }
}
