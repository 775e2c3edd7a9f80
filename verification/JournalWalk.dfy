/** What the walk of the entry array chain comes to, on any bytes and on a file that grows. */
module JournalWalk {
  import opened ByteStrings
  import opened Options
  import opened JournalFormat
  import opened JournalReader
  import opened LittleEndian
  import Seqs

  /** One array of a chain and where it stands. */
  datatype Link = Link(at: nat, table: EntryArray)

  /** `links` are the arrays met from `at` on, each named by the one before. */
  ghost predicate Chained(f: JournalFile, at: nat, links: seq<Link>)
    decreases |links|
  {
    links != [] ==>
      && at != 0 && links[0].at == at
      && ArrayAt(f, at).0.Whole? && ArrayAt(f, at).1 == Some(links[0].table)
      && Chained(f, links[0].table.next, links[1..])
  }

  /** The offset the chain names after `links`. */
  function EndOf(at: nat, links: seq<Link>): nat
    decreases |links|
  {
    if links == [] then at else EndOf(links[0].table.next, links[1..])
  }

  ghost predicate AllApart(links: seq<Link>) {
    forall i, j :: 0 <= i < j < |links| ==> links[i].at != links[j].at
  }

  /** All items of the chain in order. */
  function Flat(links: seq<Link>): seq<nat>
    decreases |links|
  {
    if links == [] then [] else links[0].table.items + Flat(links[1..])
  }

  function UpToZero(s: seq<nat>): (r: seq<nat>)
    ensures |r| <= |s| && r == s[..|r|] && (|r| < |s| ==> s[|r|] == 0)
    ensures forall i :: 0 <= i < |r| ==> r[i] != 0
  {
    if s == [] || s[0] == 0 then [] else [s[0]] + UpToZero(s[1..])
  }

  function Cap(s: seq<nat>, n: nat): seq<nat> { if |s| > n then s[..n] else s }

  /** A chain is at its end: it names nothing, or an array not yet written. */
  ghost predicate Ended(f: JournalFile, at: nat) { at == 0 || ArrayAt(f, at).0.Truncated? }

  lemma {:induction false} TakeIs(items: seq<nat>, got: seq<nat>, limit: nat)
    requires |got| < limit
    ensures
      var all := got + UpToZero(items);
      TakeItems(items, got, limit) == (Cap(all, limit), 0 in items || |all| >= limit)
    decreases |items|
  {
    if items == [] || items[0] == 0 {
      Seqs.TakeAll(got);
    } else {
      var g := got + [items[0]];
      Seqs.Assoc(got, [items[0]], UpToZero(items[1..]));
      if |g| < limit {
        TakeIs(items[1..], g, limit);
      } else {
        Seqs.AppendParts(g, UpToZero(items[1..]));
        Seqs.TakeAll(g);
      }
    }
  }

  lemma {:induction false} NoZero(s: seq<nat>)
    ensures 0 !in s <==> UpToZero(s) == s
    decreases |s|
  {
    if s != [] { NoZero(s[1..]); }
  }

  lemma {:induction false} UpToZeroOfAppend(a: seq<nat>, b: seq<nat>)
    ensures UpToZero(a + b) == if 0 in a then UpToZero(a) else a + UpToZero(b)
    decreases |a|
  {
    if a == [] {
      Seqs.TakeAll(b);
    } else {
      assert (a + b)[1..] == a[1..] + b;
      UpToZeroOfAppend(a[1..], b);
    }
  }

  /** Whatever the bytes, a walk that succeeds has met arrays at different aligned places inside the
      written region, each named by the one before, and gives their items in order up to the first
      zero slot and the header's count; it stopped at that slot or that count, or the chain ended. */
  lemma WalkIsChain(f: JournalFile) returns (links: seq<Link>)
    requires EntryOffsets(f).Some?
    ensures
      var offs := EntryOffsets(f).value;
      && Chained(f, f.hdr.entryArrayOffset, links) && AllApart(links)
      && offs == Cap(UpToZero(Flat(links)), f.hdr.nEntries)
      && |offs| <= f.hdr.nEntries && 0 !in offs
      && (0 in Flat(links) || |offs| == f.hdr.nEntries || Ended(f, EndOf(f.hdr.entryArrayOffset, links)))
      && forall i :: 0 <= i < |links| ==>
           links[i].at % ALIGNMENT == 0 && f.hdr.headerSize <= links[i].at <= f.usedEnd
  {
    hide WalkFrom, ArrayAt;
    if f.hdr.nEntries == 0 {
      links := [];
    } else {
      links := ChainFrom(f, f.hdr.entryArrayOffset, {}, []);
      Seqs.TakeAll(UpToZero(Flat(links)));
      ChainInside(f, f.hdr.entryArrayOffset, links);
    }
  }

  lemma {:induction false} ChainInside(f: JournalFile, at: nat, links: seq<Link>)
    requires Chained(f, at, links)
    ensures forall i :: 0 <= i < |links| ==>
              links[i].at % ALIGNMENT == 0 && f.hdr.headerSize <= links[i].at <= f.usedEnd
    decreases |links|
  {
    if links != [] {
      ReadIsInside(f, at, ENTRY_ARRAY, MAX_ARRAY);
      ChainInside(f, links[0].table.next, links[1..]);
      forall i | 0 <= i < |links|
        ensures links[i].at % ALIGNMENT == 0 && f.hdr.headerSize <= links[i].at <= f.usedEnd
      {
        if i > 0 { assert links[i] == links[1..][i - 1]; }
      }
    }
  }

  lemma {:induction false} ChainFrom(f: JournalFile, at: nat, visited: set<nat>, got: seq<nat>)
    returns (links: seq<Link>)
    requires |got| < f.hdr.nEntries && WalkFrom(f, at, visited, got).Some?
    ensures Chained(f, at, links) && AllApart(links)
    ensures forall i :: 0 <= i < |links| ==> links[i].at !in visited
    ensures
      var r := WalkFrom(f, at, visited, got).value;
      && r == Cap(got + UpToZero(Flat(links)), f.hdr.nEntries)
      && (0 in Flat(links) || |r| == f.hdr.nEntries || Ended(f, EndOf(at, links)))
    decreases Unvisited(f, visited)
  {
    hide ReadObject, ArrayOf, TakeItems;
    links := [];
    Seqs.TakeAll(got);
    if at != 0 && !ArrayAt(f, at).0.Truncated? {
      var a := ArrayAt(f, at).1.value;
      var limit := f.hdr.nEntries;
      TakeIs(a.items, got, limit);
      var (g, stop) := TakeItems(a.items, got, limit);
      if stop {
        links := [Link(at, a)];
        Seqs.TakeAll(a.items);
      } else {
        ReadIsInside(f, at, ENTRY_ARRAY, MAX_ARRAY);
        assert at in Unvisited(f, visited) && at !in Unvisited(f, visited + {at});
        var rest := ChainFrom(f, a.next, visited + {at}, g);
        links := [Link(at, a)] + rest;
        assert links[1..] == rest;
        FlatCons(got, a.items, rest);
        ApartCons(Link(at, a), rest, visited);
      }
    }
  }

  lemma FlatCons(got: seq<nat>, items: seq<nat>, rest: seq<Link>)
    requires 0 !in items
    ensures got + UpToZero(items) == got + items
    ensures got + UpToZero(items + Flat(rest)) == got + items + UpToZero(Flat(rest))
  {
    NoZero(items);
    UpToZeroOfAppend(items, Flat(rest));
    Seqs.Assoc(got, items, UpToZero(Flat(rest)));
  }

  lemma ApartCons(l: Link, rest: seq<Link>, visited: set<nat>)
    requires AllApart(rest) && l.at !in visited
    requires forall i :: 0 <= i < |rest| ==> rest[i].at !in visited + {l.at}
    ensures AllApart([l] + rest)
    ensures forall i :: 0 <= i < |[l] + rest| ==> ([l] + rest)[i].at !in visited
  {
    var links := [l] + rest;
    assert forall i :: 0 < i < |links| ==> links[i] == rest[i - 1];
  }

  ghost predicate Fresh(links: seq<Link>, visited: set<nat>) {
    forall i :: 0 <= i < |links| ==> links[i].at !in visited
  }

  lemma ApartRest(links: seq<Link>, visited: set<nat>)
    requires links != [] && AllApart(links) && Fresh(links, visited)
    ensures AllApart(links[1..]) && Fresh(links[1..], visited + {links[0].at}) && links[0].at !in visited
  {
    assert forall i :: 0 <= i < |links[1..]| ==> links[1..][i] == links[i + 1];
  }

  /** And a chain that ends is walked, whether it names nothing more or an array not yet written. */
  lemma {:induction false} ChainIsWalked(f: JournalFile, at: nat, visited: set<nat>, got: seq<nat>, links: seq<Link>)
    requires |got| < f.hdr.nEntries && Chained(f, at, links) && AllApart(links) && Fresh(links, visited)
    requires Ended(f, EndOf(at, links)) && (EndOf(at, links) == 0 || EndOf(at, links) !in visited)
    ensures WalkFrom(f, at, visited, got) == Some(Cap(got + UpToZero(Flat(links)), f.hdr.nEntries))
    decreases |links|
  {
    hide ArrayAt, TakeItems, AllApart, Fresh, Cap, UpToZero;
    if links == [] {
      CapOfNothing(got, f.hdr.nEntries);
    } else {
      var a, rest := links[0].table, links[1..];
      TakeIs(a.items, got, f.hdr.nEntries);
      ApartRest(links, visited);
      if TakeItems(a.items, got, f.hdr.nEntries).1 {
        CapOfMore(got, a.items, Flat(rest), f.hdr.nEntries);
      } else {
        FlatCons(got, a.items, rest);
        CapIdle(got + a.items, f.hdr.nEntries);
        ChainIsWalked(f, a.next, visited + {at}, got + a.items, rest);
      }
    }
  }

  lemma CapOfNothing(got: seq<nat>, n: nat)
    requires |got| < n
    ensures Cap(got + UpToZero([]), n) == got
  {
    Seqs.TakeAll(got);
  }

  lemma CapIdle(s: seq<nat>, n: nat)
    requires |s| < n
    ensures Cap(s, n) == s
  {
  }

  lemma CapOfMore(got: seq<nat>, a: seq<nat>, b: seq<nat>, n: nat)
    requires 0 in a || |got + UpToZero(a)| >= n
    ensures Cap(got + UpToZero(a + b), n) == Cap(got + UpToZero(a), n)
  {
    hide UpToZero;
    UpToZeroOfAppend(a, b);
    if 0 !in a {
      NoZero(a);
      Seqs.Assoc(got, a, UpToZero(b));
      Seqs.DropOfAppend(got + a, UpToZero(b), n);
      Seqs.TakeAll(got + a);
    }
  }

  // ---- Two snapshots of one growing file ----

  /** Slots and the link to the next array are only ever filled. */
  ghost predicate Fills(a: EntryArray, b: EntryArray) {
    && |b.items| == |a.items|
    && (forall i :: 0 <= i < |a.items| && a.items[i] != 0 ==> b.items[i] == a.items[i])
    && (a.next != 0 ==> b.next == a.next)
  }

  /** Every array that could be read can still be, with only unfilled slots changed. */
  ghost predicate ArraysFill(f: JournalFile, g: JournalFile) {
    && f.hdr.nEntries <= g.hdr.nEntries
    && (f.hdr.entryArrayOffset != 0 ==> g.hdr.entryArrayOffset == f.hdr.entryArrayOffset)
    && forall at :: ArrayAt(f, at).1.Some? ==>
         ArrayAt(g, at).0.Whole? && ArrayAt(g, at).1.Some?
         && Fills(ArrayAt(f, at).1.value, ArrayAt(g, at).1.value)
  }

  /** A word is written only while it is zero. */
  predicate WordKept(a: Bytes, b: Bytes) { a == b || Get(a) == 0 }

  /** So is each word of `stride` bytes of `a`. */
  predicate WordsKept(a: Bytes, b: Bytes, stride: nat)
    requires |a| == |b| && stride > 0
    decreases |a|
  {
    |a| < stride || (WordKept(a[..stride], b[..stride]) && WordsKept(a[stride..], b[stride..], stride))
  }

  /** What a writer does to the bytes of an entry array: its header stays, and a slot or the link to the next
      array is written once. */
  predicate ArrayGrew(a: Bytes, b: Bytes, compact: bool) {
    && |a| == |b| && |a| >= OBJECT_HEADER && a[..OBJECT_HEADER] == b[..OBJECT_HEADER]
    && (|a| >= ARRAY_ITEMS ==>
          && WordKept(a[16..ARRAY_ITEMS], b[16..ARRAY_ITEMS])
          && WordsKept(a[ARRAY_ITEMS..], b[ARRAY_ITEMS..], ArrayStride(compact)))
  }

  /** `g` is a later snapshot of the file in `f`, told from its bytes: it is no shorter and of the same
      layout, no fewer entries are committed, the chain starts where it did, and the arrays that stood
      whole in `f` stand there still, as they were or further filled. */
  ghost predicate Grew(f: JournalFile, g: JournalFile) {
    && f.hdr.nEntries <= g.hdr.nEntries && f.hdr.flags == g.hdr.flags && f.hdr.headerSize == g.hdr.headerSize
    && (f.hdr.entryArrayOffset != 0 ==> g.hdr.entryArrayOffset == f.hdr.entryArrayOffset)
    && f.usedEnd <= g.usedEnd && |f.data| <= |g.data|
    && forall at: nat :: ArrayBytes(f, at).Some? ==>
         var a := ArrayBytes(f, at).value;
         at + |a| <= |g.data| && ArrayGrew(a, g.data[at..at + |a|], f.hdr.Compact())
  }

  /** The entry array that stands whole at `at`. */
  function ArrayBytes(f: JournalFile, at: nat): (b: Option<Bytes>) {
    var o := ReadObject(f, at, 6, 0x100_0000);
    if o.Whole? then Some(o.bytes) else None
  }

  lemma {:induction false} WordsFill(a: Bytes, b: Bytes, compact: bool)
    requires |a| == |b| && WordsKept(a, b, ArrayStride(compact))
    ensures
      var x, y := Slots(a, ArrayStride(compact), compact), Slots(b, ArrayStride(compact), compact);
      |x| == |y| && forall i :: 0 <= i < |x| && x[i] != 0 ==> y[i] == x[i]
    decreases |a|
  {
    hide Get;
    var n := ArrayStride(compact);
    if |a| >= n {
      WordsFill(a[n..], b[n..], compact);
      var x, y := Slots(a[n..], n, compact), Slots(b[n..], n, compact);
      assert Slots(a, n, compact) == [Slot(a, compact)] + x && Slots(b, n, compact) == [Slot(b, compact)] + y;
      SlotIsFirst(a, compact);
      SlotIsFirst(b, compact);
    }
  }

  lemma SlotIsFirst(a: Bytes, compact: bool)
    requires |a| >= ArrayStride(compact)
    ensures Slot(a, compact) == Get(a[..ArrayStride(compact)])
  {
    hide Get;
    assert a[0..0 + ArrayStride(compact)] == a[..ArrayStride(compact)];
  }

  lemma GrownArray(f: JournalFile, g: JournalFile, at: nat)
    requires Grew(f, g) && ArrayAt(f, at).1.Some?
    ensures ArrayAt(g, at).0.Whole? && ArrayAt(g, at).1.Some?
    ensures Fills(ArrayAt(f, at).1.value, ArrayAt(g, at).1.value)
  {
    hide WordsKept, Get, Slots, WordKept;
    var a := ArrayBytes(f, at).value;
    var b := g.data[at..at + |a|];
    assert ArrayGrew(a, b, f.hdr.Compact());
    StillWhole(f, g, at, b);
    hide ReadObject;
    WordsFill(a[ARRAY_ITEMS..], b[ARRAY_ITEMS..], f.hdr.Compact());
    NextFills(a, b);
  }

  lemma NextFills(a: Bytes, b: Bytes)
    requires |a| == |b| && |a| >= ARRAY_ITEMS && WordKept(a[16..ARRAY_ITEMS], b[16..ARRAY_ITEMS])
    ensures Word(a, 16) != 0 ==> Word(b, 16) == Word(a, 16)
  {
    hide Get;
  }

  /** An object whose header stays can be read as long as the file does not shrink. */
  lemma StillWhole(f: JournalFile, g: JournalFile, at: nat, b: Bytes)
    requires f.hdr.headerSize == g.hdr.headerSize && f.usedEnd <= g.usedEnd && ArrayBytes(f, at).Some?
    requires at + |b| <= |g.data| && b == g.data[at..at + |b|]
    requires
      var a := ArrayBytes(f, at).value;
      |a| == |b| && |a| >= OBJECT_HEADER && a[..OBJECT_HEADER] == b[..OBJECT_HEADER]
    ensures ReadObject(g, at, ENTRY_ARRAY, MAX_ARRAY) == Whole(b)
  {
    hide Get;
    var a := ArrayBytes(f, at).value;
    assert f.data[at..at + OBJECT_HEADER] == a[..OBJECT_HEADER];
    assert g.data[at..at + OBJECT_HEADER] == b[..OBJECT_HEADER];
  }

  /** The offsets an earlier snapshot gives are the first of those any later one gives. */
  lemma LaterExtends(f: JournalFile, g: JournalFile)
    requires Grew(f, g) && EntryOffsets(f).Some? && EntryOffsets(g).Some?
    ensures EntryOffsets(f).value <= EntryOffsets(g).value
  {
    hide ArrayAt, WalkFrom;
    GrewFills(f, g);
    if f.hdr.nEntries > 0 {
      if f.hdr.entryArrayOffset == 0 {
        WalkNothing(f);
      } else {
        WalkExtends(f, g, f.hdr.entryArrayOffset, {}, []);
      }
    }
  }

  lemma GrewFills(f: JournalFile, g: JournalFile)
    requires Grew(f, g)
    ensures ArraysFill(f, g)
  {
    hide ArrayAt;
    forall at | ArrayAt(f, at).1.Some?
      ensures ArrayAt(g, at).0.Whole? && ArrayAt(g, at).1.Some?
      ensures Fills(ArrayAt(f, at).1.value, ArrayAt(g, at).1.value)
    {
      GrownArray(f, g, at);
    }
  }

  lemma WalkNothing(f: JournalFile)
    ensures WalkFrom(f, 0, {}, []) == Some([])
  {
  }

  lemma {:induction false} WalkExtends(f: JournalFile, g: JournalFile, at: nat, visited: set<nat>, got: seq<nat>)
    requires ArraysFill(f, g) && |got| < f.hdr.nEntries
    requires WalkFrom(f, at, visited, got).Some? && WalkFrom(g, at, visited, got).Some?
    ensures WalkFrom(f, at, visited, got).value <= WalkFrom(g, at, visited, got).value
    decreases Unvisited(f, visited)
  {
    hide ReadObject, ArrayOf, TakeItems;
    if at == 0 || ArrayAt(f, at).0.Truncated? {
      var links := ChainFrom(g, at, visited, got);
      CapExtends(got, UpToZero(Flat(links)), g.hdr.nEntries);
    } else {
      var a, b := ArrayAt(f, at).1.value, ArrayAt(g, at).1.value;
      var n, m := f.hdr.nEntries, g.hdr.nEntries;
      TakeIs(a.items, got, n);
      TakeIs(b.items, got, m);
      FillsExtends(a.items, b.items);
      var (p, stop) := TakeItems(a.items, got, n);
      var (q, stop') := TakeItems(b.items, got, m);
      CapsExtend(got, UpToZero(a.items), UpToZero(b.items), n, m);
      if stop {
        if !stop' {
          var links := ChainFrom(g, b.next, visited + {at}, q);
          CapExtends(q, UpToZero(Flat(links)), m);
        }
      } else {
        NoZero(a.items);
        NoZero(b.items);
        assert a.items == b.items;
        ReadIsInside(f, at, ENTRY_ARRAY, MAX_ARRAY);
        assert at in Unvisited(f, visited) && at !in Unvisited(f, visited + {at});
        if stop' {
        } else if a.next == 0 {
          var links := ChainFrom(g, b.next, visited + {at}, q);
          CapExtends(q, UpToZero(Flat(links)), m);
        } else {
          WalkExtends(f, g, a.next, visited + {at}, p);
        }
      }
    }
  }

  lemma CapExtends(a: seq<nat>, b: seq<nat>, n: nat)
    requires |a| < n
    ensures a <= Cap(a + b, n)
  {
  }

  lemma CapsExtend(got: seq<nat>, a: seq<nat>, b: seq<nat>, n: nat, m: nat)
    requires a <= b && n <= m && |got| < n
    ensures Cap(got + a, n) <= Cap(got + b, m)
  {
  }

  lemma {:induction false} FillsExtends(a: seq<nat>, b: seq<nat>)
    requires |a| == |b| && forall i :: 0 <= i < |a| && a[i] != 0 ==> b[i] == a[i]
    ensures UpToZero(a) <= UpToZero(b) && (0 !in a ==> a == b)
    decreases |a|
  {
    if a != [] && a[0] != 0 {
      assert forall i :: 0 <= i < |a[1..]| && a[1..][i] != 0 ==> b[1..][i] == a[1..][i];
      FillsExtends(a[1..], b[1..]);
    }
  }
}
