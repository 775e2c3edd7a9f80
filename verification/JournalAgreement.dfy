/** The search of built files gives exactly the entries built that match, in order, for either layout. */
module JournalAgreement {
  import opened Results
  import opened JournalReader
  import opened JournalWalk
  import opened JournalLayout
  import opened JournalBuilder
  import opened JournalRoundTrip
  import opened JournalEntries
  import Seqs
  import Sorting

  // ---- What should be found ----

  /** How many entries the file commits to. */
  function Committed(b: Builder): (m: nat)
    ensures m <= |b.entries|
  {
    Min(Count(b), |b.entries|)
  }

  /** The matches among entries `i` to `m`, keyed by their index. */
  function ExpectedFrom(b: Builder, i: nat, m: nat, flt: Filter, fileIndex: nat): (r: Result<seq<Found>, Failure>)
    requires i <= m <= |b.entries|
    decreases m - i
  {
    if i == m then Ok([])
    else
      match Expected(b.ids.seqnum, b.entries[i], flt)
      case Failed(why) => Err(why)
      case Passed => ExpectedFrom(b, i + 1, m, flt, fileIndex)
      case Matched(entry) =>
        Prefixed([Found(b.entries[i].seqnum, b.entries[i].realtime, fileIndex, i, entry)],
                 ExpectedFrom(b, i + 1, m, flt, fileIndex))
  }

  function ExpectedAll(bs: seq<Builder>, flt: Filter, first: nat): (r: Result<seq<Found>, Failure>)
    decreases |bs|
  {
    if bs == [] then Ok([])
    else
      match ExpectedFrom(bs[0], 0, Committed(bs[0]), flt, first)
      case Err(why) => Err(why)
      case Ok(found) => Prefixed(found, ExpectedAll(bs[1..], flt, first + 1))
  }

  /** The entries of every builder that match, by sequence number, time, file and index. */
  function ExpectedEntries(bs: seq<Builder>, flt: Filter): (r: Result<seq<Entry>, Failure>) {
    if !FilterOk(flt) then Err(BadFilter)
    else
      match ExpectedAll(bs, flt, 0)
      case Err(why) => Err(why)
      case Ok(found) => Ok(Plain(Sort(found)))
  }

  // ---- Keys may be renamed in order ----

  type Place = (nat, nat) -> nat

  function Move(place: Place, x: Found): Found { x.(offset := place(x.fileIndex, x.offset)) }

  function MoveAll(place: Place, s: seq<Found>): (r: seq<Found>)
    ensures |r| == |s|
    decreases |s|
  {
    if s == [] then [] else [Move(place, s[0])] + MoveAll(place, s[1..])
  }

  ghost predicate KeepsOrder(place: Place, s: seq<Found>) {
    forall a, b :: a in s && b in s ==> (Precedes(a, b) <==> Precedes(Move(place, a), Move(place, b)))
  }

  lemma {:induction false} InsertMoves(place: Place, x: Found, s: seq<Found>)
    requires KeepsOrder(place, [x] + s)
    ensures Sorting.Insert(Precedes, Move(place, x), MoveAll(place, s))
            == MoveAll(place, Sorting.Insert(Precedes, x, s))
    decreases |s|
  {
    hide Precedes, Move;
    if s == [] {
    } else if Precedes(x, s[0]) {
      assert x in [x] + s && s[0] in [x] + s;
      assert ([x] + s)[1..] == s;
    } else {
      assert x in [x] + s && s[0] in [x] + s;
      assert forall a :: a in [x] + s[1..] ==> a in [x] + s;
      InsertMoves(place, x, s[1..]);
      assert ([s[0]] + Sorting.Insert(Precedes, x, s[1..]))[1..] == Sorting.Insert(Precedes, x, s[1..]);
      assert MoveAll(place, s)[1..] == MoveAll(place, s[1..]);
    }
  }

  lemma {:induction false} SortMoves(place: Place, s: seq<Found>)
    requires KeepsOrder(place, s)
    ensures Sort(MoveAll(place, s)) == MoveAll(place, Sort(s))
    decreases |s|
  {
    hide Precedes, Move, Sorting.Insert;
    if s != [] {
      var rest := s[1..];
      SortMoves(place, rest);
      SortSorts(rest);
      SameMembers(rest, Sort(rest));
      InsertMoves(place, s[0], Sort(rest));
      assert MoveAll(place, s)[1..] == MoveAll(place, rest);
    }
  }

  lemma SameMembers(a: seq<Found>, b: seq<Found>)
    requires multiset(a) == multiset(b)
    ensures forall x :: x in b ==> x in a
  {
    forall x | x in b ensures x in a { assert x in multiset(b); }
  }

  lemma {:induction false} PlainMoves(place: Place, s: seq<Found>)
    ensures Plain(MoveAll(place, s)) == Plain(s)
    decreases |s|
  {
    if s != [] {
      PlainMoves(place, s[1..]);
      assert MoveAll(place, s)[1..] == MoveAll(place, s[1..]);
    }
  }

  lemma {:induction false} MoveAppend(place: Place, a: seq<Found>, b: seq<Found>)
    ensures MoveAll(place, a + b) == MoveAll(place, a) + MoveAll(place, b)
    decreases |a|
  {
    hide Move;
    if a == [] {
      Seqs.TakeAll(b);
      Seqs.TakeAll(MoveAll(place, b));
    } else {
      assert (a + b)[1..] == a[1..] + b;
      MoveAppend(place, a[1..], b);
    }
  }

  function Moved(place: Place, r: Result<seq<Found>, Failure>): Result<seq<Found>, Failure> {
    match r case Err(why) => Err(why) case Ok(s) => Ok(MoveAll(place, s))
  }

  lemma MovePrefixed(place: Place, a: seq<Found>, r: Result<seq<Found>, Failure>)
    ensures Moved(place, Prefixed(a, r)) == Prefixed(MoveAll(place, a), Moved(place, r))
  {
    if r.Ok? { MoveAppend(place, a, r.value); }
  }

  // ---- One file ----

  /** Each within the reader's limits, and declaring no flag it does not know. */
  ghost predicate AllBuildable(bs: seq<Builder>) {
    forall k :: 0 <= k < |bs| ==> WellFormed(bs[k]) && Fits(bs[k]) && bs[k].extra.unknown == 0
  }

  /** Where entry `i` of file `k` stands. */
  function PlaceIn(bs: seq<Builder>): Place {
    (k: nat, i: nat) => if k < |bs| && i < |bs[k].entries| then EntryStart(bs[k], i) else i
  }

  lemma {:induction false} FileMatches(bs: seq<Builder>, k: nat, i: nat, m: nat, flt: Filter)
    requires AllBuildable(bs) && k < |bs| && i <= m <= |bs[k].entries|
    ensures MatchOffsets(FileOf(bs[k]), EntryStarts(bs[k])[i..m], flt, k)
            == Moved(PlaceIn(bs), ExpectedFrom(bs[k], i, m, flt, k))
    decreases m - i
  {
    hide FileOf, Fits, WellFormed, MatchAt, Expected, EntryStart;
    var b := bs[k];
    if i < m {
      EntryMatches(b, i, flt);
      FileMatches(bs, k, i + 1, m, flt);
      var offs := EntryStarts(b)[i..m];
      assert offs[0] == EntryStart(b, i) && offs[1..] == EntryStarts(b)[i + 1..m];
      var v := Expected(b.ids.seqnum, b.entries[i], flt);
      if v.Matched? {
        var x := Found(b.entries[i].seqnum, b.entries[i].realtime, k, i, v.entry);
        MovePrefixed(PlaceIn(bs), [x], ExpectedFrom(b, i + 1, m, flt, k));
        assert MoveAll(PlaceIn(bs), [x]) == [Move(PlaceIn(bs), x)];
      }
    }
  }

  lemma OneFile(bs: seq<Builder>, k: nat, flt: Filter)
    requires AllBuildable(bs) && k < |bs|
    ensures MatchFile(FileOf(bs[k]), flt, k)
            == Moved(PlaceIn(bs), ExpectedFrom(bs[k], 0, Committed(bs[k]), flt, k))
  {
    hide FileOf, Fits, WellFormed, MatchOffsets, EntryOffsets, EntryStarts;
    OffsetsAreFound(bs[k]);
    FileMatches(bs, k, 0, Committed(bs[k]), flt);
    var offs, n := EntryStarts(bs[k]), Count(bs[k]);
    Seqs.TakeAll(offs);
    assert Cap(offs, n) == offs[0..Committed(bs[k])];
  }

  // ---- Every file ----

  /** The built files from `k` on, as opening their bytes gives them. */
  function FilesFrom(bs: seq<Builder>, k: nat): (fs: seq<JournalFile>)
    requires AllBuildable(bs) && k <= |bs|
    decreases |bs| - k
  {
    if k == |bs| then []
    else
      Opens(bs[k]);
      [OpenFile(Build(bs[k])).value] + FilesFrom(bs, k + 1)
  }

  lemma {:induction false} AllFiles(bs: seq<Builder>, k: nat, flt: Filter)
    requires AllBuildable(bs) && k <= |bs|
    ensures MatchFiles(FilesFrom(bs, k), flt, k) == Moved(PlaceIn(bs), ExpectedAll(bs[k..], flt, k))
    decreases |bs| - k
  {
    hide FileOf, Fits, WellFormed, MatchFile, ExpectedFrom, PlaceIn, OpenFile, Build;
    if k < |bs| {
      Opens(bs[k]);
      OneFile(bs, k, flt);
      AllFiles(bs, k + 1, flt);
      assert FilesFrom(bs, k)[1..] == FilesFrom(bs, k + 1) && bs[k..][1..] == bs[k + 1..] && bs[k..][0] == bs[k];
      var r := ExpectedFrom(bs[k], 0, Committed(bs[k]), flt, k);
      if r.Ok? { MovePrefixed(PlaceIn(bs), r.value, ExpectedAll(bs[k + 1..], flt, k + 1)); }
    }
  }

  /** Every match names a file and one of its entries. */
  ghost predicate Placed(bs: seq<Builder>, x: Found) {
    x.fileIndex < |bs| && x.offset < |bs[x.fileIndex].entries|
  }

  lemma {:induction false} FromIsPlaced(bs: seq<Builder>, k: nat, i: nat, m: nat, flt: Filter)
    requires k < |bs| && i <= m <= |bs[k].entries| && ExpectedFrom(bs[k], i, m, flt, k).Ok?
    ensures forall x :: x in ExpectedFrom(bs[k], i, m, flt, k).value ==> Placed(bs, x)
    decreases m - i
  {
    hide Expected;
    if i < m { FromIsPlaced(bs, k, i + 1, m, flt); }
  }

  lemma {:induction false} AllArePlaced(bs: seq<Builder>, k: nat, flt: Filter)
    requires k <= |bs| && ExpectedAll(bs[k..], flt, k).Ok?
    ensures forall x :: x in ExpectedAll(bs[k..], flt, k).value ==> Placed(bs, x)
    decreases |bs| - k
  {
    hide ExpectedFrom;
    if k < |bs| {
      assert bs[k..][1..] == bs[k + 1..];
      FromIsPlaced(bs, k, 0, Committed(bs[k]), flt);
      AllArePlaced(bs, k + 1, flt);
    }
  }

  lemma EntryStartsGrow(b: Builder, i: nat, j: nat)
    requires i < j < |b.entries|
    ensures EntryStart(b, i) < EntryStart(b, j)
  {
    hide PlanData, Start;
    PreSized(b);
    StartsGrow(PreSizes(b), 2 + |PlanData(b)| + i, 2 + |PlanData(b)| + j);
  }

  lemma PreSized(b: Builder)
    ensures forall k :: 0 <= k < |PreSizes(b)| ==> PreSizes(b)[k] > 0
  {
    hide PlanData;
  }

  lemma PlaceKeepsOrder(bs: seq<Builder>, s: seq<Found>)
    requires forall x :: x in s ==> Placed(bs, x)
    ensures KeepsOrder(PlaceIn(bs), s)
  {
    hide EntryStart;
    forall a, b | a in s && b in s
      ensures Precedes(a, b) <==> Precedes(Move(PlaceIn(bs), a), Move(PlaceIn(bs), b))
    {
      if a.fileIndex == b.fileIndex {
        if a.offset < b.offset { EntryStartsGrow(bs[a.fileIndex], a.offset, b.offset); }
        if b.offset < a.offset { EntryStartsGrow(bs[a.fileIndex], b.offset, a.offset); }
      }
    }
  }

  /** Building files from any lists of entries, in either layout, with any chunks and any slack, and
      searching them gives exactly the entries that match, ordered by sequence number, time, file and
      place; or it fails as the entries themselves require. */
  lemma EntriesAreThoseBuilt(bs: seq<Builder>, flt: Filter)
    requires AllBuildable(bs)
    ensures EntriesOf(FilesFrom(bs, 0), flt) == ExpectedEntries(bs, flt)
  {
    hide FilesFrom, MatchFiles, ExpectedAll, AllBuildable, PlaceIn, Sort, FilterOk;
    AllFiles(bs, 0, flt);
    assert bs[0..] == bs;
    var r := ExpectedAll(bs, flt, 0);
    if r.Ok? {
      AllArePlaced(bs, 0, flt);
      PlaceKeepsOrder(bs, r.value);
      SortMoves(PlaceIn(bs), r.value);
      PlainMoves(PlaceIn(bs), Sort(r.value));
    }
  }

  // ---- The layouts agree ----

  /** The same entries, committed to the same count, under the same id; the layout may differ. */
  ghost predicate SameContents(b: Builder, c: Builder) {
    b.entries == c.entries && Committed(b) == Committed(c) && b.ids.seqnum == c.ids.seqnum
  }

  lemma {:induction false} SameExpected(b: Builder, c: Builder, i: nat, m: nat, flt: Filter, k: nat)
    requires SameContents(b, c) && i <= m <= |b.entries|
    ensures ExpectedFrom(b, i, m, flt, k) == ExpectedFrom(c, i, m, flt, k)
    decreases m - i
  {
    hide Expected;
    if i < m { SameExpected(b, c, i + 1, m, flt, k); }
  }

  lemma {:induction false} SameExpectedAll(bs: seq<Builder>, cs: seq<Builder>, flt: Filter, first: nat)
    requires |bs| == |cs| && forall k :: 0 <= k < |bs| ==> SameContents(bs[k], cs[k])
    ensures ExpectedAll(bs, flt, first) == ExpectedAll(cs, flt, first)
    decreases |bs|
  {
    hide ExpectedFrom, SameContents;
    if bs != [] {
      SameCommitted(bs[0], cs[0]);
      SameExpected(bs[0], cs[0], 0, Committed(bs[0]), flt, first);
      SameExpectedAll(bs[1..], cs[1..], flt, first + 1);
    }
  }

  lemma SameCommitted(b: Builder, c: Builder)
    requires SameContents(b, c)
    ensures Committed(b) == Committed(c) && b.entries == c.entries
  {
  }

  /** Two sets of files with the same contents, each file in whatever layout, chunks and slack, give the
      same search result. */
  lemma LayoutsAgree(bs: seq<Builder>, cs: seq<Builder>, flt: Filter)
    requires AllBuildable(bs) && AllBuildable(cs)
    requires |bs| == |cs| && forall k :: 0 <= k < |bs| ==> SameContents(bs[k], cs[k])
    ensures EntriesOf(FilesFrom(bs, 0), flt) == EntriesOf(FilesFrom(cs, 0), flt)
  {
    hide FilesFrom, EntriesOf, ExpectedAll, AllBuildable, SameContents, Sort, FilterOk;
    EntriesAreThoseBuilt(bs, flt);
    EntriesAreThoseBuilt(cs, flt);
    SameExpectedAll(bs, cs, flt, 0);
  }
}
