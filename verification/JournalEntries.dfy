/** Every matching entry of a set of journal files, in order. */
module JournalEntries {
  import opened Options
  import opened Results
  import opened JournalReader
  import Seqs
  import Sorting

  /** A matching entry and its ordering keys. */
  datatype Found = Found(seqnum: nat, realtime: nat, fileIndex: nat, offset: nat, entry: Entry)

  function MatchOffsets(f: JournalFile, offs: seq<nat>, flt: Filter, fileIndex: nat): (r: Result<seq<Found>, Failure>)
    decreases |offs|
  {
    if offs == [] then Ok([])
    else
      var (e, v) := MatchAt(f, offs[0], flt);
      match v
      case Failed(why) => Err(why)
      case Passed => MatchOffsets(f, offs[1..], flt, fileIndex)
      case Matched(entry) =>
        match MatchOffsets(f, offs[1..], flt, fileIndex)
        case Err(why) => Err(why)
        case Ok(rest) => Ok([Found(e.seqnum, e.realtime, fileIndex, offs[0], entry)] + rest)
  }

  function MatchFile(f: JournalFile, flt: Filter, fileIndex: nat): (r: Result<seq<Found>, Failure>) {
    match EntryOffsets(f)
    case None => Err(CorruptFile)
    case Some(offs) => MatchOffsets(f, offs, flt, fileIndex)
  }

  method MatchInFile(f: JournalFile, flt: Filter, fileIndex: nat) returns (r: Result<seq<Found>, Failure>)
    ensures r == MatchFile(f, flt, fileIndex)
  {
    hide MatchAt, EntryOffsets, DataAt;
    var offsets := ScanEntryOffsets(f);
    if offsets.None? { return Err(CorruptFile); }
    var offs := offsets.value;
    var cache := new DataCache(f);
    var found: seq<Found> := [];
    var i := 0;
    PrefixedNone(MatchOffsets(f, offs, flt, fileIndex));
    while i < |offs|
      invariant 0 <= i <= |offs| && cache.Valid(f)
      invariant Prefixed(found, MatchOffsets(f, offs[i..], flt, fileIndex)) == MatchOffsets(f, offs, flt, fileIndex)
    {
      var e, v := MatchEntry(f, offs[i], flt, cache);
      assert offs[i..][0] == offs[i] && offs[i..][1..] == offs[i + 1..];
      match v {
        case Failed(why) => return Err(why);
        case Passed =>
        case Matched(entry) =>
          var one := Found(e.seqnum, e.realtime, fileIndex, offs[i], entry);
          PrefixedMore(found, one, MatchOffsets(f, offs[i + 1..], flt, fileIndex));
          found := found + [one];
      }
      i := i + 1;
    }
    Seqs.TakeAll(found);
    return Ok(found);
  }

  function Prefixed(found: seq<Found>, r: Result<seq<Found>, Failure>): Result<seq<Found>, Failure> {
    match r case Err(why) => Err(why) case Ok(rest) => Ok(found + rest)
  }

  lemma PrefixedNone(r: Result<seq<Found>, Failure>)
    ensures Prefixed([], r) == r
  {
    if r.Ok? { Seqs.TakeAll(r.value); }
  }

  lemma PrefixedMore(found: seq<Found>, one: Found, r: Result<seq<Found>, Failure>)
    ensures Prefixed(found + [one], r) == Prefixed(found, Prefixed([one], r))
  {
    if r.Ok? { Seqs.Assoc(found, [one], r.value); }
  }

  function MatchFiles(files: seq<JournalFile>, flt: Filter, first: nat): (r: Result<seq<Found>, Failure>)
    decreases |files|
  {
    if files == [] then Ok([])
    else
      match MatchFile(files[0], flt, first)
      case Err(why) => Err(why)
      case Ok(found) => Prefixed(found, MatchFiles(files[1..], flt, first + 1))
  }

  // ---- The order ----

  /** By sequence number, then time, then file, then place in the file. */
  predicate Precedes(a: Found, b: Found) {
    if a.seqnum != b.seqnum then a.seqnum < b.seqnum
    else if a.realtime != b.realtime then a.realtime < b.realtime
    else if a.fileIndex != b.fileIndex then a.fileIndex < b.fileIndex
    else a.offset < b.offset
  }

  function Sort(s: seq<Found>): (r: seq<Found>) { Sorting.Sort(Precedes, s) }

  ghost predicate Ordered(s: seq<Found>) { Sorting.Ordered(Precedes, s) }

  /** Found with the same keys is found the same: a file's offset names one entry. */
  ghost predicate Keyed(s: seq<Found>) {
    forall i, j :: 0 <= i < |s| && 0 <= j < |s| && !Precedes(s[i], s[j]) && !Precedes(s[j], s[i]) ==> s[i] == s[j]
  }

  lemma SortSorts(s: seq<Found>)
    ensures Ordered(Sort(s)) && multiset(Sort(s)) == multiset(s)
  {
    Sorting.SortSorts(Precedes, s);
  }

  /** `a` may stand before `b`: its sequence number is less, or the same and its time is, and so on through the
      file and the place in it. */
  predicate MayPrecede(a: Found, b: Found) {
    && a.seqnum <= b.seqnum
    && (a.seqnum == b.seqnum ==>
          && a.realtime <= b.realtime
          && (a.realtime == b.realtime ==>
                && a.fileIndex <= b.fileIndex && (a.fileIndex == b.fileIndex ==> a.offset <= b.offset)))
  }

  /** Sorting puts the keys in order, one after another, and keeps every match. */
  lemma KeysRise(s: seq<Found>)
    ensures multiset(Sort(s)) == multiset(s)
    ensures forall i, j :: 0 <= i < j < |Sort(s)| ==> MayPrecede(Sort(s)[i], Sort(s)[j])
  {
    hide Sort;
    SortSorts(s);
    forall i, j | 0 <= i < j < |Sort(s)| ensures MayPrecede(Sort(s)[i], Sort(s)[j]) {
      assert !Precedes(Sort(s)[j], Sort(s)[i]);
    }
  }

  /** Any two sorted arrangements of the same keyed entries are the same. */
  lemma {:induction false} OneOrder(a: seq<Found>, b: seq<Found>)
    requires Ordered(a) && Ordered(b) && multiset(a) == multiset(b) && Keyed(a)
    ensures a == b
    decreases |a|
  {
    hide Ordered, Keyed, Precedes;
    if a == [] {
      assert |multiset(a)| == |a| && |multiset(b)| == |b|;
    } else {
      HeadsAgree(a, b);
      TailsAgree(a, b);
      OneOrder(a[1..], b[1..]);
      assert a == [a[0]] + a[1..] && b == [b[0]] + b[1..];
    }
  }

  lemma HeadsAgree(a: seq<Found>, b: seq<Found>)
    requires a != [] && Ordered(a) && Ordered(b) && multiset(a) == multiset(b) && Keyed(a)
    ensures b != [] && a[0] == b[0]
  {
    hide Keyed, Precedes;
    assert a[0] in multiset(a) && a[0] in b;
    var i :| 0 <= i < |b| && b[i] == a[0];
    assert b[0] in multiset(b) && b[0] in a;
    var j :| 0 <= j < |a| && a[j] == b[0];
    NotBeforeItself(a[0]);
    assert !Precedes(a[0], b[0]) && !Precedes(b[0], a[0]);
    KeyedPair(a, 0, j);
  }

  lemma NotBeforeItself(x: Found)
    ensures !Precedes(x, x)
  {
  }

  lemma KeyedPair(s: seq<Found>, i: nat, j: nat)
    requires Keyed(s) && i < |s| && j < |s| && !Precedes(s[i], s[j]) && !Precedes(s[j], s[i])
    ensures s[i] == s[j]
  {
    hide Precedes;
  }

  lemma TailsAgree(a: seq<Found>, b: seq<Found>)
    requires a != [] && b != [] && a[0] == b[0] && multiset(a) == multiset(b)
    requires Ordered(a) && Ordered(b) && Keyed(a)
    ensures multiset(a[1..]) == multiset(b[1..]) && Ordered(a[1..]) && Ordered(b[1..]) && Keyed(a[1..])
  {
    hide Ordered, Keyed;
    OrderedRest(a);
    OrderedRest(b);
    KeyedRest(a);
    assert a == [a[0]] + a[1..] && b == [b[0]] + b[1..];
    assert multiset(a[1..]) == multiset(a) - multiset{a[0]};
    assert multiset(b[1..]) == multiset(b) - multiset{b[0]};
  }

  lemma OrderedRest(s: seq<Found>)
    requires s != [] && Ordered(s)
    ensures Ordered(s[1..])
  {
    hide Precedes;
    var rest := s[1..];
    forall i, j | 0 <= i < j < |rest| ensures !Precedes(rest[j], rest[i]) {
      assert !Precedes(s[j + 1], s[i + 1]);
    }
  }

  lemma KeyedRest(s: seq<Found>)
    requires s != [] && Keyed(s)
    ensures Keyed(s[1..])
  {
    hide Precedes;
    assert forall i :: 0 <= i < |s| - 1 ==> s[1..][i] == s[i + 1];
  }

  // ---- What is found ----

  /** `x` is what the entry at its place in its file comes to. */
  ghost predicate FoundIn(files: seq<JournalFile>, flt: Filter, first: nat, x: Found) {
    && first <= x.fileIndex < first + |files|
    && var (e, v) := MatchAt(files[x.fileIndex - first], x.offset, flt);
       v.Matched? && x == Found(e.seqnum, e.realtime, x.fileIndex, x.offset, v.entry)
  }

  lemma {:induction false} OffsetsFound(f: JournalFile, offs: seq<nat>, flt: Filter, fileIndex: nat, x: Found)
    requires MatchOffsets(f, offs, flt, fileIndex).Ok? && x in MatchOffsets(f, offs, flt, fileIndex).value
    ensures FoundIn([f], flt, fileIndex, x)
    decreases |offs|
  {
    hide MatchAt;
    var (e, v) := MatchAt(f, offs[0], flt);
    if !(v.Matched? && x == Found(e.seqnum, e.realtime, fileIndex, offs[0], v.entry)) {
      OffsetsFound(f, offs[1..], flt, fileIndex, x);
    }
  }

  lemma {:induction false} FilesFound(files: seq<JournalFile>, flt: Filter, first: nat, x: Found)
    requires MatchFiles(files, flt, first).Ok? && x in MatchFiles(files, flt, first).value
    ensures FoundIn(files, flt, first, x)
    decreases |files|
  {
    hide MatchAt, MatchOffsets, EntryOffsets;
    if x in MatchFile(files[0], flt, first).value {
      OffsetsFound(files[0], EntryOffsets(files[0]).value, flt, first, x);
    } else {
      FilesFound(files[1..], flt, first + 1, x);
    }
  }

  lemma FoundIsKeyed(files: seq<JournalFile>, flt: Filter, first: nat)
    requires MatchFiles(files, flt, first).Ok?
    ensures Keyed(MatchFiles(files, flt, first).value)
  {
    hide MatchFiles, MatchAt;
    var s := MatchFiles(files, flt, first).value;
    forall i, j | 0 <= i < |s| && 0 <= j < |s| && !Precedes(s[i], s[j]) && !Precedes(s[j], s[i])
      ensures s[i] == s[j]
    {
      FilesFound(files, flt, first, s[i]);
      FilesFound(files, flt, first, s[j]);
    }
  }

  /** Whatever sorts the matches by their keys gives the same list: the order is total on them. */
  lemma OrderIsDetermined(files: seq<JournalFile>, flt: Filter, sorted: seq<Found>)
    requires MatchFiles(files, flt, 0).Ok?
    requires Ordered(sorted) && multiset(sorted) == multiset(MatchFiles(files, flt, 0).value)
    ensures sorted == Sort(MatchFiles(files, flt, 0).value)
  {
    hide MatchFiles, Keyed, Ordered;
    var found := MatchFiles(files, flt, 0).value;
    FoundIsKeyed(files, flt, 0);
    SortSorts(found);
    SameKeyed(found, Sort(found));
    OneOrder(Sort(found), sorted);
  }

  lemma SameKeyed(a: seq<Found>, b: seq<Found>)
    requires Keyed(a) && multiset(a) == multiset(b)
    ensures Keyed(b)
  {
    hide Precedes;
    forall i, j | 0 <= i < |b| && 0 <= j < |b| && !Precedes(b[i], b[j]) && !Precedes(b[j], b[i])
      ensures b[i] == b[j]
    {
      assert b[i] in multiset(b) && b[j] in multiset(b);
      assert b[i] in a && b[j] in a;
    }
  }

  // ---- The reader ----

  function Plain(s: seq<Found>): (es: seq<Entry>)
    ensures |es| == |s| && forall i :: 0 <= i < |s| ==> es[i] == s[i].entry
  {
    if s == [] then [] else [s[0].entry] + Plain(s[1..])
  }

  function EntriesOf(files: seq<JournalFile>, flt: Filter): (r: Result<seq<Entry>, Failure>) {
    if !FilterOk(flt) then Err(BadFilter)
    else
      match MatchFiles(files, flt, 0)
      case Err(why) => Err(why)
      case Ok(found) => Ok(Plain(Sort(found)))
  }

  class Reader {
    var files: seq<JournalFile>
    var closed: bool

    constructor (files: seq<JournalFile>)
      ensures this.files == files && !closed
    {
      this.files, closed := files, false;
    }

    method Close()
      modifies this
      ensures files == [] && closed
    {
      files, closed := [], true;
    }

    /** Every entry the filter matches, in order; nothing once the reader is closed. */
    method Entries(flt: Filter) returns (r: Option<Result<seq<Entry>, Failure>>)
      ensures r == if closed then None else Some(EntriesOf(files, flt))
    {
      hide MatchFile, Sort;
      if closed { return None; }
      if !FilterOk(flt) { return Some(Err(BadFilter)); }
      var found: seq<Found> := [];
      PrefixedNone(MatchFiles(files, flt, 0));
      var i := 0;
      while i < |files|
        invariant 0 <= i <= |files|
        invariant Prefixed(found, MatchFiles(files[i..], flt, i)) == MatchFiles(files, flt, 0)
      {
        var matches := MatchInFile(files[i], flt, i);
        assert files[i..][1..] == files[i + 1..];
        if matches.Err? { return Some(Err(matches.error)); }
        PrefixedAgain(found, matches.value, MatchFiles(files[i + 1..], flt, i + 1));
        found := found + matches.value;
        i := i + 1;
      }
      Seqs.TakeAll(found);
      return Some(Ok(Plain(Sort(found))));
    }
  }

  lemma PrefixedAgain(a: seq<Found>, b: seq<Found>, r: Result<seq<Found>, Failure>)
    ensures Prefixed(a + b, r) == Prefixed(a, Prefixed(b, r))
  {
    if r.Ok? { Seqs.Assoc(a, b, r.value); }
  }
}
