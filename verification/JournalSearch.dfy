/** What a search of any journal files at all comes to, told entry by entry. */
module JournalSearch {
  import opened Options
  import opened JournalReader
  import opened JournalEntries

  /** The search comes to nothing that is not what a journal holds: the arrays lead to offsets, and no entry
      there fails. */
  ghost predicate Readable(f: JournalFile, flt: Filter) {
    && EntryOffsets(f).Some?
    && forall k :: 0 <= k < |EntryOffsets(f).value| ==> !MatchAt(f, EntryOffsets(f).value[k], flt).1.Failed?
  }

  /** `e` is what the entry at some offset of `f` comes to. */
  ghost predicate Holds(f: JournalFile, flt: Filter, e: Entry) {
    && EntryOffsets(f).Some?
    && exists k :: 0 <= k < |EntryOffsets(f).value| && MatchAt(f, EntryOffsets(f).value[k], flt).1 == Matched(e)
  }

  lemma {:induction false} OffsetsFail(f: JournalFile, offs: seq<nat>, flt: Filter, n: nat)
    ensures MatchOffsets(f, offs, flt, n).Err? <==>
              exists k :: 0 <= k < |offs| && MatchAt(f, offs[k], flt).1.Failed?
    decreases |offs|
  {
    hide MatchAt;
    if offs != [] {
      OffsetsFail(f, offs[1..], flt, n);
      if k :| 0 <= k < |offs| && MatchAt(f, offs[k], flt).1.Failed? {
        if k > 0 { assert offs[1..][k - 1] == offs[k]; }
      }
      if k :| 0 <= k < |offs[1..]| && MatchAt(f, offs[1..][k], flt).1.Failed? { assert offs[k + 1] == offs[1..][k]; }
    }
  }

  lemma {:induction false} OffsetsGive(f: JournalFile, offs: seq<nat>, flt: Filter, n: nat, e: Entry)
    requires MatchOffsets(f, offs, flt, n).Ok?
    ensures
      var found := MatchOffsets(f, offs, flt, n).value;
      (exists i :: 0 <= i < |found| && found[i].entry == e) <==>
        exists k :: 0 <= k < |offs| && MatchAt(f, offs[k], flt).1 == Matched(e)
    decreases |offs|
  {
    hide MatchAt;
    if offs != [] {
      var found, rest := MatchOffsets(f, offs, flt, n).value, MatchOffsets(f, offs[1..], flt, n).value;
      OffsetsGive(f, offs[1..], flt, n, e);
      var more := if MatchAt(f, offs[0], flt).1.Matched? then 1 else 0;
      if i :| 0 <= i < |found| && found[i].entry == e {
        if i >= more { assert rest[i - more].entry == e; }
      }
      if i :| 0 <= i < |rest| && rest[i].entry == e { assert found[i + more] == rest[i]; }
      if k :| 0 <= k < |offs| && MatchAt(f, offs[k], flt).1 == Matched(e) {
        if k > 0 { assert offs[1..][k - 1] == offs[k]; } else { assert found[0].entry == e; }
      }
      if k :| 0 <= k < |offs[1..]| && MatchAt(f, offs[1..][k], flt).1 == Matched(e) {
        assert offs[k + 1] == offs[1..][k];
      }
    }
  }

  lemma FileReads(f: JournalFile, flt: Filter, n: nat)
    ensures MatchFile(f, flt, n).Ok? <==> Readable(f, flt)
  {
    hide MatchAt, MatchOffsets, EntryOffsets;
    if EntryOffsets(f).Some? { OffsetsFail(f, EntryOffsets(f).value, flt, n); }
  }

  lemma FileGives(f: JournalFile, flt: Filter, n: nat, e: Entry)
    requires MatchFile(f, flt, n).Ok?
    ensures
      var found := MatchFile(f, flt, n).value;
      (exists i :: 0 <= i < |found| && found[i].entry == e) <==> Holds(f, flt, e)
  {
    hide MatchAt, MatchOffsets, EntryOffsets;
    OffsetsGive(f, EntryOffsets(f).value, flt, n, e);
  }

  lemma {:induction false} FilesRead(files: seq<JournalFile>, flt: Filter, first: nat)
    ensures MatchFiles(files, flt, first).Ok? <==> forall i :: 0 <= i < |files| ==> Readable(files[i], flt)
    decreases |files|
  {
    hide MatchFile, Readable;
    if files != [] {
      FileReads(files[0], flt, first);
      FilesRead(files[1..], flt, first + 1);
      assert forall i :: 0 < i < |files| ==> files[i] == files[1..][i - 1];
    }
  }

  lemma {:induction false} FilesGive(files: seq<JournalFile>, flt: Filter, first: nat, e: Entry)
    requires MatchFiles(files, flt, first).Ok?
    ensures
      var found := MatchFiles(files, flt, first).value;
      (exists i :: 0 <= i < |found| && found[i].entry == e) <==>
        exists j :: 0 <= j < |files| && Holds(files[j], flt, e)
    decreases |files|
  {
    hide MatchFile, Holds;
    if files != [] {
      var a, b := MatchFile(files[0], flt, first).value, MatchFiles(files[1..], flt, first + 1).value;
      FileGives(files[0], flt, first, e);
      FilesGive(files[1..], flt, first + 1, e);
      var found := MatchFiles(files, flt, first).value;
      assert found == a + b;
      if i :| 0 <= i < |found| && found[i].entry == e {
        if i < |a| { assert a[i].entry == e; } else { assert b[i - |a|].entry == e; }
      }
      if i :| 0 <= i < |a| && a[i].entry == e { assert found[i] == a[i]; }
      if i :| 0 <= i < |b| && b[i].entry == e { assert found[|a| + i] == b[i]; }
      if j :| 0 <= j < |files| && Holds(files[j], flt, e) {
        if j > 0 { assert files[1..][j - 1] == files[j]; }
      }
      if j :| 0 <= j < |files[1..]| && Holds(files[1..][j], flt, e) { assert files[j + 1] == files[1..][j]; }
    }
  }

  lemma SortedHolds(found: seq<Found>, e: Entry)
    ensures e in Plain(Sort(found)) <==> exists i :: 0 <= i < |found| && found[i].entry == e
  {
    hide Plain, Sort;
    SortSorts(found);
    var sorted := Sort(found);
    if i :| 0 <= i < |found| && found[i].entry == e {
      assert found[i] in multiset(sorted);
      var k :| 0 <= k < |sorted| && sorted[k] == found[i];
      assert Plain(sorted)[k] == e;
    }
    if e in Plain(sorted) {
      var k :| 0 <= k < |sorted| && sorted[k].entry == e;
      assert sorted[k] in multiset(found);
      var i :| 0 <= i < |found| && found[i] == sorted[k];
    }
  }

  /** A search succeeds exactly when the filter leaves nothing open and every entry of every file can be judged;
      and it returns exactly the entries that match. */
  lemma SearchExactly(files: seq<JournalFile>, flt: Filter, e: Entry)
    ensures EntriesOf(files, flt).Ok? <==>
              FilterOk(flt) && forall i :: 0 <= i < |files| ==> Readable(files[i], flt)
    ensures EntriesOf(files, flt).Ok? ==>
              (e in EntriesOf(files, flt).value <==> exists j :: 0 <= j < |files| && Holds(files[j], flt, e))
  {
    hide MatchFiles, Readable, Holds, FilterOk, Sort, Plain;
    FilesRead(files, flt, 0);
    if MatchFiles(files, flt, 0).Ok? {
      FilesGive(files, flt, 0, e);
      SortedHolds(MatchFiles(files, flt, 0).value, e);
    }
  }
}
