/** Finding the last line of a log file through a window that grows backwards from its end. */
module TailScan {
  import opened ByteStrings
  import opened Options

  /** The longest line a reader of the log accepts, in bytes. */
  const MAX_LINE_BYTES := 0x10_0000

  const FIRST_WINDOW := 0x1_0000

  datatype Tail = Empty | FinalLine(text: Bytes) | Torn | TooLong

  /** `s` without the line feeds it ends in. */
  function TrimNewlines(s: Bytes): (t: Bytes)
    ensures t <= s && (t == [] || t[|t| - 1] != NEWLINE)
    ensures forall i :: |t| <= i < |s| ==> s[i] == NEWLINE
  {
    if s == [] || s[|s| - 1] != NEWLINE then s else TrimNewlines(s[..|s| - 1])
  }

  /** The index of the last line feed in `s`, or -1. */
  function LastNewline(s: Bytes): (i: int)
    ensures -1 <= i < |s| && (i >= 0 ==> s[i] == NEWLINE)
    ensures forall j :: i < j < |s| ==> s[j] != NEWLINE
  {
    if s == [] then -1
    else if s[|s| - 1] == NEWLINE then |s| - 1
    else LastNewline(s[..|s| - 1])
  }

  /** A window of `w` bytes at the end of `content` shows where its final line starts. */
  ghost predicate Shows(content: Bytes, w: int) {
    var t := TrimNewlines(content);
    t != [] && LastNewline(t) >= 0 && |content| - LastNewline(t) <= w
  }

  /** The tail with no window in sight: the text after the last line feed that is not a trailing
      one, provided the scan may look that far back. */
  ghost function TailOf(content: Bytes): (t: Tail) {
    if content == [] then Empty
    else if content[|content| - 1] != NEWLINE then Torn
    else if |content| > MAX_LINE_BYTES && !Shows(content, MAX_LINE_BYTES) then TooLong
    else
      var t := TrimNewlines(content);
      if t == [] then Empty else FinalLine(t[LastNewline(t) + 1..])
  }

  lemma TrimUnique(s: Bytes, t: Bytes)
    requires t <= s && (t == [] || t[|t| - 1] != NEWLINE)
    requires forall i :: |t| <= i < |s| ==> s[i] == NEWLINE
    ensures TrimNewlines(s) == t
  {
    var u := TrimNewlines(s);
    assert t != [] ==> t[|t| - 1] == s[|t| - 1];
    assert u != [] ==> u[|u| - 1] == s[|u| - 1];
  }

  lemma LastNewlineUnique(s: Bytes, i: int)
    requires -1 <= i < |s| && (i >= 0 ==> s[i] == NEWLINE)
    requires forall j :: i < j < |s| ==> s[j] != NEWLINE
    ensures LastNewline(s) == i
  {
  }

  /** What trimming sees inside a window that starts at `cut`. */
  lemma TrimInWindow(content: Bytes, cut: nat)
    requires cut <= |content|
    ensures
      var t := TrimNewlines(content);
      TrimNewlines(content[cut..]) == if |t| > cut then t[cut..] else []
  {
    hide TrimNewlines;
    var t := TrimNewlines(content);
    var u := if |t| > cut then t[cut..] else [];
    forall i | |u| <= i < |content[cut..]| ensures content[cut..][i] == NEWLINE {
      assert content[cut..][i] == content[cut + i];
    }
    if |t| > cut {
      assert u[|u| - 1] == t[|t| - 1];
      assert u == content[cut..][..|u|];
    }
    TrimUnique(content[cut..], u);
  }

  lemma {:induction false} LastNewlineInWindow(t: Bytes, cut: nat)
    requires cut <= |t|
    ensures LastNewline(t[cut..]) == if LastNewline(t) >= cut then LastNewline(t) - cut else -1
  {
    if cut < |t| {
      var front := t[..|t| - 1];
      assert t[cut..][..|t| - cut - 1] == front[cut..];
      LastNewlineInWindow(front, cut);
    }
  }

  /** What trimming and searching see inside a window. */
  lemma InWindow(content: Bytes, w: nat)
    requires w <= |content|
    ensures
      var cut := |content| - w;
      var t, seen := TrimNewlines(content), TrimNewlines(content[cut..]);
      && seen == (if |t| > cut then t[cut..] else [])
      && LastNewline(seen) == if LastNewline(t) >= cut then LastNewline(t) - cut else -1
  {
    hide TrimNewlines, LastNewline;
    var cut := |content| - w;
    TrimInWindow(content, cut);
    var t := TrimNewlines(content);
    if |t| > cut {
      LastNewlineInWindow(t, cut);
    } else {
      LastNewlineUnique([], -1);
    }
  }

  /** What the bytes of one window settle; `whole` says the window is the file. */
  ghost function Glance(window: Bytes, whole: bool): (r: Option<Tail>) {
    var seen := TrimNewlines(window);
    var i := LastNewline(seen);
    if i >= 0 then Some(FinalLine(seen[i + 1..]))
    else if whole then Some(if seen == [] then Empty else FinalLine(seen))
    else None
  }

  lemma GlanceAtWhole(content: Bytes)
    requires content != [] && content[|content| - 1] == NEWLINE && |content| <= MAX_LINE_BYTES
    ensures Glance(content, true) == Some(TailOf(content))
  {
    var t := TrimNewlines(content);
    if LastNewline(t) < 0 { assert t[LastNewline(t) + 1..] == t; }
  }

  lemma GlanceAtPart(content: Bytes, w: nat)
    requires content != [] && content[|content| - 1] == NEWLINE
    requires w < |content| && w <= MAX_LINE_BYTES
    ensures
      var g := Glance(content[|content| - w..], false);
      if g.Some? then g == Some(TailOf(content)) else !Shows(content, w)
  {
    hide TrimNewlines, LastNewline;
    InWindow(content, w);
    var cut := |content| - w;
    var t := TrimNewlines(content);
    var i := LastNewline(t);
    if i >= cut {
      assert t[i + 1..] == t[cut..][i - cut + 1..];
      WiderShows(content, w, MAX_LINE_BYTES);
    }
  }

  lemma WiderShows(content: Bytes, v: int, w: int)
    requires Shows(content, v) && v <= w
    ensures Shows(content, w)
  {
    hide TrimNewlines, LastNewline;
  }

  /** What one window settles. */
  lemma WindowSettles(content: Bytes, w: nat)
    requires content != [] && content[|content| - 1] == NEWLINE
    requires w <= |content| && w <= MAX_LINE_BYTES
    ensures
      var g := Glance(content[|content| - w..], w == |content|);
      if g.Some? then g == Some(TailOf(content))
      else w < |content| && !Shows(content, w)
           && (w == MAX_LINE_BYTES ==> TailOf(content) == TooLong)
  {
    hide Glance, TrimNewlines, LastNewline, Shows;
    if w == |content| {
      assert content[|content| - w..] == content;
      GlanceAtWhole(content);
    } else {
      GlanceAtPart(content, w);
    }
  }

  /** The sizes a window takes before it is cut to the file. */
  predicate Doubled(w: int) {
    w == 0x1_0000 || w == 0x2_0000 || w == 0x4_0000 || w == 0x8_0000 || w == MAX_LINE_BYTES
  }

  /** Reads one window of `content` and reports what it settles, if anything. */
  method LookBack(content: Bytes, w: nat) returns (r: Option<Tail>)
    requires content != [] && content[|content| - 1] == NEWLINE
    requires w <= |content| && w <= MAX_LINE_BYTES
    ensures if r.Some? then r.value == TailOf(content)
            else w < |content| && !Shows(content, w)
                 && (w == MAX_LINE_BYTES ==> TailOf(content) == TooLong)
  {
    hide TailOf, Shows, TrimNewlines, LastNewline;
    WindowSettles(content, w);
    var trimmed := TrimNewlines(content[|content| - w..]);
    if trimmed == [] {
      return if w == |content| then Some(Empty) else None;
    }
    var i := LastNewline(trimmed);
    if i >= 0 { return Some(FinalLine(trimmed[i + 1..])); }
    return if w == |content| then Some(FinalLine(trimmed)) else None;
  }

  method TailLine(content: Bytes) returns (r: Tail)
    ensures r == TailOf(content)
  {
    var size := |content|;
    if size == 0 { return Empty; }
    if content[size - 1] != NEWLINE { return Torn; }
    hide TailOf, Shows;
    var window := FIRST_WINDOW;
    while true
      invariant Doubled(window)
      decreases 2 * MAX_LINE_BYTES - window
    {
      window := if window < size then window else size;
      var settled := LookBack(content, window);
      if settled.Some? { return settled.value; }
      if window >= MAX_LINE_BYTES { return TooLong; }
      window := window * 2;
    }
  }

  /** A file that is `before`, one line and a run of line feeds gives that line back exactly when
      the file is within the scan's reach or the line feed before the line is. */
  lemma TailIsLastLine(before: Bytes, line: Bytes, feeds: Bytes)
    requires line != [] && NoNewline(line)
    requires before == [] || before[|before| - 1] == NEWLINE
    requires feeds != [] && forall i :: 0 <= i < |feeds| ==> feeds[i] == NEWLINE
    ensures
      var content := before + line + feeds;
      TailOf(content) ==
      if |content| <= 1_048_576 || (before != [] && 1 + |line| + |feeds| <= 1_048_576)
      then FinalLine(line) else TooLong
  {
    var content := before + line + feeds;
    TrimUnique(content, before + line);
    LastNewlineUnique(before + line, |before| - 1);
    assert (before + line)[|before|..] == line;
  }

  /** The same for a file whose last line was written whole, line feed included. */
  lemma TailIsLastWritten(before: Bytes, l: Bytes)
    requires |l| >= 2 && l[|l| - 1] == NEWLINE && NoNewline(l[..|l| - 1])
    requires before == [] || before[|before| - 1] == NEWLINE
    ensures TailOf(before + l) ==
            if |before + l| <= MAX_LINE_BYTES || (before != [] && 1 + |l| <= MAX_LINE_BYTES)
            then FinalLine(l[..|l| - 1]) else TooLong
  {
    hide TailOf;
    TailIsLastLine(before, l[..|l| - 1], [NEWLINE]);
    assert before + l == before + l[..|l| - 1] + [NEWLINE];
  }

  /** Every non-empty file that does not end in a line feed is refused, however much of it reads
      cleanly. */
  lemma UnfinishedIsTorn(content: Bytes)
    ensures TailOf(content) == Torn <==> content != [] && content[|content| - 1] != NEWLINE
  {
  }
}
