/** Record timestamps in the fixed-width form of section 5.6 of RFC 3339: UTC, three
    fractional digits, a literal Z. */
module Timestamp {
  import opened ByteStrings
  import opened Options
  import opened Decimal

  predicate LeapYear(y: int) {
    y % 4 == 0 && (y % 100 != 0 || y % 400 == 0)
  }

  function DaysIn(month: int, year: int): (d: int) {
    if month == 2 then (if LeapYear(year) then 29 else 28)
    else if month in {4, 6, 9, 11} then 30 else 31
  }

  lemma MonthsAre(y: int)
    ensures forall m :: m in {1, 3, 5, 7, 8, 10, 12} ==> DaysIn(m, y) == 31
    ensures forall m :: m in {4, 6, 9, 11} ==> DaysIn(m, y) == 30
    ensures DaysIn(2, y) == if y % 4 == 0 && (y % 100 != 0 || y % 400 == 0) then 29 else 28
  {
  }

  /** A UTC instant by its calendar fields. */
  datatype Calendar = Calendar(year: int, month: int, day: int,
                               hour: int, minute: int, second: int, nanos: int)
  {
    predicate Valid() {
      && 1 <= month <= 12
      && 1 <= day <= DaysIn(month, year)
      && 0 <= hour < 24 && 0 <= minute < 60 && 0 <= second < 60
      && 0 <= nanos < 1_000_000_000
    }
  }

  type Time = t: Calendar | t.Valid() witness Calendar(1, 1, 1, 0, 0, 0, 0)

  /** `t` cut down, never rounded, to whole milliseconds. */
  function Truncate(t: Time): (r: Time)
    ensures r.nanos % 1_000_000 == 0
  {
    t.(nanos := t.nanos - t.nanos % 1_000_000)
  }

  lemma TruncateWhole(t: Time)
    ensures t.nanos == 0 ==> Truncate(t) == t
  {
  }

  lemma TruncateCuts(t: Time)
    ensures Truncate(t) == t.(nanos := t.nanos / 1_000_000 * 1_000_000)
  {
  }

  const TS_LEN := 24

  /** `n` in at least `width` digits. */
  function Padded(n: nat, width: nat): (s: Bytes)
    ensures AllDigits(s) && |s| >= width
  {
    var d := Nat(n);
    if |d| >= width then d else Zeros(width - |d|) + d
  }

  function FormatYear(y: int): (s: Bytes) {
    if y < 0 then [MINUS] + Padded(-y, 4) else Padded(y, 4)
  }

  /** `t` under the layout "2006-01-02T15:04:05.000Z". */
  function Format(t: Time): (s: Bytes) {
    FormatYear(t.year) + [45] + Padded(t.month, 2) + [45] + Padded(t.day, 2) + [84]
    + Padded(t.hour, 2) + [58] + Padded(t.minute, 2) + [58] + Padded(t.second, 2) + [46]
    + Padded(t.nanos / 1_000_000, 3) + [90]
  }

  function CanonicalTime(t: Time): (r: Option<Bytes>)
    ensures r.Some? ==> |r.value| == TS_LEN
  {
    var s := Format(Truncate(t));
    if |s| != TS_LEN || s[|s| - 1] != 90 then None else Some(s)
  }

  /** The fixed-width field `s[lo..hi]` as a number, when it is all digits. */
  function Field(s: Bytes, lo: nat, hi: nat): (r: int)
    requires lo <= hi <= |s|
  {
    if AllDigits(s[lo..hi]) then Value(s[lo..hi]) else -1
  }

  /** Reads a timestamp of exactly the canonical width and ranges. */
  function Parse(s: Bytes): (r: Option<Time>) {
    if |s| != TS_LEN || s[4] != 45 || s[7] != 45 || s[10] != 84 || s[13] != 58 || s[16] != 58
       || s[19] != 46 || s[23] != 90 then None
    else
      var year, milli := Field(s, 0, 4), Field(s, 20, 23);
      var c := Calendar(year, Field(s, 5, 7), Field(s, 8, 10), Field(s, 11, 13),
                        Field(s, 14, 16), Field(s, 17, 19), milli * 1_000_000);
      if year < 0 || milli < 0 || !c.Valid() then None else Some(c)
  }

  lemma PaddedFits(n: nat, width: nat)
    requires width > 0
    ensures Value(Padded(n, width)) == n
    ensures |Padded(n, width)| == width <==> n < Pow10(width)
  {
    var d := Nat(n);
    ValueNat(n);
    NatWidth(n, width);
    if |d| < width { ValueZeros(width - |d|, d); }
  }

  /** The fixed-width fields stand where the layout puts them. */
  lemma LayoutSlices(y: Bytes, mo: Bytes, d: Bytes, h: Bytes, mi: Bytes, sec: Bytes, ms: Bytes)
    requires |y| == 4 && |mo| == |d| == |h| == |mi| == |sec| == 2 && |ms| == 3
    ensures
      var s := y + [45] + mo + [45] + d + [84] + h + [58] + mi + [58] + sec + [46] + ms + [90];
      |s| == TS_LEN && s[0..4] == y && s[5..7] == mo && s[8..10] == d && s[11..13] == h
      && s[14..16] == mi && s[17..19] == sec && s[20..23] == ms
      && s[4] == s[7] == 45 && s[10] == 84 && s[13] == s[16] == 58 && s[19] == 46 && s[23] == 90
  {
  }

  lemma FieldWidths(t: Time)
    ensures |Padded(t.month, 2)| == |Padded(t.day, 2)| == 2
    ensures |Padded(t.hour, 2)| == |Padded(t.minute, 2)| == |Padded(t.second, 2)| == 2
    ensures |Padded(t.nanos / 1_000_000, 3)| == 3
    ensures Value(Padded(t.month, 2)) == t.month && Value(Padded(t.day, 2)) == t.day
    ensures Value(Padded(t.hour, 2)) == t.hour && Value(Padded(t.minute, 2)) == t.minute
    ensures Value(Padded(t.second, 2)) == t.second
    ensures Value(Padded(t.nanos / 1_000_000, 3)) == t.nanos / 1_000_000
  {
    Powers();
    PaddedFits(t.month, 2);
    PaddedFits(t.day, 2);
    PaddedFits(t.hour, 2);
    PaddedFits(t.minute, 2);
    PaddedFits(t.second, 2);
    PaddedFits(t.nanos / 1_000_000, 3);
  }

  /** A timestamp can be rendered exactly when its year has four digits. */
  lemma Representable(t: Time)
    ensures CanonicalTime(t).Some? <==> 0 <= t.year <= 9999
  {
    Powers();
    FieldWidths(Truncate(t));
    PaddedFits(if t.year < 0 then -t.year else t.year, 4);
    assert |Format(Truncate(t))| == |FormatYear(t.year)| + 20;
    assert Format(Truncate(t))[|FormatYear(t.year)| + 19] == 90;
  }

  /** What is rendered reads back as the instant cut to milliseconds. */
  lemma ParseCanonicalTime(t: Time)
    requires 0 <= t.year <= 9999
    ensures CanonicalTime(t).Some?
    ensures Parse(CanonicalTime(t).value) == Some(Truncate(t))
  {
    hide Padded, Value, Pow10;
    Representable(t);
    Powers();
    var u := Truncate(t);
    FieldWidths(u);
    PaddedFits(u.year, 4);
    LayoutSlices(FormatYear(u.year), Padded(u.month, 2), Padded(u.day, 2), Padded(u.hour, 2),
                 Padded(u.minute, 2), Padded(u.second, 2), Padded(u.nanos / 1_000_000, 3));
  }

  lemma LayoutIsAscii(y: Bytes, mo: Bytes, d: Bytes, h: Bytes, mi: Bytes, sec: Bytes, ms: Bytes)
    requires |y| == 4 && |mo| == |d| == |h| == |mi| == |sec| == 2 && |ms| == 3
    requires AllDigits(y) && AllDigits(mo) && AllDigits(d) && AllDigits(h) && AllDigits(mi)
    requires AllDigits(sec) && AllDigits(ms)
    ensures
      var s := y + [45] + mo + [45] + d + [84] + h + [58] + mi + [58] + sec + [46] + ms + [90];
      forall i :: 0 <= i < |s| ==> s[i] < 0x80
  {
  }

  lemma CanonicalTimeIsAscii(t: Time)
    requires 0 <= t.year <= 9999
    ensures CanonicalTime(t).Some?
    ensures forall i :: 0 <= i < TS_LEN ==> CanonicalTime(t).value[i] < 0x80
  {
    Representable(t);
    Powers();
    var u := Truncate(t);
    FieldWidths(u);
    PaddedFits(u.year, 4);
    LayoutIsAscii(FormatYear(u.year), Padded(u.month, 2), Padded(u.day, 2), Padded(u.hour, 2),
                  Padded(u.minute, 2), Padded(u.second, 2), Padded(u.nanos / 1_000_000, 3));
  }
}
