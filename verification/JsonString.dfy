/** JSON string literals in the minimum escape set of section 7 of RFC 8259, over Go's
    byte strings, which need not be valid UTF-8 (section 4 of RFC 3629). */
module JsonString {
  import opened ByteStrings
  import opened Options
  import Seqs

  const QUOTE: byte := 0x22
  const BACKSLASH: byte := 0x5c

  /** U+FFFD in UTF-8. */
  const REPLACEMENT: Bytes := [0xef, 0xbf, 0xbd]

  /** The lower-case hex digit for a nibble. */
  function HexDigit(n: int): (b: byte)
    requires 0 <= n < 16
  {
    if n < 10 then 48 + n else 87 + n
  }

  lemma HexDigitIs(n: int)
    requires 0 <= n < 16
    ensures HexDigit(n) == Ascii("0123456789abcdef")[n]
  {
  }

  /** The nibble a lower-case hex digit stands for. */
  function HexValue(b: byte): (n: Option<nat>)
    ensures n.Some? ==> n.value < 16 && HexDigit(n.value) == b
  {
    if 48 <= b <= 57 then Some(b - 48) else if 97 <= b <= 102 then Some(b - 87) else None
  }

  /** A hex digit in either case, as Go's decoders take it. */
  function AnyHexValue(b: byte): (n: Option<nat>)
    ensures n.Some? ==> n.value < 16
  {
    if 65 <= b <= 70 then Some(b - 55) else HexValue(b)
  }

  predicate InRange(s: Bytes, i: nat, lo: int, hi: int) {
    i < |s| && lo <= s[i] <= hi
  }

  /** The length in bytes of the well-formed rune at the head of `s`, or 0 when the first byte
      starts none and Go decodes it as U+FFFD of size one. */
  function RuneSize(s: Bytes): (n: nat)
    requires s != []
    ensures n <= |s| && n <= 4
    ensures n > 1 ==> forall i :: 0 <= i < n ==> s[i] >= 0x80
    ensures n == 1 <==> s[0] < 0x80
  {
    var c := s[0];
    if c < 0x80 then 1
    else if 0xc2 <= c <= 0xdf then
      if InRange(s, 1, 0x80, 0xbf) then 2 else 0
    else if 0xe0 <= c <= 0xef then
      if InRange(s, 1, if c == 0xe0 then 0xa0 else 0x80, if c == 0xed then 0x9f else 0xbf)
         && InRange(s, 2, 0x80, 0xbf)
      then 3 else 0
    else if 0xf0 <= c <= 0xf4 then
      if InRange(s, 1, if c == 0xf0 then 0x90 else 0x80, if c == 0xf4 then 0x8f else 0xbf)
         && InRange(s, 2, 0x80, 0xbf) && InRange(s, 3, 0x80, 0xbf)
      then 4 else 0
    else 0
  }

  /** Every byte of `s` belongs to a well-formed rune. */
  ghost predicate ValidUtf8(s: Bytes) {
    s == [] || (RuneSize(s) > 0 && ValidUtf8(s[RuneSize(s)..]))
  }

  /** `s` with each invalid byte replaced, one for one, by U+FFFD. */
  ghost function Sanitize(s: Bytes): (r: Bytes) {
    if s == [] then []
    else if RuneSize(s) == 0 then REPLACEMENT + Sanitize(s[1..])
    else s[..RuneSize(s)] + Sanitize(s[RuneSize(s)..])
  }

  /** The literal form of one ASCII byte. */
  function EscapeByte(c: byte): (e: Bytes)
    requires c < 0x80
    ensures forall i :: 0 <= i < |e| ==> e[i] >= 0x20
  {
    if c == QUOTE then [BACKSLASH, QUOTE]
    else if c == BACKSLASH then [BACKSLASH, BACKSLASH]
    else if c == 8 then [BACKSLASH, 0x62]
    else if c == 12 then [BACKSLASH, 0x66]
    else if c == 10 then [BACKSLASH, 0x6e]
    else if c == 13 then [BACKSLASH, 0x72]
    else if c == 9 then [BACKSLASH, 0x74]
    else if c < 0x20 then [BACKSLASH, 0x75, 0x30, 0x30, HexDigit(c / 16), HexDigit(c % 16)]
    else [c]
  }

  /** How section 7 of RFC 8259 spells the ASCII characters: the quotation mark, the reverse solidus and five
      controls after a reverse solidus, the other controls by number, and the rest as they are. */
  lemma EscapesAre(c: byte)
    requires c < 0x80
    ensures
      EscapeByte(c) ==
      match c
      case 34 => Ascii("\\\"")
      case 92 => Ascii("\\\\")
      case 8 => Ascii("\\b")
      case 9 => Ascii("\\t")
      case 10 => Ascii("\\n")
      case 12 => Ascii("\\f")
      case 13 => Ascii("\\r")
      case _ =>
        if c < 32 then
          Ascii("\\u00") + [Ascii("0123456789abcdef")[c / 16], Ascii("0123456789abcdef")[c % 16]]
        else [c]
  {
    HexDigitIs(c / 16);
    HexDigitIs(c % 16);
    hide HexDigit;
    assert Ascii("\\u00") == [92, 117, 48, 48];
  }

  /** The literal form of the rune or invalid byte at the head of `s`, and its length there. */
  function EscapeHead(s: Bytes): (r: (Bytes, nat))
    requires s != []
    ensures 0 < r.1 <= |s|
  {
    var n := RuneSize(s);
    if n == 0 then (REPLACEMENT, 1)
    else if n == 1 then (EscapeByte(s[0]), 1)
    else (s[..n], n)
  }

  /** What stands between the quotes of the literal for `s`. */
  ghost function Escaped(s: Bytes): (r: Bytes) {
    if s == [] then [] else EscapeHead(s).0 + Escaped(s[EscapeHead(s).1..])
  }

  ghost function Quoted(s: Bytes): (r: Bytes) {
    [QUOTE] + Escaped(s) + [QUOTE]
  }

  /** Appends `s` to `dst` as a JSON string literal. */
  method AppendJSONString(dst: Bytes, s: Bytes) returns (r: Bytes)
    ensures r == dst + Quoted(s)
  {
    hide EscapeHead;
    r := dst + [QUOTE];
    var i := 0;
    assert s[i..] == s;
    while i < |s|
      invariant 0 <= i <= |s|
      invariant dst + [QUOTE] + Escaped(s) == r + Escaped(s[i..])
    {
      var head := EscapeHead(s[i..]);
      assert s[i..][head.1..] == s[i + head.1..];
      Seqs.Assoc(r, head.0, Escaped(s[i + head.1..]));
      r := r + head.0;
      i := i + head.1;
    }
    assert s[i..] == [];
    Seqs.TakeAll(r);
    Seqs.Assoc(dst, [QUOTE], Escaped(s));
    Seqs.Assoc(dst, [QUOTE] + Escaped(s), [QUOTE]);
    r := r + [QUOTE];
  }

  /** One character of a literal's body: what it denotes and how many bytes spell it. */
  function UnescapeHead(s: Bytes): (r: Option<(Bytes, nat)>)
    requires s != []
    ensures r.Some? ==> 0 < r.value.1 <= |s|
  {
    if s[0] == BACKSLASH then
      if |s| < 2 then None
      else if s[1] == QUOTE || s[1] == BACKSLASH then Some(([s[1]], 2))
      else if s[1] == 0x62 then Some(([8], 2))
      else if s[1] == 0x66 then Some(([12], 2))
      else if s[1] == 0x6e then Some(([10], 2))
      else if s[1] == 0x72 then Some(([13], 2))
      else if s[1] == 0x74 then Some(([9], 2))
      else if |s| >= 6 && s[1] == 0x75 && s[2] == 0x30 && s[3] == 0x30
              && HexValue(s[4]).Some? && HexValue(s[4]).value < 2 && HexValue(s[5]).Some? then
        Some(([HexValue(s[4]).value * 16 + HexValue(s[5]).value], 6))
      else None
    else if s[0] < 0x20 then None
    else
      var n := RuneSize(s);
      if n == 0 then Some((REPLACEMENT, 1)) else Some((s[..n], n))
  }

  /** Reads a literal's body up to its closing quote: the string and what follows the quote. */
  function Unescape(s: Bytes): (r: Option<(Bytes, Bytes)>)
    ensures r.Some? ==> |r.value.1| < |s|
  {
    if s == [] then None
    else if s[0] == QUOTE then Some(([], s[1..]))
    else
      match UnescapeHead(s)
      case None => None
      case Some(head) =>
        match Unescape(s[head.1..])
        case None => None
        case Some(tail) => Some((head.0 + tail.0, tail.1))
  }

  /** Reads a whole literal, opening quote included. */
  function ParseString(s: Bytes): (r: Option<(Bytes, Bytes)>)
    ensures r.Some? ==> |r.value.1| < |s|
  {
    if s == [] || s[0] != QUOTE then None else Unescape(s[1..])
  }

  /** A well-formed rune is recognised by its own bytes, whatever follows them. */
  lemma RuneSizeStable(s: Bytes, t: Bytes)
    requires s != [] && RuneSize(s) > 0
    ensures RuneSize(s[..RuneSize(s)] + t) == RuneSize(s)
  {
    var n := RuneSize(s);
    var u := s[..n] + t;
    assert forall i :: 0 <= i < n ==> u[i] == s[i];
  }

  lemma UnescapeEscapeHead(s: Bytes, t: Bytes)
    requires s != []
    ensures
      var head := EscapeHead(s);
      var image := if RuneSize(s) == 0 then REPLACEMENT else s[..RuneSize(s)];
      head.0 != [] && head.0[0] != QUOTE
      && UnescapeHead(head.0 + t) == Some((image, |head.0|))
  {
    var head := EscapeHead(s);
    var u := head.0 + t;
    assert forall i :: 0 <= i < |head.0| ==> u[i] == head.0[i];
    var n := RuneSize(s);
    if n > 1 {
      RuneSizeStable(s, t);
    } else if n == 1 {
      assert s[..1] == [s[0]];
      if 0x20 <= s[0] && s[0] != QUOTE && s[0] != BACKSLASH {
        assert u[..1] == [s[0]];
      } else if s[0] < 0x20 && s[0] !in {8, 9, 10, 12, 13} {
        assert s[0] == s[0] / 16 * 16 + s[0] % 16 && s[0] / 16 < 2;
      }
    } else {
      assert u[..3] == REPLACEMENT;
    }
  }

  /** Reading back the literal for `s` gives `s` with its invalid bytes replaced, and leaves
      exactly what followed the literal. */
  lemma {:induction false} ParseQuoted(s: Bytes, t: Bytes)
    ensures ParseString(Quoted(s) + t) == Some((Sanitize(s), t))
  {
    assert (Quoted(s) + t)[1..] == Escaped(s) + [QUOTE] + t;
    UnescapeEscaped(s, t);
  }

  lemma {:induction false} UnescapeEscaped(s: Bytes, t: Bytes)
    ensures Unescape(Escaped(s) + [QUOTE] + t) == Some((Sanitize(s), t))
  {
    if s == [] {
      assert Escaped(s) + [QUOTE] + t == [QUOTE] + t;
    } else {
      var head := EscapeHead(s);
      var rest := s[head.1..];
      var after := Escaped(rest) + [QUOTE] + t;
      assert Escaped(s) + [QUOTE] + t == head.0 + after;
      UnescapeEscapeHead(s, after);
      assert (head.0 + after)[|head.0|..] == after;
      UnescapeEscaped(rest, t);
    }
  }

  /** Replacing invalid bytes before printing changes nothing in the printed form. */
  lemma {:induction false} EscapedSanitize(s: Bytes)
    ensures Escaped(Sanitize(s)) == Escaped(s)
  {
    if s != [] {
      var n := RuneSize(s);
      var rest := s[EscapeHead(s).1..];
      var image := if n == 0 then REPLACEMENT else s[..n];
      var t := Sanitize(rest);
      assert Sanitize(s) == image + t;
      if n > 0 { RuneSizeStable(s, t); }
      assert (image + t)[|image|..] == t;
      EscapedSanitize(rest);
    }
  }

  /** Replacement leaves exactly the well-formed strings alone. */
  lemma {:induction false} SanitizeFixes(s: Bytes)
    ensures |Sanitize(s)| >= |s|
    ensures Sanitize(s) == s <==> ValidUtf8(s)
  {
    if s != [] {
      var n := RuneSize(s);
      if n == 0 {
        SanitizeFixes(s[1..]);
      } else {
        SanitizeFixes(s[n..]);
        assert s == s[..n] + s[n..];
        assert Sanitize(s)[n..] == Sanitize(s[n..]);
      }
    }
  }

  /** A printed literal holds no control byte, so no line feed. */
  lemma {:induction false} QuotedHasNoControl(s: Bytes)
    ensures forall i :: 0 <= i < |Quoted(s)| ==> Quoted(s)[i] >= 0x20
  {
    EscapedHasNoControl(s);
  }

  lemma {:induction false} EscapedHasNoControl(s: Bytes)
    ensures forall i :: 0 <= i < |Escaped(s)| ==> Escaped(s)[i] >= 0x20
  {
    if s != [] {
      var head := EscapeHead(s);
      EscapedHasNoControl(s[head.1..]);
      assert forall i :: 0 <= i < |head.0| ==> head.0[i] >= 0x20;
    }
  }

  /** ASCII text is well-formed already. */
  lemma {:induction false} AsciiStays(s: Bytes)
    requires forall i :: 0 <= i < |s| ==> s[i] < 0x80
    ensures Sanitize(s) == s
  {
    if s != [] { AsciiStays(s[1..]); }
  }
}
