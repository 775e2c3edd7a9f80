/** What the byte scanner takes for a character: the encodings of section 3 of RFC 3629, and nothing else. */
module Utf8 {
  import opened ByteStrings
  import opened JsonString
  import Seqs

  /** A Unicode scalar value: any code point but a surrogate. */
  type Scalar = r: int | 0 <= r < 0xd800 || 0xe000 <= r < 0x11_0000

  /** A continuation byte. */
  function Cont(n: int): (b: byte)
    requires 0 <= n < 64
  {
    0x80 + n
  }

  /** A first byte. */
  function Lead(mark: int, n: int): (b: byte)
    requires 0 <= n && 0 <= mark + n < 256
  {
    mark + n
  }

  function Encode(r: Scalar): (s: Bytes)
    ensures 1 <= |s| <= 4
  {
    if r < 0x80 then [Lead(0, r)]
    else if r < 0x800 then [Lead(0xc0, r / 64), Cont(r % 64)]
    else if r < 0x1_0000 then [Lead(0xe0, r / 4096), Cont(r / 64 % 64), Cont(r % 64)]
    else [Lead(0xf0, r / 262144), Cont(r / 4096 % 64), Cont(r / 64 % 64), Cont(r % 64)]
  }

  lemma TwoParts(a: int, b: int)
    requires 0 <= b < 64
    ensures (a * 64 + b) / 64 == a && (a * 64 + b) % 64 == b
  {
  }

  lemma ThreeParts(a: int, b: int, c: int)
    requires 0 <= b < 64 && 0 <= c < 64
    ensures (a * 4096 + b * 64 + c) / 4096 == a && (a * 4096 + b * 64 + c) / 64 % 64 == b
    ensures (a * 4096 + b * 64 + c) % 64 == c
  {
    TwoParts(a * 64 + b, c);
    TwoParts(a, b);
    assert a * 4096 + b * 64 + c == (a * 64 + b) * 64 + c;
  }

  lemma FourParts(a: int, b: int, c: int, d: int)
    requires 0 <= b < 64 && 0 <= c < 64 && 0 <= d < 64
    ensures
      var r := a * 262144 + b * 4096 + c * 64 + d;
      r / 262144 == a && r / 4096 % 64 == b && r / 64 % 64 == c && r % 64 == d
  {
    var r := a * 262144 + b * 4096 + c * 64 + d;
    ThreeParts(a * 64 + b, c, d);
    TwoParts(a, b);
    assert r == (a * 64 + b) * 4096 + c * 64 + d;
  }

  /** What the scanner takes for a character of several bytes is one encoded. */
  lemma RuneIsEncoded(s: Bytes) returns (r: Scalar)
    requires s != [] && RuneSize(s) > 0
    ensures Encode(r) == s[..RuneSize(s)]
  {
    var n := RuneSize(s);
    if n == 1 {
      r := s[0];
    } else if n == 2 {
      var a: int, b: int := s[0], s[1];
      r := (a - 0xc0) * 64 + (b - 0x80);
      TwoParts(a - 0xc0, b - 0x80);
    } else if n == 3 {
      var a: int, b: int, c: int := s[0], s[1], s[2];
      r := (a - 0xe0) * 4096 + (b - 0x80) * 64 + (c - 0x80);
      ThreeParts(a - 0xe0, b - 0x80, c - 0x80);
    } else {
      var a: int, b: int, c: int, d: int := s[0], s[1], s[2], s[3];
      r := (a - 0xf0) * 262144 + (b - 0x80) * 4096 + (c - 0x80) * 64 + (d - 0x80);
      FourParts(a - 0xf0, b - 0x80, c - 0x80, d - 0x80);
    }
  }

  lemma PartsOf(r: Scalar)
    ensures r / 64 == r / 4096 * 64 + r / 64 % 64 && r / 4096 == r / 262144 * 64 + r / 4096 % 64
    ensures r == r / 64 * 64 + r % 64
  {
    assert r / 64 / 64 == r / 4096 && r / 4096 / 64 == r / 262144;
  }

  /** Every encoding is taken for a character of its own size, whatever follows it. */
  lemma EncodedIsRune(r: Scalar, t: Bytes)
    ensures RuneSize(Encode(r) + t) == |Encode(r)|
  {
    PartsOf(r);
    var e := Encode(r);
    var s := e + t;
    assert s[0] == e[0];
    if r < 0x80 {
    } else if r < 0x800 {
      assert s[1] == e[1];
    } else if r < 0x1_0000 {
      assert s[1] == e[1] && s[2] == e[2];
      assert s[0] == 0xe0 ==> s[1] >= 0xa0;
      assert s[0] == 0xed ==> s[1] <= 0x9f;
    } else {
      assert s[1] == e[1] && s[2] == e[2] && s[3] == e[3];
      assert s[0] == 0xf0 ==> s[1] >= 0x90;
      assert s[0] == 0xf4 ==> s[1] <= 0x8f;
    }
  }

  /** The encoding of a text. */
  ghost function EncodeAll(rs: seq<Scalar>): (s: Bytes) {
    if rs == [] then [] else Encode(rs[0]) + EncodeAll(rs[1..])
  }

  lemma {:induction false} ValidIsEncoded(s: Bytes) returns (rs: seq<Scalar>)
    requires ValidUtf8(s)
    ensures EncodeAll(rs) == s
  {
    hide RuneSize, Encode;
    rs := [];
    if s != [] {
      var r := RuneIsEncoded(s);
      var rest := ValidIsEncoded(s[RuneSize(s)..]);
      rs := [r] + rest;
      assert rs[1..] == rest;
    }
  }

  lemma {:induction false} EncodedIsValid(rs: seq<Scalar>)
    ensures ValidUtf8(EncodeAll(rs))
  {
    hide RuneSize, Encode;
    if rs != [] {
      var tail := EncodeAll(rs[1..]);
      EncodedIsRune(rs[0], tail);
      EncodedIsValid(rs[1..]);
      Seqs.AppendParts(Encode(rs[0]), tail);
    }
  }

  /** A byte string is well formed, and so kept as it is by a literal, exactly when it encodes some text. */
  lemma ValidExactly(s: Bytes)
    ensures ValidUtf8(s) <==> exists rs :: EncodeAll(rs) == s
    ensures Sanitize(s) == s <==> exists rs :: EncodeAll(rs) == s
  {
    hide ValidUtf8, EncodeAll, Sanitize;
    SanitizeFixes(s);
    if ValidUtf8(s) { var rs := ValidIsEncoded(s); }
    if rs :| EncodeAll(rs) == s { EncodedIsValid(rs); }
  }
}
