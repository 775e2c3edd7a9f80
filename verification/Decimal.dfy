/** Base-10 integers as Go's strconv prints them and as a JSON reader takes them back. */
module Decimal {
  import opened ByteStrings
  import opened Options

  const MINUS: byte := 45

  predicate IsDigit(b: byte) { 48 <= b <= 57 }

  predicate AllDigits(s: Bytes) {
    forall i :: 0 <= i < |s| ==> IsDigit(s[i])
  }

  function Nat(n: nat): (s: Bytes)
    ensures s != [] && AllDigits(s)
    ensures s[0] == 48 <==> n == 0
    ensures n < 10 <==> |s| == 1
  {
    if n < 10 then [48 + n] else Nat(n / 10) + [48 + n % 10]
  }

  function Int(n: int): (s: Bytes) {
    if n < 0 then [MINUS] + Nat(-n) else Nat(n)
  }

  /** The number a run of digits denotes. */
  function Value(s: Bytes): (n: nat)
    requires AllDigits(s)
  {
    if s == [] then 0 else Value(s[..|s| - 1]) * 10 + (s[|s| - 1] - 48)
  }

  /** How many digits `s` starts with. */
  function DigitRun(s: Bytes): (n: nat)
    ensures n <= |s| && AllDigits(s[..n])
    ensures n < |s| ==> !IsDigit(s[n])
  {
    if s == [] || !IsDigit(s[0]) then 0
    else
      var n := 1 + DigitRun(s[1..]);
      assert s[..n] == [s[0]] + s[1..][..n - 1];
      n
  }

  /** Reads an unsigned number with no needless leading zero. */
  function ParseNat(s: Bytes): (r: Option<(nat, Bytes)>)
    ensures r.Some? ==> |r.value.1| < |s|
  {
    var n := DigitRun(s);
    if n == 0 || (n > 1 && s[0] == 48) then None else Some((Value(s[..n]), s[n..]))
  }

  function ParseInt(s: Bytes): (r: Option<(int, Bytes)>)
    ensures r.Some? ==> |r.value.1| < |s|
  {
    if s != [] && s[0] == MINUS then
      var r :- ParseNat(s[1..]);
      if r.0 == 0 then None else Some((-(r.0 as int), r.1))
    else
      var r :- ParseNat(s);
      Some((r.0, r.1))
  }

  lemma {:induction false} ValueNat(n: nat)
    ensures Value(Nat(n)) == n
  {
    if n < 10 {
      assert Nat(n)[..0] == [];
    } else {
      ValueNat(n / 10);
      assert Nat(n)[..|Nat(n)| - 1] == Nat(n / 10);
    }
  }

  lemma {:induction false} DigitRunIs(s: Bytes, t: Bytes)
    requires AllDigits(s)
    requires t == [] || !IsDigit(t[0])
    ensures DigitRun(s + t) == |s|
  {
    if s == [] {
      assert s + t == t;
    } else {
      assert (s + t)[1..] == s[1..] + t;
      DigitRunIs(s[1..], t);
    }
  }

  function Zeros(n: nat): (s: Bytes)
    ensures |s| == n && AllDigits(s)
  {
    seq(n, _ => 48)
  }

  lemma {:induction false} ValueZeros(n: nat, s: Bytes)
    requires AllDigits(s)
    ensures Value(Zeros(n) + s) == Value(s)
  {
    if s == [] {
      if n > 0 {
        assert (Zeros(n) + s)[..n - 1] == Zeros(n - 1) + s;
        ValueZeros(n - 1, s);
      } else {
        assert Zeros(n) + s == s;
      }
    } else {
      assert (Zeros(n) + s)[..n + |s| - 1] == Zeros(n) + s[..|s| - 1];
      ValueZeros(n, s[..|s| - 1]);
    }
  }

  /** A run of digits is zeros and then the number it denotes, as it is printed. */
  lemma {:induction false} DigitsSpell(s: Bytes) returns (z: nat)
    requires s != [] && AllDigits(s)
    ensures s == Zeros(z) + Nat(Value(s))
  {
    var front, d := s[..|s| - 1], s[|s| - 1] - 48;
    z := 0;
    if front == [] {
      assert s == [48 + d];
    } else {
      z := DigitsSpell(front);
      if Value(front) == 0 {
        assert front == Zeros(z + 1);
        z := z + 1;
      }
      assert s == front + [48 + d];
    }
  }

  lemma DigitsSpelled(z: nat, m: nat)
    ensures
      var s := Zeros(z) + Nat(m);
      s != [] && AllDigits(s) && Value(s) == m && IsDigit(s[0])
  {
    hide Value, Nat;
    ValueZeros(z, Nat(m));
    ValueNat(m);
  }

  /** A printed integer is read back, and reading stops where printing did. */
  lemma ParseIntPrinted(n: int, t: Bytes)
    requires t == [] || !IsDigit(t[0])
    ensures ParseInt(Int(n) + t) == Some((n, t))
  {
    var m := if n < 0 then -n else n;
    DigitRunIs(Nat(m), t);
    ValueNat(m);
    assert (Nat(m) + t)[..|Nat(m)|] == Nat(m) && (Nat(m) + t)[|Nat(m)|..] == t;
    if n < 0 {
      assert (Int(n) + t)[1..] == Nat(m) + t;
    }
  }

  lemma IntHasNoControl(n: int)
    ensures forall i :: 0 <= i < |Int(n)| ==> Int(n)[i] >= 0x20
  {
    var m := if n < 0 then -n else n;
    assert AllDigits(Nat(m));
  }

  function Pow10(k: nat): (p: nat)
    ensures p > 0
  {
    if k == 0 then 1 else 10 * Pow10(k - 1)
  }

  /** How many digits a number needs. */
  lemma {:induction false} NatWidth(n: nat, k: nat)
    requires k > 0
    ensures |Nat(n)| <= k <==> n < Pow10(k)
  {
    if n < 10 {
      assert Pow10(k) >= 10 by { assert Pow10(k) == 10 * Pow10(k - 1); }
    } else if k > 1 {
      NatWidth(n / 10, k - 1);
    } else {
      assert Pow10(1) == 10 * Pow10(0);
    }
  }

  lemma Powers()
    ensures Pow10(2) == 100 && Pow10(3) == 1000 && Pow10(4) == 10000
  {
    assert Pow10(2) == 10 * Pow10(1) && Pow10(1) == 10 * Pow10(0);
    assert Pow10(4) == 10 * Pow10(3);
  }

  lemma Pow10Of20()
    ensures Pow10(20) > TWO64
  {
    Powers();
    assert Pow10(8) == 1_0000_0000;
    assert Pow10(12) == 1_0000_0000_0000;
    assert Pow10(16) == 1_0000_0000_0000_0000;
  }
}
