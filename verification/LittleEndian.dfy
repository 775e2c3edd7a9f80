/** Little-endian integers of a fixed width. */
module LittleEndian {
  import opened ByteStrings

  function Pow256(k: nat): (p: nat)
    ensures p > 0
  {
    if k == 0 then 1 else 256 * Pow256(k - 1)
  }

  /** `n` in `k` bytes, least significant first; what does not fit is cut off. */
  function Put(n: nat, k: nat): (s: Bytes)
    ensures |s| == k
  {
    if k == 0 then [] else [n % 256] + Put(n / 256, k - 1)
  }

  function Get(s: Bytes): (n: nat)
    ensures n < Pow256(|s|)
  {
    if s == [] then 0 else s[0] + 256 * Get(s[1..])
  }

  lemma {:induction false} GetPut(n: nat, k: nat)
    ensures Get(Put(n, k)) == n % Pow256(k)
    ensures n < Pow256(k) ==> Get(Put(n, k)) == n
  {
    if k > 0 {
      GetPut(n / 256, k - 1);
      assert Put(n, k)[1..] == Put(n / 256, k - 1);
      ModSplit(n, Pow256(k - 1));
    }
  }

  lemma ModSplit(n: nat, p: nat)
    requires p > 0
    ensures n % (256 * p) == n % 256 + 256 * (n / 256 % p)
    ensures n < 256 * p ==> n / 256 < p
  {
    var q := n / 256;
    assert n == 256 * q + n % 256;
    assert q == p * (q / p) + q % p;
    assert n == 256 * p * (q / p) + (n % 256 + 256 * (q % p));
    assert 0 <= n % 256 + 256 * (q % p) < 256 * p;
    ModUnique(n, 256 * p, q / p, n % 256 + 256 * (q % p));
  }

  lemma ModUnique(n: nat, m: nat, q: nat, r: nat)
    requires m > 0 && r < m && n == m * q + r
    ensures n % m == r
  {
    var d, e := n / m, n % m;
    assert m * d + e == m * q + r;
    if d != q { Apart(m, if d < q then q - d else d - q); }
    assert m * q - m * d == m * (q - d);
    assert d == q;
  }

  lemma Apart(m: nat, k: nat)
    requires k > 0
    ensures m * k >= m
  {
  }

  lemma {:induction false} PutGet(s: Bytes)
    ensures Put(Get(s), |s|) == s
  {
    if s != [] {
      PutGet(s[1..]);
      assert Get(s) / 256 == Get(s[1..]) && Get(s) % 256 == s[0];
    }
  }

  lemma Widths()
    ensures Pow256(4) == TWO32 && Pow256(8) == TWO64
  {
    assert Pow256(4) == 256 * Pow256(3) && Pow256(3) == 256 * Pow256(2);
    assert Pow256(2) == 256 * Pow256(1) && Pow256(1) == 256 * Pow256(0);
    assert Pow256(8) == 256 * Pow256(7) && Pow256(7) == 256 * Pow256(6);
    assert Pow256(6) == 256 * Pow256(5) && Pow256(5) == 256 * Pow256(4);
  }

  lemma GetPut32(n: nat)
    ensures n < TWO32 ==> Get(Put(n, 4)) == n
    ensures Get(Put(n, 4)) == n % TWO32
  {
    GetPut(n, 4);
    Widths();
  }

  lemma GetPut64(n: nat)
    requires n < TWO64
    ensures Get(Put(n, 8)) == n
  {
    GetPut(n, 8);
    Widths();
  }

  lemma GetBounds(s: Bytes)
    ensures |s| == 4 ==> Get(s) < TWO32
    ensures |s| == 8 ==> Get(s) < TWO64
  {
    Widths();
  }

  lemma {:induction false} PutZero(k: nat)
    ensures Put(0, k) == seq(k, _ => 0)
  {
    if k > 0 { PutZero(k - 1); }
  }
}
