/** Byte strings, as Go's `string` and `[]byte` hold them. */
module ByteStrings {

  type byte = b: int | 0 <= b < 256

  type Bytes = seq<byte>

  /** The bytes of a printable ASCII literal; anything else in it becomes '?'. */
  function Ascii(s: string): (b: Bytes)
    ensures |b| == |s| && forall i :: 0 <= i < |b| ==> 0x20 <= b[i] < 0x7f
  {
    seq(|s|, i requires 0 <= i < |s| => if ' ' <= s[i] <= '~' then s[i] as int else 63)
  }

  const NEWLINE: byte := 10

  const TWO32 := 0x1_0000_0000
  const TWO63 := 0x8000_0000_0000_0000
  const TWO64 := 0x1_0000_0000_0000_0000

  type uint64 = n: int | 0 <= n < TWO64
  type int64 = n: int | -TWO63 <= n < TWO63

  /** No byte of `s` is a line feed. */
  ghost predicate NoNewline(s: Bytes) {
    forall i :: 0 <= i < |s| ==> s[i] != NEWLINE
  }
}

/** Optional values, usable with `:-`. */
module Options {
  datatype Option<+T> = None | Some(value: T) {
    predicate IsFailure() { None? }

    function PropagateFailure<U>(): Option<U>
      requires None?
    {
      None
    }

    function Extract(): T
      requires Some?
    {
      value
    }
  }
}

/** A value, or why there is none. */
module Results {
  datatype Result<+T, +E> = Ok(value: T) | Err(error: E)
}

/** Facts about sequences that proofs call by name. */
module Seqs {
  lemma Assoc<T>(a: seq<T>, b: seq<T>, c: seq<T>)
    ensures a + b + c == a + (b + c)
  {
  }

  lemma TakeAll<T>(s: seq<T>)
    ensures s[..|s|] == s && s + [] == s && [] + s == s
  {
  }

  lemma FrontThenLast<T>(s: seq<T>)
    requires s != []
    ensures s == s[..|s| - 1] + [s[|s| - 1]]
  {
  }

  lemma TakeOfFront<T>(s: seq<T>, n: nat)
    requires n < |s|
    ensures s[..n] == s[..|s| - 1][..n]
  {
  }

  lemma TakeSplit<T>(s: seq<T>, n: nat, k: nat)
    requires n + k <= |s|
    ensures s[..n + k] == s[..n] + s[n..][..k]
  {
  }

  lemma MultisetWithout<T>(s: seq<T>, i: nat)
    requires i < |s|
    ensures multiset(s[..i] + s[i + 1..]) == multiset(s) - multiset{s[i]}
  {
    assert s == s[..i] + [s[i]] + s[i + 1..];
  }

  lemma AppendParts<T>(a: seq<T>, b: seq<T>)
    ensures (a + b)[..|a|] == a && (a + b)[|a|..] == b
  {
  }

  lemma DropOfAppend<T>(a: seq<T>, b: seq<T>, n: nat)
    requires n <= |a|
    ensures (a + b)[n..] == a[n..] + b && (a + b)[..n] == a[..n]
  {
  }
}
