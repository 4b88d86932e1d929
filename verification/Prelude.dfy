/** Small shared vocabulary: optional values, client addresses and counting. */
module Prelude {

  datatype Option<+T> = None | Some(value: T)

  /** The 64-bit machine word of `usize` and `u64`. */
  const WORD: nat := 0x1_0000_0000_0000_0000

  type Word = n: nat | n < WORD

  /** One second, in nanoseconds. */
  const SECOND: nat := 1_000_000_000

  newtype Octet = n: int | 0 <= n < 256

  /** Twelve bytes, read as one number. */
  type Head = n: nat | n < 0x1_0000_0000_0000_0000_0000_0000

  /** The four bytes of an IPv4 address, or the sixteen of an IPv6 address: its first twelve and its last four. */
  datatype IpAddr =
    | V4(a: Octet, b: Octet, c: Octet, d: Octet)
    | V6(head: Head, w: Octet, x: Octet, y: Octet, z: Octet)

  function Min(a: int, b: int): int {
    if a <= b then a else b
  }

  /** How many positions of `s` in `[lo, hi)` are set. */
  function Count(s: seq<bool>, lo: nat, hi: nat): nat
    requires lo <= hi <= |s|
  {
    if lo == hi then 0 else Count(s, lo, hi - 1) + if s[hi - 1] then 1 else 0
  }

  /** The elements of `s` whose mask bit is set, in order. */
  function Keep<T>(s: seq<T>, mask: seq<bool>): seq<T>
    requires |s| == |mask|
  {
    if s == [] then []
    else
      var n := |s| - 1;
      if mask[n] then Keep(s[..n], mask[..n]) + [s[n]] else Keep(s[..n], mask[..n])
  }

  /** No occurrence of `c` comes before a prefix free of it ends. */
  lemma FirstBound(s: string, c: char, i: nat, j: nat)
    requires i < |s| && s[i] == c && j <= |s| && c !in s[..j]
    ensures j <= i
  {}

  /** No occurrence of `c` comes after a suffix free of it starts. */
  lemma LastBound(s: string, c: char, i: nat, j: nat)
    requires i < |s| && s[i] == c && j <= |s| && c !in s[j..]
    ensures i < j
  {}
}
