/** Strings of bytes: little-endian numbers, bytes put in place and bytes found in place. */
module Bytes {
  type byte = n: int | 0 <= n < 256

  // ----- Little-endian numbers -----

  function Pow256(w: nat): (p: nat)
    ensures p > 0
  {
    if w == 0 then 1 else 256 * Pow256(w - 1)
  }

  function ToBytes(w: nat, n: nat): (b: seq<byte>)
    ensures |b| == w
  {
    if w == 0 then [] else [n % 256] + ToBytes(w - 1, n / 256)
  }

  function FromBytes(b: seq<byte>): nat {
    if b == [] then 0 else b[0] + 256 * FromBytes(b[1..])
  }

  lemma {:induction false} BytesOfNumber(w: nat, n: nat)
    requires n < Pow256(w)
    ensures FromBytes(ToBytes(w, n)) == n
  {
    if w > 0 {
      BytesOfNumber(w - 1, n / 256);
      assert ToBytes(w, n)[1..] == ToBytes(w - 1, n / 256);
    }
  }

  lemma {:induction false} NumberOfBytes(b: seq<byte>)
    ensures FromBytes(b) < Pow256(|b|)
    ensures ToBytes(|b|, FromBytes(b)) == b
  {
    if b != [] {
      NumberOfBytes(b[1..]);
    }
  }

  // ----- Concatenation and slices -----

  lemma SplitAt(b: seq<byte>, n: nat)
    requires n <= |b|
    ensures b == b[..n] + b[n..]
  {
  }

  lemma Cut(a: seq<byte>, b: seq<byte>)
    ensures (a + b)[..|a|] == a && (a + b)[|a|..] == b
  {
  }

  lemma Assoc(a: seq<byte>, b: seq<byte>, c: seq<byte>)
    ensures a + b + c == a + (b + c)
  {
  }

  // ----- Bytes in place -----

  function Put(buffer: seq<byte>, at: nat, b: seq<byte>): (r: seq<byte>)
    requires at + |b| <= |buffer|
    ensures |r| == |buffer|
    ensures forall i :: 0 <= i < |r| && (i < at || at + |b| <= i) ==> r[i] == buffer[i]
  {
    buffer[..at] + b + buffer[at + |b|..]
  }

  /** Only `n` bytes from `at` and `x` bytes from `extra` may differ. */
  predicate Framed(r: seq<byte>, buffer: seq<byte>, at: nat, n: nat, extra: nat, x: nat) {
    && |r| == |buffer|
    && forall i :: 0 <= i < |buffer| && !(at <= i < at + n) && !(extra <= i < extra + x) ==> r[i] == buffer[i]
  }

  predicate Holds(r: seq<byte>, at: nat, b: seq<byte>) {
    at + |b| <= |r| && r[at..at + |b|] == b
  }

  lemma JoinHolds(r: seq<byte>, at: nat, a: seq<byte>, b: seq<byte>)
    requires Holds(r, at, a) && Holds(r, at + |a|, b)
    ensures Holds(r, at, a + b)
  {
  }

  lemma EmptyHolds(r: seq<byte>, at: nat)
    requires at <= |r|
    ensures Holds(r, at, [])
  {
  }

  lemma PutHolds(buffer: seq<byte>, at: nat, b: seq<byte>)
    requires at + |b| <= |buffer|
    ensures Holds(Put(buffer, at, b), at, b)
  {
  }

  /** Bytes outside the two regions stay as a whole. */
  lemma KeepsHolds(r: seq<byte>, buffer: seq<byte>, at: nat, n: nat, extra: nat, x: nat, lo: nat, b: seq<byte>)
    requires Framed(r, buffer, at, n, extra, x) && Holds(buffer, lo, b)
    requires n == 0 || lo + |b| <= at || at + n <= lo
    requires x == 0 || lo + |b| <= extra || extra + x <= lo
    ensures Holds(r, lo, b)
  {
    assert forall i :: lo <= i < lo + |b| ==> r[i] == buffer[i];
  }
}
