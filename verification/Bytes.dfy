/** Byte buffers: 16-bit fields in both byte orders, and the in-place moves the driver makes. */
module Bytes {
  type Byte = x: int | 0 <= x < 256

  /** `s` with the bytes from `at` on replaced by `data`. */
  function Patched(s: seq<Byte>, at: nat, data: seq<Byte>): (r: seq<Byte>)
    requires at + |data| <= |s|
    ensures |r| == |s|
  {
    s[..at] + data + s[at + |data|..]
  }

  /** Byte by byte. */
  lemma PatchedAt(s: seq<Byte>, at: nat, data: seq<Byte>, i: nat)
    requires at + |data| <= |s| && i < |s|
    ensures Patched(s, at, data)[i] == if at <= i < at + |data| then data[i - at] else s[i]
  {
  }

  /** memmove of n bytes. */
  function Moved(s: seq<Byte>, dst: nat, src: nat, n: nat): (r: seq<Byte>)
    requires dst + n <= |s| && src + n <= |s|
    ensures |r| == |s|
  {
    Patched(s, dst, s[src..src + n])
  }

  function Be16(s: seq<Byte>, i: nat): nat
    requires i + 2 <= |s|
  {
    s[i] as int * 256 + s[i + 1]
  }

  function Le16(s: seq<Byte>, i: nat): nat
    requires i + 2 <= |s|
  {
    s[i + 1] as int * 256 + s[i]
  }

  function ToBe16(n: nat): (r: seq<Byte>)
    ensures |r| == 2
  {
    [n / 256 % 256, n % 256]
  }

  function ToLe16(n: nat): (r: seq<Byte>)
    ensures |r| == 2
  {
    [n % 256, n / 256 % 256]
  }

  function Zeros(n: nat): (r: seq<Byte>)
    ensures |r| == n && forall i :: 0 <= i < n ==> r[i] == 0
  {
    seq(n, _ => 0)
  }

  method Move(a: array<Byte>, dst: nat, src: nat, n: nat)
    requires dst + n <= a.Length && src + n <= a.Length
    modifies a
    ensures a[..] == Moved(old(a[..]), dst, src, n)
  {
    ghost var s := a[..];
    forall i | 0 <= i < n { a[dst + i] := a[src + i]; }
    assert a[..dst] == s[..dst] && a[dst..dst + n] == s[src..src + n] && a[dst + n..] == s[dst + n..];
  }

  method Store(a: array<Byte>, at: nat, data: seq<Byte>)
    requires at + |data| <= a.Length
    modifies a
    ensures a[..] == Patched(old(a[..]), at, data)
  {
    forall i | 0 <= i < |data| { a[at + i] := data[i]; }
  }
}
