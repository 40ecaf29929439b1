/** Bytes, little-endian fields and in-place writes into a byte buffer. */
module Bytes {

  import opened Arithmetic

  type byte = x: int | 0 <= x < 256

  /** A 16-bit number. */
  type word = x: int | 0 <= x < 0x1_0000

  function Pow256(n: nat): (p: nat)
    ensures p >= 1
  {
    if n == 0 then 1 else 256 * Pow256(n - 1)
  }

  /** The n low-order bytes of v, least significant first. */
  function ToLe(v: nat, n: nat): (s: seq<byte>)
    ensures |s| == n
  {
    if n == 0 then [] else [v % 256] + ToLe(v / 256, n - 1)
  }

  function FromLe(s: seq<byte>): nat {
    if |s| == 0 then 0 else s[0] + 256 * FromLe(s[1..])
  }

  lemma {:induction false} FromToLe(v: nat, n: nat)
    ensures FromLe(ToLe(v, n)) == v % Pow256(n)
    decreases n
  {
    if n == 0 {
      assert v % 1 == 0;
    } else {
      var p := Pow256(n - 1);
      var rest := v / 256;
      FromToLe(rest, n - 1);
      assert ToLe(v, n)[1..] == ToLe(rest, n - 1);
      SplitMod(v, 256, p);
    }
  }

  /** A field that was not truncated reads back as it was written. */
  lemma FieldReadsBack(v: nat, n: nat)
    requires n == 2 || n == 4
    ensures FromLe(ToLe(v, n)) == v % (if n == 2 then 0x1_0000 else 0x1_0000_0000)
  {
    FromToLe(v, n);
    assert Pow256(2) == 0x1_0000;
    assert n == 4 ==> Pow256(4) == 256 * (256 * Pow256(2));
  }

  lemma {:induction false} FromLeBound(s: seq<byte>)
    ensures FromLe(s) < Pow256(|s|)
    decreases |s|
  {
    if |s| > 0 {
      FromLeBound(s[1..]);
    }
  }

  /** b with the bytes at offset off replaced by d. */
  function Put(b: seq<byte>, off: nat, d: seq<byte>): (r: seq<byte>)
    requires off + |d| <= |b|
    ensures |r| == |b|
  {
    b[..off] + d + b[off + |d|..]
  }

  function Slice(b: seq<byte>, off: nat, n: nat): (r: seq<byte>)
    requires off + n <= |b|
    ensures |r| == n
  {
    b[off..off + n]
  }

  /** A slice of a slice. */
  lemma SliceOfSlice(b: seq<byte>, o: nat, m: nat, k: nat, n: nat)
    requires o + m <= |b| && k + n <= m
    ensures Slice(Slice(b, o, m), k, n) == Slice(b, o + k, n)
  {
    var whole, part := Slice(Slice(b, o, m), k, n), Slice(b, o + k, n);
    forall i | 0 <= i < n
      ensures whole[i] == part[i]
    {
      assert whole[i] == Slice(b, o, m)[k + i] == b[o + k + i] == part[i];
    }
  }

  lemma SlicePutSame(b: seq<byte>, off: nat, d: seq<byte>)
    requires off + |d| <= |b|
    ensures Slice(Put(b, off, d), off, |d|) == d
  {
  }

  lemma SlicePutApart(b: seq<byte>, off: nat, d: seq<byte>, o: nat, n: nat)
    requires off + |d| <= |b| && o + n <= |b|
    requires o + n <= off || off + |d| <= o
    ensures Slice(Put(b, off, d), o, n) == Slice(b, o, n)
  {
  }

  /** RtlCopyMemory into a buffer at an offset. */
  method CopyMemory(dst: array<byte>, off: nat, src: seq<byte>)
    requires off + |src| <= dst.Length
    modifies dst
    ensures dst[..] == Put(old(dst[..]), off, src)
  {
    forall i | 0 <= i < |src| {
      dst[off + i] := src[i];
    }
  }
}
