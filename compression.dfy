// The constant bit rate compression contract of
// src/ImageSharp/Memory/IConstantBitRateCompression.cs, and the
// little-endian compression of a given element width that meets it.

module Compression {
  import opened Common

  /**
   * A compression in which every element takes exactly elementSize bytes.
   * Compress turns a span of elements into its bytes, Decompress turns a
   * span of bytes back into elements.
   */
  datatype Compression<!T(!new)> = Compression(
    elementSize: nat,
    compress: seq<T> -> seq<byte>,
    decompress: seq<byte> -> seq<T>)
  {
    /** The length laws a constant bit rate compression obeys. */
    ghost predicate Valid() {
      elementSize > 0
      && (forall s: seq<T> :: |compress(s)| == Mul(|s|, elementSize))
      && (forall b: seq<byte> :: |decompress(b)| == Quotient(|b|, elementSize))
    }

    /** Decompressing the compressed form of s gives s back. */
    ghost predicate LosslessOn(s: seq<T>) {
      decompress(compress(s)) == s
    }
  }

  /** 256 to the power w: the number of values w bytes can hold. */
  function Pow256(w: nat): (r: nat)
    ensures r > 0
  {
    if w == 0 then 1 else 256 * Pow256(w - 1)
  }

  /** The w little-endian bytes of x, reduced modulo 256^w as an unchecked cast does. */
  function EncodeElement(x: int, w: nat): (r: seq<byte>)
    ensures |r| == w
    decreases w
  {
    if w == 0 then [] else [(x % 256) as byte] + EncodeElement(x / 256, w - 1)
  }

  /** The value of little-endian bytes. */
  function DecodeElement(b: seq<byte>): (r: nat)
    ensures r < Pow256(|b|)
  {
    if b == [] then 0 else b[0] as nat + 256 * DecodeElement(b[1..])
  }

  lemma {:induction false} DecodeEncode(x: int, w: nat)
    requires 0 <= x < Pow256(w)
    ensures DecodeElement(EncodeElement(x, w)) == x
  {
    if w > 0 {
      var e := EncodeElement(x, w);
      assert e[1..] == EncodeElement(x / 256, w - 1);
      DecodeEncode(x / 256, w - 1);
    }
  }

  /** Compress: every element in turn, w bytes each. */
  function CompressAll(w: nat, s: seq<int>): (r: seq<byte>)
    ensures |r| == Mul(|s|, w)
  {
    if s == [] then [] else EncodeElement(s[0], w) + CompressAll(w, s[1..])
  }

  /** Decompress: every group of w bytes in turn becomes one element; a short tail is dropped. */
  function DecompressAll(w: nat, b: seq<byte>): (r: seq<int>)
    requires w > 0
    ensures |r| == Quotient(|b|, w)
    decreases |b|
  {
    if |b| < w then [] else [DecodeElement(b[..w]) as int] + DecompressAll(w, b[w..])
  }

  /** A compression storing each element as its w low-order bytes, little endian. */
  function LittleEndian(w: nat): (c: Compression<int>)
    requires w > 0
    ensures c.Valid()
  {
    Compression(w, s => CompressAll(w, s), b => DecompressAll(w, b))
  }

  /** True when every element fits in w bytes. */
  predicate FitsIn(w: nat, s: seq<int>) {
    forall i :: 0 <= i < |s| ==> 0 <= s[i] < Pow256(w)
  }

  /** Decompressing the little-endian bytes of elements that fit gives them back. */
  lemma {:induction false} DecompressCompress(w: nat, s: seq<int>)
    requires w > 0 && FitsIn(w, s)
    ensures DecompressAll(w, CompressAll(w, s)) == s
    decreases |s|
  {
    if s != [] {
      var head := EncodeElement(s[0], w);
      var all := CompressAll(w, s);
      assert all == head + CompressAll(w, s[1..]);
      assert all[..w] == head;
      assert all[w..] == CompressAll(w, s[1..]);
      DecodeEncode(s[0], w);
      DecompressCompress(w, s[1..]);
    }
  }

  /** The little-endian compression is lossless on every span whose elements fit. */
  lemma LittleEndianLossless(w: nat, s: seq<int>)
    requires w > 0 && FitsIn(w, s)
    ensures LittleEndian(w).LosslessOn(s)
  {
    DecompressCompress(w, s);
  }
}
