/**
 The binary Merkle tree hash of a chunk, and the simple reference hasher that computes it
 (merkletree/merkletree_r.go).

 The base hash (keccak256 in the program) is a parameter `H`; `size` is the segment size.
 A chunk of at most two segments is hashed directly.  A longer chunk is cut at the largest
 `size * 2^k` below its length; the left part is hashed as a tree, and so is the right part
 unless it is a single segment, which enters its parent unhashed.
 */
module Bmt {

  type Byte = x: int | 0 <= x < 256
  type Bytes = seq<Byte>
  type BaseHash = Bytes -> Bytes

  /** `s` is `size * 2^k` for some k >= 1. */
  ghost predicate IsSpan(size: nat, s: nat)
  {
    s == 2 * size || (s > 2 * size && s % 2 == 0 && IsSpan(size, s / 2))
  }

  /** The largest `s * 2^k` below `n`. */
  function SpanFrom(s: nat, n: nat): (r: nat)
    requires 0 < s < n
    ensures s <= r < n <= 2 * r
    decreases n - s
  {
    if 2 * s < n then SpanFrom(2 * s, n) else s
  }

  /** The cut position of a chunk of `n` bytes. */
  function Span(size: nat, n: nat): (r: nat)
    requires 0 < size && 2 * size < n
    ensures 2 * size <= r < n <= 2 * r
  {
    SpanFrom(2 * size, n)
  }

  lemma {:induction false} SpanReaches(size: nat, s: nat, n: nat)
    requires 0 < size && IsSpan(size, s) && s < n
    ensures SpanFrom(2 * size, n) == SpanFrom(s, n)
    decreases s
  {
    if s != 2 * size {
      SpanReaches(size, s / 2, n);
    }
  }

  /** There is one cut position only: a span that is below `n` and at least half of it. */
  lemma SpanUnique(size: nat, s: nat, n: nat)
    requires 0 < size && IsSpan(size, s) && s < n <= 2 * s
    ensures 2 * size < n && Span(size, n) == s
  {
    SpanReaches(size, s, n);
    SpanAtLeast(size, s);
  }

  lemma SpanAtLeast(size: nat, s: nat)
    requires IsSpan(size, s)
    ensures s >= 2 * size
  {
  }

  /** The binary Merkle tree hash of the chunk `d`. */
  function Root(H: BaseHash, size: nat, d: Bytes): Bytes
    requires 0 < size
    decreases |d|
  {
    if |d| <= 2 * size then H(d)
    else
      var s := Span(size, |d|);
      var right := d[s..];
      H(Root(H, size, d[..s]) + (if |right| <= size then right else Root(H, size, right)))
  }

  /** The chunk as both hashers must see it: cut at the capacity. */
  function Chunk(size: nat, count: nat, d: Bytes): Bytes
  {
    if |d| > count * size then d[..count * size] else d
  }

  /** The reference hasher. */
  class RefHasher {
    const H: BaseHash
    const size: nat
    const count: nat
    const section: nat
    const span: nat
    const cap: nat

    ghost predicate Valid()
    {
      && 0 < size
      && section == 2 * size
      && cap == count * size
      && IsSpan(size, span)
      && cap <= 2 * span
    }

    constructor (H: BaseHash, size: nat, count: nat)
      requires 0 < size
      ensures Valid() && this.H == H && this.size == size && this.count == count
      ensures if count <= 2 then span == 2 * size else span < cap
    {
      var maxsize := size * count;
      var c := 2;
      while c < count
        invariant c == 2 || (c < 2 * count && c % 2 == 0)
        invariant IsSpan(size, c * size)
        decreases 2 * count - c
      {
        DoubleSpan(size, c);
        c := c * 2;
      }
      HalfSpan(size, c, count);
      if c > 2 {
        c := c / 2;
        Scaled(c, count, size);
      }
      this.H, this.size, this.count := H, size, count;
      section, span, cap := 2 * size, c * size, maxsize;
    }

    /** Hash of a chunk; whatever lies beyond the capacity is ignored. */
    method Hash(d: Bytes) returns (r: Bytes)
      requires Valid()
      ensures r == Root(H, size, Chunk(size, count, d))
    {
      var chunk := d;
      if |d| > cap {
        chunk := d[..cap];
      }
      r := HashSpan(chunk, span);
    }

    method HashSpan(d: Bytes, s0: nat) returns (r: Bytes)
      requires Valid()
      requires IsSpan(size, s0) && |d| <= 2 * s0
      ensures r == Root(H, size, d)
      decreases |d|
    {
      var s: nat := s0;
      var left, right := d, [];
      if |d| > section {
        while s >= |d|
          invariant IsSpan(size, s) && |d| <= 2 * s
          decreases s
        {
          s := s / 2;
        }
        SpanUnique(size, s, |d|);
        left := HashSpan(d[..s], s);
        right := d[s..];
        if |d| - s > section / 2 {
          right := HashSpan(right, s);
        }
      } else {
        assert d + [] == d;
      }
      r := H(left + right);
    }
  }

  lemma DoubleSpan(size: nat, c: nat)
    requires 0 < size && IsSpan(size, c * size)
    ensures IsSpan(size, c * 2 * size)
  {
    SpanAtLeast(size, c * size);
    assert c * 2 * size == 2 * (c * size);
  }

  /** The doubling loop overshoots by at most one step, which is taken back. */
  lemma HalfSpan(size: nat, c: nat, count: nat)
    requires 0 < size && IsSpan(size, c * size)
    requires count <= c && (c == 2 || c % 2 == 0)
    ensures c > 2 ==> IsSpan(size, c / 2 * size) && size * count <= 2 * (c / 2 * size)
    ensures c <= 2 ==> size * count <= 2 * (c * size)
  {
    SpanAtLeast(size, c * size);
    assert c * size >= count * size;
    if c > 2 {
      assert c == 2 * (c / 2);
      assert c * size == 2 * (c / 2 * size);
      assert (c * size) / 2 == c / 2 * size;
      assert c * size > 2 * size;
    }
  }

  lemma Scaled(a: nat, b: nat, size: nat)
    requires a < b && 0 < size
    ensures a * size < size * b
  {
    assert (b - a) * size > 0;
  }
}
