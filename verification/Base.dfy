/** Types and small helpers shared by every part of the model. */
module Base {

  /** One octet. Kept as an integer range so that digit and length arithmetic stays in `int`. */
  type byte = b: int | 0 <= b < 256

  type bytes = seq<byte>

  /** A slice or vector of the source, whose length never exceeds `isize::MAX`. */
  type vec = s: bytes | |s| <= 0x7FFF_FFFF_FFFF_FFFF witness []

  const ISIZE_MAX: int := 0x7FFF_FFFF_FFFF_FFFF
  const USIZE_MAX: int := 0xFFFF_FFFF_FFFF_FFFF
  const U64_MAX: int := 0xFFFF_FFFF_FFFF_FFFF
  const U32_MAX: int := 0xFFFF_FFFF
  const U16_MAX: int := 0xFFFF
  const I64_MIN: int := -0x8000_0000_0000_0000
  const I64_MAX: int := 0x7FFF_FFFF_FFFF_FFFF

  type usize = n: int | 0 <= n <= 0xFFFF_FFFF_FFFF_FFFF
  type u64 = n: int | 0 <= n <= 0xFFFF_FFFF_FFFF_FFFF
  type u32 = n: int | 0 <= n <= 0xFFFF_FFFF
  type i64 = n: int | -0x8000_0000_0000_0000 <= n <= 0x7FFF_FFFF_FFFF_FFFF

  datatype Option<+T> = None | Some(value: T)

  /** A failure-compatible result, so that `:-` plays the part of the `?` operator. */
  datatype Result<+T, +E> = Ok(value: T) | Err(error: E) {
    predicate IsFailure() { Err? }
    function PropagateFailure<U>(): Result<U, E>
      requires Err?
    {
      Err(error)
    }
    function Extract(): T
      requires Ok?
    {
      value
    }
  }

  /** `usize::saturating_add`. */
  function SaturatingAdd(a: nat, b: nat): nat {
    if a + b > USIZE_MAX then USIZE_MAX else a + b
  }

  /** `u32::checked_add(1)`. */
  function CheckedIncrement(n: u32): Option<u32> {
    if n == U32_MAX then None else Some(n + 1)
  }

  /** `w` is stored in `buf` at offset `at`. */
  predicate HoldsAt<T(==)>(buf: seq<T>, at: nat, w: seq<T>) {
    at + |w| <= |buf| && forall i :: 0 <= i < |w| ==> buf[at + i] == w[i]
  }

  /** A stored concatenation is its two parts stored one after the other. */
  lemma HoldsSplit<T>(buf: seq<T>, at: nat, a: seq<T>, b: seq<T>)
    requires HoldsAt(buf, at, a + b)
    ensures HoldsAt(buf, at, a) && HoldsAt(buf, at + |a|, b)
  {
    forall i | 0 <= i < |a|
      ensures buf[at + i] == a[i]
    {
      assert (a + b)[i] == a[i];
    }
    forall i | 0 <= i < |b|
      ensures buf[at + |a| + i] == b[i]
    {
      assert (a + b)[|a| + i] == b[i];
    }
  }

  /** What is stored is the slice at its place. */
  lemma HoldsSlice<T>(buf: seq<T>, at: nat, w: seq<T>)
    requires HoldsAt(buf, at, w)
    ensures buf[at..at + |w|] == w
  {
  }

  /** The pieces one after another. */
  function Concat(pieces: seq<bytes>): bytes {
    if pieces == [] then [] else pieces[0] + Concat(pieces[1..])
  }

  lemma {:induction false} ConcatAppend(pieces: seq<bytes>, last: bytes)
    ensures Concat(pieces + [last]) == Concat(pieces) + last
  {
    if pieces == [] {
      assert pieces + [last] == [last] && Concat([last]) == last + Concat([]);
    } else {
      ConcatAppend(pieces[1..], last);
      assert (pieces + [last])[1..] == pieces[1..] + [last];
    }
  }

  lemma {:induction false} ConcatPrefix(pieces: seq<bytes>, k: nat)
    requires k <= |pieces|
    ensures |Concat(pieces[..k])| <= |Concat(pieces)|
    decreases |pieces|
  {
    if k > 0 {
      ConcatPrefix(pieces[1..], k - 1);
      assert pieces[..k][1..] == pieces[1..][..k - 1];
    }
  }

  lemma Scales(a: nat, b: nat, c: nat)
    requires a <= b
    ensures a * c <= b * c
  {
  }

  /** The middle of three pieces, found again at its place. */
  lemma Middle(before: bytes, piece: bytes, after: bytes)
    ensures (before + piece + after)[|before|..|before| + |piece|] == piece
  {
  }

  /** A growable byte buffer (`BytesMut`), owned by one caller at a time. */
  class Buffer {
    var data: bytes

    constructor (initial: bytes)
      ensures data == initial
    {
      data := initial;
    }
  }
}
