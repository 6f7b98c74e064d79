/** The variable-width integers of bincode's standard configuration. */
module Bincode {
  import opened Base
  import opened Endian

  datatype DecodeError = UnexpectedEnd | InvalidIntegerType | InvalidBoolean | HeaderLengthMismatch

  const TAG_U16: byte := 251
  const TAG_U32: byte := 252
  const TAG_U64: byte := 253

  /** One byte below 251; otherwise a width tag and the value in little-endian order. */
  function Varint(v: u64): (s: bytes)
    ensures |s| == VarintLength(v)
  {
    if v < 251 then [v]
    else if v <= U16_MAX then [TAG_U16] + Little(v, 2)
    else if v <= U32_MAX then [TAG_U32] + Little(v, 4)
    else [TAG_U64] + Little(v, 8)
  }

  function VarintLength(v: u64): nat {
    if v < 251 then 1 else if v <= U16_MAX then 3 else if v <= U32_MAX then 5 else 9
  }

  /** Bytes after the tag, for a target integer of at most `widest` bytes. */
  function TagWidth(tag: byte, widest: nat): Result<nat, DecodeError> {
    if tag < 251 then Ok(0)
    else if tag == TAG_U16 then Ok(2)
    else if tag == TAG_U32 then Ok(4)
    else if tag == TAG_U64 && widest == 8 then Ok(8)
    else Err(InvalidIntegerType)
  }

  /** The value at the front of `s` and the bytes it took. */
  function ReadVarint(s: bytes, widest: nat): Result<(nat, nat), DecodeError> {
    if s == [] then Err(UnexpectedEnd)
    else
      match TagWidth(s[0], widest)
      case Err(e) => Err(e)
      case Ok(w) =>
        if w == 0 then Ok((s[0], 1))
        else if |s| < 1 + w then Err(UnexpectedEnd)
        else Ok((FromLittle(s[1..1 + w]), 1 + w))
  }

  lemma VarintRoundTrip(v: u64, widest: nat, rest: bytes)
    requires widest == 8 || (widest == 4 && v <= U32_MAX)
    ensures ReadVarint(Varint(v) + rest, widest) == Ok((v, |Varint(v)|))
  {
    Widths();
    LittleReads(v, 2);
    LittleReads(v, 4);
    LittleReads(v, 8);
    var s := Varint(v) + rest;
    if v >= 251 {
      var w := |Varint(v)| - 1;
      assert s[1..1 + w] == Little(v, w);
    }
  }

  /** A value read for a 32- or 64-bit target fits that target. */
  lemma ReadFits(s: bytes, widest: nat)
    requires ReadVarint(s, widest).Ok?
    ensures ReadVarint(s, widest).value.0 <= if widest == 8 then U64_MAX else U32_MAX
    ensures ReadVarint(s, widest).value.1 <= |s|
  {
    Widths();
    var w := TagWidth(s[0], widest).value;
    if w > 0 {
      LittleWrites(s[1..1 + w]);
    }
  }

  /** The forms a value may take: one byte below 251, or a tag and a wide enough little-endian number. */
  predicate VarintForm(w: bytes, v: nat, widest: nat) {
    || (v < 251 && w == [v])
    || (v <= U16_MAX && w == [TAG_U16] + Little(v, 2))
    || (v <= U32_MAX && w == [TAG_U32] + Little(v, 4))
    || (widest == 8 && v <= U64_MAX && w == [TAG_U64] + Little(v, 8))
  }

  /** A value is read exactly from its forms, the shortest or not. */
  lemma ReadsForms(s: bytes, widest: nat, v: nat, n: nat)
    ensures ReadVarint(s, widest) == Ok((v, n)) <==> n <= |s| && VarintForm(s[..n], v, widest)
  {
    Widths();
    if ReadVarint(s, widest) == Ok((v, n)) {
      if n == 1 {
        assert s[..1] == [s[0]];
      } else {
        LittleWrites(s[1..n]);
        assert s[..n] == [s[0]] + s[1..n];
      }
    }
    if n <= |s| && VarintForm(s[..n], v, widest) {
      FormReads(s, widest, v, n);
    }
  }

  lemma FormReads(s: bytes, widest: nat, v: nat, n: nat)
    requires n <= |s| && VarintForm(s[..n], v, widest)
    ensures ReadVarint(s, widest) == Ok((v, n))
  {
    Widths();
    assert s[0] == s[..n][0];
    if n > 1 {
      assert s[1..n] == s[..n][1..];
      LittleReads(v, n - 1);
    }
  }
}
