/** Length prefixes of one, two, four or eight bytes in either byte order. */
module LengthPrefix {
  import opened Base
  import opened Endian

  datatype Endianness = BigEndian | LittleEndian

  datatype PrefixError = UnsupportedPrefix | FrameTooLarge | IncompletePrefix | InvalidWidth

  predicate Supported(size: nat) { size == 1 || size == 2 || size == 4 || size == 8 }

  function Ordered(v: nat, size: nat, order: Endianness): (s: bytes)
    ensures |s| == size
  {
    if order.BigEndian? then Big(v, size) else Little(v, size)
  }

  function ValueOf(s: bytes, order: Endianness): nat {
    if order.BigEndian? then FromBig(s) else FromLittle(s)
  }

  /** The widest value each supported prefix can carry. */
  function Limit(size: nat): nat {
    match size
    case 1 => 0xFF
    case 2 => U16_MAX
    case 4 => U32_MAX
    case 8 => U64_MAX
    case _ => 0
  }

  /** Read the prefix at the front of `buf`: copied into eight bytes, then read at full width. */
  method BytesToU64(buf: bytes, size: nat, order: Endianness) returns (r: Result<u64, PrefixError>)
    ensures match r
            case Ok(v) => Supported(size) && size <= |buf| && v == ValueOf(buf[..size], order)
            case Err(UnsupportedPrefix) => !Supported(size)
            case Err(IncompletePrefix) => Supported(size) && |buf| < size
            case _ => false
  {
    if !Supported(size) {
      return Err(UnsupportedPrefix);
    }
    if |buf| < size {
      return Err(IncompletePrefix);
    }
    var prefix := buf[..size];
    var wide := new byte[8](_ => 0);
    var at := if order.BigEndian? then 8 - size else 0;
    for i := 0 to size
      invariant forall k :: 0 <= k < 8 ==> wide[k] == if at <= k < at + i then prefix[k - at] else 0
    {
      wide[at + i] := prefix[i];
    }
    Widths();
    if order.BigEndian? {
      assert wide[..] == Zeros(8 - size) + prefix;
      BigPadded(8 - size, prefix);
      BigWrites(wide[..]);
      return Ok(FromBig(wide[..]));
    } else {
      assert wide[..] == prefix + Zeros(8 - size);
      LittlePadded(prefix, 8 - size);
      LittleWrites(wide[..]);
      return Ok(FromLittle(wide[..]));
    }
  }

  function Zeros(n: nat): bytes { seq(n, _ => 0) }

  /** Leading zeros do not change a big-endian value. */
  lemma {:induction false} BigPadded(n: nat, s: bytes)
    ensures FromBig(Zeros(n) + s) == FromBig(s)
    decreases n + |s|
  {
    if s != [] {
      assert (Zeros(n) + s)[..n + |s| - 1] == Zeros(n) + s[..|s| - 1];
      BigPadded(n, s[..|s| - 1]);
    } else if n > 0 {
      assert Zeros(n) + s == Zeros(n) && Zeros(n)[..n - 1] == Zeros(n - 1) + [];
      BigPadded(n - 1, []);
    }
  }

  /** Trailing zeros do not change a little-endian value. */
  lemma {:induction false} LittlePadded(s: bytes, n: nat)
    ensures FromLittle(s + Zeros(n)) == FromLittle(s)
    decreases |s| + n
  {
    if s != [] {
      assert (s + Zeros(n))[1..] == s[1..] + Zeros(n);
      LittlePadded(s[1..], n);
    } else if n > 0 {
      assert s + Zeros(n) == Zeros(n) && Zeros(n)[1..] == [] + Zeros(n - 1);
      LittlePadded([], n - 1);
    }
  }

  /** Write `len` into the front of an eight-byte array; an error writes nothing. */
  method U64ToBytes(len: usize, size: nat, order: Endianness, out: array<byte>) returns (r: Result<nat, PrefixError>)
    requires out.Length == 8
    modifies out
    ensures match r
            case Ok(n) => Supported(size) && n == size && len <= Limit(size)
                          && out[..] == Ordered(len, size, order) + Zeros(8 - size)
            case Err(UnsupportedPrefix) => !Supported(size) && out[..] == old(out[..])
            case Err(FrameTooLarge) => Supported(size) && len > Limit(size) && out[..] == old(out[..])
            case _ => false
  {
    if !Supported(size) {
      return Err(UnsupportedPrefix);
    }
    if len > Limit(size) {
      return Err(FrameTooLarge);
    }
    match order {
      case BigEndian => WriteTrailing(len, size, out);
      case LittleEndian => WriteShifted(len, size, out);
    }
    for i := size to 8
      invariant out[..size] == Ordered(len, size, order)
      invariant forall k :: size <= k < i ==> out[k] == 0
    {
      out[i] := 0;
    }
    assert out[..] == Ordered(len, size, order) + Zeros(8 - size);
    return Ok(size);
  }

  /** Little endian: shift and mask, byte by byte. */
  method WriteShifted(value: nat, size: nat, out: array<byte>)
    requires size <= out.Length
    modifies out
    ensures out[..size] == Little(value, size)
  {
    var rest := value;
    for i := 0 to size
      invariant out[..i] + Little(rest, size - i) == Little(value, size)
    {
      out[i] := rest % 256;
      assert out[..i + 1] == out[..i] + [rest % 256];
      assert out[..i] + ([rest % 256] + Little(rest / 256, size - i - 1))
          == out[..i + 1] + Little(rest / 256, size - i - 1);
      rest := rest / 256;
    }
    assert out[..size] + [] == out[..size];
  }

  /** Big endian: the trailing bytes of the full-width encoding. */
  method WriteTrailing(value: nat, size: nat, out: array<byte>)
    requires size <= 8 <= out.Length
    modifies out
    ensures out[..size] == Big(value, size)
  {
    var encoded := Big(value, 8);
    BigTrailing(value, size, 8 - size);
    for i := 0 to size
      invariant out[..i] == encoded[8 - size..8 - size + i]
    {
      out[i] := encoded[8 - size + i];
    }
  }

  /** Dropping high-order bytes is the same as writing at the narrower width. */
  lemma {:induction false} BigTrailing(v: nat, size: nat, dropped: nat)
    ensures Big(v, size + dropped)[dropped..] == Big(v, size)
  {
    if size > 0 {
      BigTrailing(v / 256, size - 1, dropped);
    }
  }

  // ---------------------------------------------------------------- formats

  datatype LengthFormat = LengthFormat(width: nat, order: Endianness)

  function TryNew(width: nat, order: Endianness): Result<LengthFormat, PrefixError> {
    if 1 <= width <= 8 then Ok(LengthFormat(width, order)) else Err(InvalidWidth)
  }

  /** What `write_len` appends. */
  function Prefix(f: LengthFormat, len: usize): Result<bytes, PrefixError> {
    if !Supported(f.width) then Err(UnsupportedPrefix)
    else if len > Limit(f.width) then Err(FrameTooLarge)
    else Ok(Ordered(len, f.width, f.order))
  }

  /** What `read_len` answers; every `u64` is a `usize` here. */
  function Length(f: LengthFormat, buf: bytes): Result<nat, PrefixError> {
    if !Supported(f.width) then Err(UnsupportedPrefix)
    else if |buf| < f.width then Err(IncompletePrefix)
    else Ok(ValueOf(buf[..f.width], f.order))
  }

  method WriteLen(f: LengthFormat, len: usize, dst: Buffer) returns (r: Result<(), PrefixError>)
    modifies dst
    ensures match Prefix(f, len)
            case Ok(p) => r == Ok(()) && dst.data == old(dst.data) + p
            case Err(e) => r == Err(e) && dst.data == old(dst.data)
  {
    var buf := new byte[8](_ => 0);
    var written :- U64ToBytes(len, f.width, f.order, buf);
    assert buf[..written] == buf[..][..written];
    dst.data := dst.data + buf[..written];
    return Ok(());
  }

  method ReadLen(f: LengthFormat, buf: bytes) returns (r: Result<nat, PrefixError>)
    ensures r == Length(f, buf)
  {
    r := BytesToU64(buf, f.width, f.order);
  }

  lemma {:induction false} LimitIs(width: nat)
    requires Supported(width)
    ensures Limit(width) == Pow256(width) - 1 && Limit(width) <= USIZE_MAX
  {
    Widths();
  }

  lemma {:induction false} OrderedReads(v: nat, size: nat, order: Endianness)
    ensures ValueOf(Ordered(v, size, order), order) == v <==> v < Pow256(size)
  {
    LittleReads(v, size);
    BigReads(v, size);
  }

  lemma {:induction false} OrderedWrites(s: bytes, order: Endianness)
    ensures ValueOf(s, order) < Pow256(|s|) && Ordered(ValueOf(s, order), |s|, order) == s
  {
    LittleWrites(s);
    BigWrites(s);
  }

  /** A written prefix is read back to the same length, whatever follows it. */
  lemma PrefixRoundTrip(f: LengthFormat, len: usize, rest: bytes)
    requires Prefix(f, len).Ok?
    ensures Length(f, Prefix(f, len).value + rest) == Ok(len)
  {
    LimitIs(f.width);
    OrderedReads(len, f.width, f.order);
    assert (Prefix(f, len).value + rest)[..f.width] == Prefix(f, len).value;
  }

  /** Every prefix that can be read is the one that would be written for its value. */
  lemma LengthRoundTrip(f: LengthFormat, buf: bytes)
    requires Length(f, buf).Ok?
    ensures 0 <= Length(f, buf).value <= USIZE_MAX && Prefix(f, Length(f, buf).value) == Ok(buf[..f.width])
  {
    LimitIs(f.width);
    OrderedWrites(buf[..f.width], f.order);
  }

  /**
    The constructor admits every width from one to eight, but a format works, in either
    direction, exactly for the four supported widths: widths 3, 5, 6 and 7 always fail.
   */
  lemma UsableWidths(width: nat, order: Endianness, len: usize, buf: bytes)
    requires TryNew(width, order).Ok? && width <= |buf| && len <= 0xFF
    ensures var f := TryNew(width, order).value;
            && (Prefix(f, len).Ok? <==> Supported(width))
            && (Length(f, buf).Ok? <==> Supported(width))
  {
  }
}
