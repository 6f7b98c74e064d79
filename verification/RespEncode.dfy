/** The RESP printer and its separately written length calculator. */
module RespEncode {
  import opened Base
  import opened RespFrame
  import Decimal

  datatype EncodeError = DepthExceeded | FrameTooLarge

  function CheckedAdd(a: nat, b: nat): Result<nat, EncodeError> {
    if a + b > USIZE_MAX then Err(FrameTooLarge) else Ok(a + b)
  }

  /** Both passes accept the same frames; the size pass also needs the total to fit `usize`. */
  ghost predicate Measures(f: Frame, depth: nat, r: Result<nat, EncodeError>) {
    match r
    case Ok(n) => n == |Wire(f)| && n <= USIZE_MAX && Shallow(f, depth)
    case Err(DepthExceeded) => !Shallow(f, depth)
    case Err(FrameTooLarge) => |Wire(f)| > USIZE_MAX
  }

  /** The measured length is the length of the encoding, and an error has its stated cause. */
  method EncodedLenAt(f: Frame, depth: nat) returns (r: Result<nat, EncodeError>)
    ensures Measures(f, depth, r)
    decreases f, 1
  {
    if depth > MAX_RECURSION_DEPTH {
      return Err(DepthExceeded);
    }
    match f {
      case SimpleString(text) =>
        var line :- CheckedAdd(|text|, 2);
        r := CheckedAdd(1, line);
      case Error(text) =>
        var line :- CheckedAdd(|text|, 2);
        r := CheckedAdd(1, line);
      case Integer(value) =>
        var digits := Decimal.CountSigned(value);
        var line :- CheckedAdd(digits, 2);
        r := CheckedAdd(1, line);
      case NullBulk =>
        NullLine(BULK_MARK);
        r := Ok(5);
      case NullArray =>
        NullLine(ARRAY_MARK);
        r := Ok(5);
      case Bulk(data) =>
        var digits := Decimal.CountDigits(|data|);
        var line :- CheckedAdd(digits, 2);
        var head :- CheckedAdd(1, line);
        var body :- CheckedAdd(|data|, 2);
        r := CheckedAdd(head, body);
      case Array(items) =>
        var digits := Decimal.CountDigits(|items|);
        var line :- CheckedAdd(digits, 2);
        var head :- CheckedAdd(1, line);
        r := MeasureItems(items, head, depth + 1);
    }
  }

  /** The accumulation loop over an array's items, starting from the size of its head. */
  method MeasureItems(items: seq<Frame>, head: nat, depth: nat) returns (r: Result<nat, EncodeError>)
    requires head <= USIZE_MAX
    ensures match r
            case Ok(n) => n == head + |WireAll(items)| && n <= USIZE_MAX && AllShallow(items, depth)
            case Err(DepthExceeded) => !AllShallow(items, depth)
            case Err(FrameTooLarge) => head + |WireAll(items)| > USIZE_MAX
    decreases items, 0
  {
    var total: nat := head;
    for i := 0 to |items|
      invariant total <= USIZE_MAX
      invariant total + |WireAll(items[i..])| == head + |WireAll(items)|
      invariant AllShallow(items, depth) <==> AllShallow(items[i..], depth)
    {
      assert items[i..][0] == items[i] && items[i..][1..] == items[i + 1..];
      var length :- EncodedLenAt(items[i], depth);
      total :- CheckedAdd(total, length);
    }
    return Ok(total);
  }

  /** The wire form of a null: the marker and `-1`. */
  lemma NullLine(mark: byte)
    ensures Line(mark, Decimal.Format(-1)) == [mark, 45, 49, CR, LF]
  {
    assert Decimal.Format(-1) == [45, 49];
  }

  method AppendLine(dst: Buffer, mark: byte, text: bytes)
    modifies dst
    ensures dst.data == old(dst.data) + Line(mark, text)
  {
    dst.data := dst.data + [mark];
    dst.data := dst.data + text;
    dst.data := dst.data + CRLF;
  }

  method AppendNull(dst: Buffer, mark: byte)
    modifies dst
    ensures dst.data == old(dst.data) + Line(mark, Decimal.Format(-1))
  {
    NullLine(mark);
    dst.data := dst.data + [mark, 45, 49, CR, LF];
  }

  method AppendBulk(dst: Buffer, data: bytes)
    modifies dst
    ensures dst.data == old(dst.data) + (Line(BULK_MARK, Decimal.Format(|data|)) + (data + CRLF))
  {
    AppendLine(dst, BULK_MARK, Decimal.Format(|data|));
    ghost var head := Line(BULK_MARK, Decimal.Format(|data|));
    assert old(dst.data) + head + data + CRLF == old(dst.data) + (head + (data + CRLF));
    dst.data := dst.data + data;
    dst.data := dst.data + CRLF;
  }

  /** Appends the encoding to `dst`; an error leaves what was already there in front. */
  method EncodeFrameAt(f: Frame, dst: Buffer, depth: nat) returns (ok: bool)
    modifies dst
    ensures ok <==> Shallow(f, depth)
    ensures ok ==> dst.data == old(dst.data) + Wire(f)
    ensures old(dst.data) <= dst.data
    decreases f, 1
  {
    if depth > MAX_RECURSION_DEPTH {
      return false;
    }
    match f {
      case SimpleString(text) => AppendLine(dst, STRING_MARK, text);
      case Error(text) => AppendLine(dst, ERROR_MARK, text);
      case Integer(value) => AppendLine(dst, INTEGER_MARK, Decimal.Format(value));
      case NullBulk => AppendNull(dst, BULK_MARK);
      case NullArray => AppendNull(dst, ARRAY_MARK);
      case Bulk(data) => AppendBulk(dst, data);
      case Array(items) =>
        ok := EncodeArray(items, dst, depth);
        return ok;
    }
    return true;
  }

  method EncodeArray(items: seq<Frame>, dst: Buffer, depth: nat) returns (ok: bool)
    requires depth <= MAX_RECURSION_DEPTH
    modifies dst
    ensures ok <==> AllShallow(items, depth + 1)
    ensures ok ==> dst.data == old(dst.data) + (Line(ARRAY_MARK, Decimal.Format(|items|)) + WireAll(items))
    ensures old(dst.data) <= dst.data
    decreases items, 1
  {
    AppendLine(dst, ARRAY_MARK, Decimal.Format(|items|));
    ghost var head := Line(ARRAY_MARK, Decimal.Format(|items|));
    assert old(dst.data) + head + WireAll(items) == old(dst.data) + (head + WireAll(items));
    ok := EncodeItems(items, dst, depth + 1);
  }

  method EncodeItems(items: seq<Frame>, dst: Buffer, depth: nat) returns (ok: bool)
    modifies dst
    ensures ok <==> AllShallow(items, depth)
    ensures ok ==> dst.data == old(dst.data) + WireAll(items)
    ensures old(dst.data) <= dst.data
    decreases items, 0
  {
    for i := 0 to |items|
      invariant dst.data + WireAll(items[i..]) == old(dst.data) + WireAll(items)
      invariant old(dst.data) <= dst.data
      invariant AllShallow(items, depth) <==> AllShallow(items[i..], depth)
    {
      assert items[i..][0] == items[i] && items[i..][1..] == items[i + 1..];
      ghost var rest := WireAll(items[i + 1..]);
      ghost var before := dst.data;
      assert before + (Wire(items[i]) + rest) == before + Wire(items[i]) + rest;
      var nested := EncodeFrameAt(items[i], dst, depth);
      if !nested {
        return false;
      }
    }
    assert dst.data + WireAll([]) == dst.data;
    return true;
  }
}
