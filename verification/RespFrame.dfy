/** RESP values, their wire form, and what the wire form can carry. */
module RespFrame {
  import opened Base
  import opened Utf8
  import Decimal

  /** A null bulk string and a null array are constructors of their own. */
  datatype Frame =
    | SimpleString(text: Text)
    | Error(text: Text)
    | Integer(value: i64)
    | NullBulk
    | Bulk(payload: bytes)
    | NullArray
    | Array(items: seq<Frame>)

  const CR: byte := 13
  const LF: byte := 10
  const CRLF: bytes := [CR, LF]

  const STRING_MARK: byte := 43
  const ERROR_MARK: byte := 45
  const INTEGER_MARK: byte := 58
  const BULK_MARK: byte := 36
  const ARRAY_MARK: byte := 42

  const MAX_ARRAY_ELEMENTS: nat := 1024
  const MAX_RECURSION_DEPTH: nat := 64

  /** A marker, a line of text and its terminator. */
  function Line(mark: byte, text: bytes): bytes {
    [mark] + text + CRLF
  }

  /** The canonical encoding of a frame. */
  function Wire(f: Frame): (w: bytes)
    ensures |w| >= 3
    decreases f, 1
  {
    match f
    case SimpleString(text) => Line(STRING_MARK, text)
    case Error(text) => Line(ERROR_MARK, text)
    case Integer(v) => Line(INTEGER_MARK, Decimal.Format(v))
    case NullBulk => Line(BULK_MARK, Decimal.Format(-1))
    case Bulk(p) => Line(BULK_MARK, Decimal.Format(|p|)) + (p + CRLF)
    case NullArray => Line(ARRAY_MARK, Decimal.Format(-1))
    case Array(items) => Line(ARRAY_MARK, Decimal.Format(|items|)) + WireAll(items)
  }

  function WireAll(items: seq<Frame>): bytes
    decreases items, 0
  {
    if items == [] then [] else Wire(items[0]) + WireAll(items[1..])
  }

  /** Every frame of the tree sits at a nesting level the depth guards accept. */
  predicate Shallow(f: Frame, depth: nat)
    decreases f, 1
  {
    depth <= MAX_RECURSION_DEPTH && (f.Array? ==> AllShallow(f.items, depth + 1))
  }

  predicate AllShallow(items: seq<Frame>, depth: nat)
    decreases items, 0
  {
    items != [] ==> Shallow(items[0], depth) && AllShallow(items[1..], depth)
  }

  /** `s` has a line terminator at `i`. */
  predicate EndsLine(s: bytes, i: nat) {
    i + 1 < |s| && s[i] == CR && s[i + 1] == LF
  }

  predicate OneLine(text: bytes) {
    forall i :: 0 <= i < |text| ==> !EndsLine(text, i)
  }

  /**
    Texts are single lines, arrays stay within the parser's element limit, and payload lengths
    are signed 64-bit numbers (every `Vec` length is).
   */
  predicate Carriable(f: Frame)
    decreases f, 1
  {
    match f
    case SimpleString(text) => OneLine(text)
    case Error(text) => OneLine(text)
    case Bulk(p) => |p| <= I64_MAX
    case Array(items) => |items| <= MAX_ARRAY_ELEMENTS && AllCarriable(items)
    case _ => true
  }

  predicate AllCarriable(items: seq<Frame>)
    decreases items, 0
  {
    items != [] ==> Carriable(items[0]) && AllCarriable(items[1..])
  }
}
