/** The incremental RESP parser: recursive descent over an immutable buffer. */
module RespParse {
  import opened Base
  import opened RespFrame
  import Utf8
  import Decimal

  datatype ParseError =
    | LineTooLong
    | InvalidSimpleString
    | InvalidError
    | InvalidInteger
    | InvalidBulkLength
    | BulkFrameTooLong
    | BulkLengthTooLarge
    | MissingTerminator
    | InvalidArrayLength
    | NegativeArrayLength
    | TooManyElements
    | FrameTooLarge
    | DepthExceeded
    | UnsupportedPrefix

  /** `NeedMore` is the source's `Ok(None)`; `next` is the offset after the parsed item. */
  datatype Parsed<+T> = NeedMore | Fail(error: ParseError) | Done(value: T, next: nat)

  /** Scan from `index` for the end of the line that began at `start`. */
  function ScanLine(buf: bytes, start: nat, index: nat, max: nat): (r: Parsed<bytes>)
    requires start <= index
    ensures r.Done? ==> index + 2 <= r.next <= |buf|
    decreases |buf| - index
  {
    if index >= |buf| then NeedMore
    else if index - start > max then Fail(LineTooLong)
    else if buf[index] == CR && index + 1 == |buf| then NeedMore
    else if EndsLine(buf, index) then Done(buf[start..index], index + 2)
    else ScanLine(buf, start, index + 1, max)
  }

  function LineAt(buf: bytes, start: nat, max: nat): Parsed<bytes> {
    ScanLine(buf, start, start, max)
  }

  /** The line after the marker at `start`, checked to be text. */
  function TextAt(buf: bytes, start: nat, max: nat, bad: ParseError): (r: Parsed<Utf8.Text>) {
    match LineAt(buf, start + 1, max)
    case NeedMore => NeedMore
    case Fail(e) => Fail(e)
    case Done(line, next) => if Utf8.Valid(line) then Done(line, next) else Fail(bad)
  }

  /** The line after the marker at `start`, read as a signed number. */
  function NumberAt(buf: bytes, start: nat, max: nat, bad: ParseError): (r: Parsed<i64>)
  {
    match TextAt(buf, start, max, bad)
    case NeedMore => NeedMore
    case Fail(e) => Fail(e)
    case Done(text, next) =>
      var n := Decimal.ParseI64(text);
      if n.None? then Fail(bad) else Done(n.value, next)
  }

  /** A bulk payload of `len` bytes at `at`, with its terminator. */
  function PayloadAt(buf: bytes, at: nat, len: nat, max: nat): Parsed<Frame> {
    if 1 + |Decimal.Digits(len)| + 2 + len + 2 > max then Fail(BulkFrameTooLong)
    else if at + len + 2 > USIZE_MAX then Fail(BulkLengthTooLarge)
    else if |buf| < at + len + 2 then NeedMore
    else if !EndsLine(buf, at + len) then Fail(MissingTerminator)
    else Done(Bulk(buf[at..at + len]), at + len + 2)
  }

  function BulkAt(buf: bytes, start: nat, max: nat): Parsed<Frame> {
    match NumberAt(buf, start, max, InvalidBulkLength)
    case NeedMore => NeedMore
    case Fail(e) => Fail(e)
    case Done(len, next) =>
      if len < -1 then Fail(InvalidBulkLength)
      else if len == -1 then Done(NullBulk, next)
      else PayloadAt(buf, next, len, max)
  }

  /** Levels of nesting still permitted below `depth`. */
  function Headroom(depth: nat): nat {
    if depth > MAX_RECURSION_DEPTH then 0 else MAX_RECURSION_DEPTH + 1 - depth
  }

  /** One frame at `start`; `depth` counts the arrays around it. */
  function FrameAt(buf: bytes, start: nat, max: nat, depth: nat): (r: Parsed<Frame>)
    decreases Headroom(depth), 1, 0
  {
    if depth > MAX_RECURSION_DEPTH then Fail(DepthExceeded)
    else if start >= |buf| then NeedMore
    else if buf[start] == STRING_MARK then
      match TextAt(buf, start, max, InvalidSimpleString)
      case NeedMore => NeedMore
      case Fail(e) => Fail(e)
      case Done(text, next) => Done(SimpleString(text), next)
    else if buf[start] == ERROR_MARK then
      match TextAt(buf, start, max, InvalidError)
      case NeedMore => NeedMore
      case Fail(e) => Fail(e)
      case Done(text, next) => Done(Error(text), next)
    else if buf[start] == INTEGER_MARK then
      match NumberAt(buf, start, max, InvalidInteger)
      case NeedMore => NeedMore
      case Fail(e) => Fail(e)
      case Done(v, next) => Done(Integer(v), next)
    else if buf[start] == BULK_MARK then BulkAt(buf, start, max)
    else if buf[start] == ARRAY_MARK then ArrayAt(buf, start, max, depth)
    else Fail(UnsupportedPrefix)
  }

  /** The array whose marker is at `start`: its count, then that many frames one level deeper. */
  function ArrayAt(buf: bytes, start: nat, max: nat, depth: nat): (r: Parsed<Frame>)
    requires depth <= MAX_RECURSION_DEPTH
    decreases Headroom(depth), 0, 0
  {
    match NumberAt(buf, start, max, InvalidArrayLength)
    case NeedMore => NeedMore
    case Fail(e) => Fail(e)
    case Done(count, next) =>
      if count == -1 then Done(NullArray, next)
      else if count < -1 then Fail(NegativeArrayLength)
      else if count > MAX_ARRAY_ELEMENTS then Fail(TooManyElements)
      else
        match ItemsAt(buf, next, max, depth + 1, count)
        case NeedMore => NeedMore
        case Fail(e) => Fail(e)
        case Done(items, end) =>
          if end - start > max then Fail(FrameTooLarge) else Done(Array(items), end)
  }

  /** `count` consecutive frames from `cursor`; the first obstacle decides. */
  function ItemsAt(buf: bytes, cursor: nat, max: nat, depth: nat, count: nat): (r: Parsed<seq<Frame>>)
    decreases Headroom(depth), 2, count
  {
    if count == 0 then Done([], cursor)
    else
      match FrameAt(buf, cursor, max, depth)
      case NeedMore => NeedMore
      case Fail(e) => Fail(e)
      case Done(f, next) =>
        match ItemsAt(buf, next, max, depth, count - 1)
        case NeedMore => NeedMore
        case Fail(e) => Fail(e)
        case Done(rest, end) => Done([f] + rest, end)
  }

  function ParseFrame(buf: bytes, max: nat): Parsed<Frame> {
    FrameAt(buf, 0, max, 0)
  }

  // ---------------------------------------------------------------- loops

  /** The byte-by-byte line scan. */
  method ScanForLine(buf: bytes, start: nat, max: nat) returns (r: Parsed<bytes>)
    ensures r == LineAt(buf, start, max)
  {
    var index := start;
    while index < |buf|
      invariant start <= index
      invariant ScanLine(buf, start, index, max) == LineAt(buf, start, max)
    {
      if index - start > max {
        return Fail(LineTooLong);
      }
      if buf[index] == CR {
        if index + 1 == |buf| {
          return NeedMore;
        }
        if buf[index + 1] == LF {
          return Done(buf[start..index], index + 2);
        }
      }
      index := index + 1;
    }
    return NeedMore;
  }

  /** What remains to parse after `done`, given what the rest of the loop would answer. */
  function Prepend(done: seq<Frame>, r: Parsed<seq<Frame>>): Parsed<seq<Frame>> {
    if r.Done? then Done(done + r.value, r.next) else r
  }

  /** The array loop: a cursor and a growing list of frames. */
  method CollectItems(buf: bytes, start: nat, max: nat, depth: nat, count: nat)
    returns (r: Parsed<seq<Frame>>)
    ensures r == ItemsAt(buf, start, max, depth, count)
  {
    var cursor := start;
    var frames: seq<Frame> := [];
    ghost var all := ItemsAt(buf, start, max, depth, count);
    assert all.Done? ==> frames + all.value == all.value;
    for i := 0 to count
      invariant all == Prepend(frames, ItemsAt(buf, cursor, max, depth, count - i))
    {
      var item := FrameAt(buf, cursor, max, depth);
      match item {
        case NeedMore => return NeedMore;
        case Fail(e) => return Fail(e);
        case Done(f, next) =>
          ghost var rest := ItemsAt(buf, next, max, depth, count - i - 1);
          if rest.Done? {
            assert frames + ([f] + rest.value) == (frames + [f]) + rest.value;
          }
          cursor := next;
          frames := frames + [f];
      }
    }
    assert frames + [] == frames;
    return Done(frames, cursor);
  }
}
