/** Which answer each kind of malformed or unfinished input gets. */
module RespErrors {
  import opened Base
  import opened RespFrame
  import opened RespParse
  import opened RespTheorems
  import Utf8
  import Decimal

  // ---------------------------------------------------------------- lines

  lemma {:induction false} ScanTooLong(buf: bytes, start: nat, index: nat, max: nat)
    requires start <= index <= start + max + 1
    requires forall i :: start <= i < index ==> !EndsLine(buf, i)
    ensures ScanLine(buf, start, index, max) == Fail(LineTooLong)
       <==> start + max + 2 <= |buf| && forall i :: start <= i <= start + max ==> !EndsLine(buf, i)
    ensures ScanLine(buf, start, index, max).Fail? ==> ScanLine(buf, start, index, max) == Fail(LineTooLong)
    decreases |buf| - index
  {
    if index < |buf| && index - start <= max && !EndsLine(buf, index) {
      ScanTooLong(buf, start, index + 1, max);
    }
  }

  /** A line is refused exactly when more than the limit has arrived without its end. */
  lemma LineVerdict(buf: bytes, start: nat, max: nat)
    ensures LineAt(buf, start, max) == Fail(LineTooLong)
       <==> start + max + 2 <= |buf| && forall i :: start <= i <= start + max ==> !EndsLine(buf, i)
    ensures LineAt(buf, start, max).Fail? ==> LineAt(buf, start, max) == Fail(LineTooLong)
  {
    ScanTooLong(buf, start, start, max);
  }

  /** The marker decides, once the nesting is permitted and there is a byte at all. */
  lemma {:induction false} MarkVerdict(buf: bytes, start: nat, max: nat, depth: nat)
    ensures FrameAt(buf, start, max, depth) == Fail(DepthExceeded) <== depth > MAX_RECURSION_DEPTH
    ensures FrameAt(buf, start, max, depth) == NeedMore <== depth <= MAX_RECURSION_DEPTH && |buf| <= start
    ensures FrameAt(buf, start, max, depth) == Fail(UnsupportedPrefix)
         <== depth <= MAX_RECURSION_DEPTH && start < |buf|
             && buf[start] !in [STRING_MARK, ERROR_MARK, INTEGER_MARK, BULK_MARK, ARRAY_MARK]
  {
  }

  /** A whole line of text: accepted exactly when it is the encoding of some characters. */
  lemma {:induction false} TextVerdict(buf: bytes, start: nat, text: bytes, max: nat, depth: nat)
    requires depth <= MAX_RECURSION_DEPTH && OneLine(text) && |text| <= max
    ensures HoldsAt(buf, start, Line(STRING_MARK, text)) ==>
              FrameAt(buf, start, max, depth)
              == if Utf8.Valid(text) then Done(SimpleString(text), start + |text| + 3) else Fail(InvalidSimpleString)
    ensures HoldsAt(buf, start, Line(ERROR_MARK, text)) ==>
              FrameAt(buf, start, max, depth)
              == if Utf8.Valid(text) then Done(Error(text), start + |text| + 3) else Fail(InvalidError)
  {
    if HoldsAt(buf, start, Line(STRING_MARK, text)) {
      LineFinds(buf, start, STRING_MARK, text, max);
    }
    if HoldsAt(buf, start, Line(ERROR_MARK, text)) {
      LineFinds(buf, start, ERROR_MARK, text, max);
    }
  }

  /** A whole line read as a number. */
  lemma NumberVerdict(buf: bytes, start: nat, mark: byte, text: bytes, max: nat, bad: ParseError)
    requires HoldsAt(buf, start, Line(mark, text)) && OneLine(text) && |text| <= max
    ensures buf[start] == mark
    ensures forall v :: NumberAt(buf, start, max, bad) == Done(v, start + |text| + 3) <==> Decimal.Numeral(text, v)
    ensures NumberAt(buf, start, max, bad) == Fail(bad) <==> forall v :: !Decimal.Numeral(text, v)
  {
    LineFinds(buf, start, mark, text, max);
    NumeralVerdict(text);
    var n := Decimal.ParseI64(text);
    assert n.Some? ==> Decimal.Numeral(text, n.value);
  }

  /** A numeral is text and has one value. */
  lemma {:induction false} NumeralVerdict(text: bytes)
    ensures match Decimal.ParseI64(text)
            case Some(n) => Utf8.Valid(text) && forall v :: Decimal.Numeral(text, v) <==> v == n
            case None => forall v :: !Decimal.Numeral(text, v)
  {
    forall v
      ensures Decimal.ParseI64(text) == Some(v) <==> Decimal.Numeral(text, v)
    {
      Decimal.ParsesNumerals(text, v);
    }
    if Decimal.ParseI64(text).Some? {
      NumeralIsText(text, Decimal.ParseI64(text).value);
    }
  }

  lemma {:induction false} NumeralIsText(text: bytes, v: int)
    requires Decimal.Numeral(text, v)
    ensures Utf8.Valid(text)
  {
    Decimal.ParsesNumerals(text, v);
    var body := Decimal.Body(text);
    forall i | 0 <= i < |text|
      ensures text[i] < 0x80
    {
      assert body == text || body == text[1..];
      if body == text {
        assert Decimal.IsDigit(body[i]);
      } else if i > 0 {
        assert Decimal.IsDigit(body[i - 1]);
      }
    }
    Utf8.AsciiIsValid(text);
  }

  lemma {:induction false} IntegerVerdict(buf: bytes, start: nat, text: bytes, max: nat, depth: nat)
    requires HoldsAt(buf, start, Line(INTEGER_MARK, text)) && OneLine(text) && |text| <= max
    requires depth <= MAX_RECURSION_DEPTH
    ensures FrameAt(buf, start, max, depth) == Fail(InvalidInteger) <==> forall v :: !Decimal.Numeral(text, v)
    ensures forall v: i64 :: Decimal.Numeral(text, v) ==>
              FrameAt(buf, start, max, depth) == Done(Integer(v), start + |text| + 3)
  {
    NumberVerdict(buf, start, INTEGER_MARK, text, max, InvalidInteger);
  }

  // ---------------------------------------------------------------- bulk strings

  /** The answer to a bulk string whose length line has been read. */
  function BulkAnswer(buf: bytes, next: nat, len: int, max: nat): Parsed<Frame> {
    if len < -1 then Fail(InvalidBulkLength)
    else if len == -1 then Done(NullBulk, next)
    else if |Wire(Bulk(seq(len, _ => 0)))| > max then Fail(BulkFrameTooLong)
    else if next + len + 2 > USIZE_MAX then Fail(BulkLengthTooLarge)
    else if |buf| < next + len + 2 then NeedMore
    else if buf[next + len..next + len + 2] != CRLF then Fail(MissingTerminator)
    else Done(Bulk(buf[next..next + len]), next + len + 2)
  }

  /** A bulk string is judged by its canonical size, its bytes and its end. */
  lemma {:induction false} BulkVerdict(buf: bytes, start: nat, text: bytes, max: nat, depth: nat)
    requires HoldsAt(buf, start, Line(BULK_MARK, text)) && OneLine(text) && |text| <= max
    requires depth <= MAX_RECURSION_DEPTH
    ensures (forall v :: !Decimal.Numeral(text, v)) ==> FrameAt(buf, start, max, depth) == Fail(InvalidBulkLength)
    ensures forall v: i64 :: Decimal.Numeral(text, v) ==>
              FrameAt(buf, start, max, depth) == BulkAnswer(buf, start + |text| + 3, v, max)
  {
    NumberVerdict(buf, start, BULK_MARK, text, max, InvalidBulkLength);
    forall v: i64 | Decimal.Numeral(text, v)
      ensures FrameAt(buf, start, max, depth) == BulkAnswer(buf, start + |text| + 3, v, max)
    {
      assert NumberAt(buf, start, max, InvalidBulkLength) == Done(v, start + |text| + 3);
      BulkAnswers(buf, start, start + |text| + 3, v, max);
    }
  }

  lemma BulkAnswers(buf: bytes, start: nat, next: nat, len: i64, max: nat)
    requires NumberAt(buf, start, max, InvalidBulkLength) == Done(len, next)
    requires next <= |buf|
    ensures BulkAt(buf, start, max) == BulkAnswer(buf, next, len, max)
  {
    if len >= 0 {
      var zeros: bytes := seq(len, _ => 0);
      assert |Wire(Bulk(zeros))| == 1 + |Decimal.Digits(len)| + 2 + len + 2;
    }
  }

  // ---------------------------------------------------------------- arrays

  /** The answer to an array whose count line has been read. */
  function ArrayAnswer(buf: bytes, start: nat, next: nat, count: int, max: nat, depth: nat): Parsed<Frame> {
    if count == -1 then Done(NullArray, next)
    else if count < -1 then Fail(NegativeArrayLength)
    else if count > MAX_ARRAY_ELEMENTS then Fail(TooManyElements)
    else
      match ItemsAt(buf, next, max, depth + 1, count)
      case NeedMore => NeedMore
      case Fail(e) => Fail(e)
      case Done(items, end) => if end <= start + max then Done(Array(items), end) else Fail(FrameTooLarge)
  }

  lemma {:induction false} ArrayVerdict(buf: bytes, start: nat, text: bytes, max: nat, depth: nat)
    requires HoldsAt(buf, start, Line(ARRAY_MARK, text)) && OneLine(text) && |text| <= max
    requires depth <= MAX_RECURSION_DEPTH
    ensures (forall v :: !Decimal.Numeral(text, v)) ==> FrameAt(buf, start, max, depth) == Fail(InvalidArrayLength)
    ensures forall v: i64 :: Decimal.Numeral(text, v) ==>
              FrameAt(buf, start, max, depth) == ArrayAnswer(buf, start, start + |text| + 3, v, max, depth)
  {
    NumberVerdict(buf, start, ARRAY_MARK, text, max, InvalidArrayLength);
    forall v: i64 | Decimal.Numeral(text, v)
      ensures FrameAt(buf, start, max, depth) == ArrayAnswer(buf, start, start + |text| + 3, v, max, depth)
    {
      assert NumberAt(buf, start, max, InvalidArrayLength) == Done(v, start + |text| + 3);
    }
  }

  /** The items of an array: all of them, or the answer to the first one that is not there. */
  lemma {:induction false} ItemsVerdict(buf: bytes, cursor: nat, max: nat, depth: nat, count: nat)
    ensures var r := ItemsAt(buf, cursor, max, depth, count);
            && (r.Done? ==> |r.value| == count)
            && (!r.Done? ==> exists done: nat, at: nat :: Stopped(buf, cursor, max, depth, count, done, at, r))
    decreases count
  {
    if count > 0 {
      var f := FrameAt(buf, cursor, max, depth);
      if f.Done? {
        ItemsVerdict(buf, f.next, max, depth, count - 1);
        var rest := ItemsAt(buf, f.next, max, depth, count - 1);
        if !rest.Done? {
          var done: nat, at: nat :| Stopped(buf, f.next, max, depth, count - 1, done, at, rest);
          assert Stopped(buf, cursor, max, depth, count, done + 1, at, ItemsAt(buf, cursor, max, depth, count));
        }
      } else {
        assert ItemsAt(buf, cursor, max, depth, 0).Done?;
        assert Stopped(buf, cursor, max, depth, count, 0, cursor, ItemsAt(buf, cursor, max, depth, count));
      }
    }
  }

  /** `done` items end at `at`, where the next of `count` items gets the answer `r` instead of a frame. */
  ghost predicate Stopped(buf: bytes, cursor: nat, max: nat, depth: nat, count: nat, done: nat, at: nat,
                          r: Parsed<seq<Frame>>)
  {
    && done < count
    && (var before := ItemsAt(buf, cursor, max, depth, done); before.Done? && before.next == at)
    && match FrameAt(buf, at, max, depth)
       case NeedMore => r == NeedMore
       case Fail(e) => r == Fail(e)
       case Done(_, _) => false
  }
}
