/** What the RESP parser promises about partial input, printed frames and normalisation. */
module RespTheorems {
  import opened Base
  import opened RespFrame
  import opened RespParse
  import opened RespGrammar
  import Utf8
  import Decimal

  // ------------------------------------------------ stability under arriving bytes

  /** `a` and `b` have the same first `k` bytes. */
  predicate Agree(a: bytes, b: bytes, k: nat) {
    k <= |a| && k <= |b| && forall i :: 0 <= i < k ==> a[i] == b[i]
  }

  /** How much of the buffer an answer rests on: the consumed part, or all of it for an error. */
  function Rests<T>(r: Parsed<T>, buf: bytes): nat {
    if r.Done? then r.next else |buf|
  }

  lemma {:induction false} ScanStable(a: bytes, b: bytes, start: nat, index: nat, max: nat)
    requires start <= index
    requires !ScanLine(a, start, index, max).NeedMore?
    requires Agree(a, b, Rests(ScanLine(a, start, index, max), a))
    ensures ScanLine(b, start, index, max) == ScanLine(a, start, index, max)
    decreases |a| - index
  {
    if index - start <= max {
      if EndsLine(a, index) {
        assert a[start..index] == b[start..index];
      } else {
        ScanStable(a, b, start, index + 1, max);
      }
    }
  }

  lemma TextStable(a: bytes, b: bytes, start: nat, max: nat, bad: ParseError)
    requires !TextAt(a, start, max, bad).NeedMore?
    requires Agree(a, b, Rests(TextAt(a, start, max, bad), a))
    ensures TextAt(b, start, max, bad) == TextAt(a, start, max, bad)
  {
    ScanStable(a, b, start + 1, start + 1, max);
  }

  lemma NumberStable(a: bytes, b: bytes, start: nat, max: nat, bad: ParseError)
    requires !NumberAt(a, start, max, bad).NeedMore?
    requires Agree(a, b, Rests(NumberAt(a, start, max, bad), a))
    ensures NumberAt(b, start, max, bad) == NumberAt(a, start, max, bad)
  {
    TextStable(a, b, start, max, bad);
  }

  lemma BulkStable(a: bytes, b: bytes, start: nat, max: nat)
    requires !BulkAt(a, start, max).NeedMore?
    requires Agree(a, b, Rests(BulkAt(a, start, max), a))
    ensures BulkAt(b, start, max) == BulkAt(a, start, max)
  {
    NumberStable(a, b, start, max, InvalidBulkLength);
    var n := NumberAt(a, start, max, InvalidBulkLength);
    if n.Done? && n.value >= 0 && BulkAt(a, start, max).Done? {
      assert a[n.next..n.next + n.value] == b[n.next..n.next + n.value];
    }
  }

  /**
    A success or an error on `a` is repeated on every buffer that shares the bytes it rests on:
    for an error all of `a`, for a success only the bytes consumed.
   */
  lemma {:induction false} FrameStable(a: bytes, b: bytes, start: nat, max: nat, depth: nat)
    requires !FrameAt(a, start, max, depth).NeedMore?
    requires Agree(a, b, Rests(FrameAt(a, start, max, depth), a))
    ensures FrameAt(b, start, max, depth) == FrameAt(a, start, max, depth)
    decreases Headroom(depth), 1, 0
  {
    FrameBounds(a, start, max, depth);
    if depth > MAX_RECURSION_DEPTH || start >= |a| {
    } else if a[start] == STRING_MARK {
      TextStable(a, b, start, max, InvalidSimpleString);
    } else if a[start] == ERROR_MARK {
      TextStable(a, b, start, max, InvalidError);
    } else if a[start] == INTEGER_MARK {
      NumberStable(a, b, start, max, InvalidInteger);
    } else if a[start] == BULK_MARK {
      BulkStable(a, b, start, max);
    } else if a[start] == ARRAY_MARK {
      ArrayStable(a, b, start, max, depth);
    }
  }

  lemma {:induction false} ArrayStable(a: bytes, b: bytes, start: nat, max: nat, depth: nat)
    requires depth <= MAX_RECURSION_DEPTH
    requires !ArrayAt(a, start, max, depth).NeedMore?
    requires Agree(a, b, Rests(ArrayAt(a, start, max, depth), a))
    ensures ArrayAt(b, start, max, depth) == ArrayAt(a, start, max, depth)
    decreases Headroom(depth), 0, 0
  {
    var n := NumberAt(a, start, max, InvalidArrayLength);
    if n.Done? && 0 <= n.value <= MAX_ARRAY_ELEMENTS {
      ItemsBounds(a, n.next, max, depth + 1, n.value);
      ItemsStable(a, b, n.next, max, depth + 1, n.value);
    }
    NumberStable(a, b, start, max, InvalidArrayLength);
    ArraySame(a, b, start, max, depth);
  }

  /** The array follows from its count and its items. */
  lemma {:induction false} ArraySame(a: bytes, b: bytes, start: nat, max: nat, depth: nat)
    requires depth <= MAX_RECURSION_DEPTH
    requires NumberAt(b, start, max, InvalidArrayLength) == NumberAt(a, start, max, InvalidArrayLength)
    requires var n := NumberAt(a, start, max, InvalidArrayLength);
             n.Done? && 0 <= n.value <= MAX_ARRAY_ELEMENTS ==>
               ItemsAt(b, n.next, max, depth + 1, n.value) == ItemsAt(a, n.next, max, depth + 1, n.value)
    ensures ArrayAt(b, start, max, depth) == ArrayAt(a, start, max, depth)
  {
  }

  lemma {:induction false} ItemsStable(a: bytes, b: bytes, cursor: nat, max: nat, depth: nat, count: nat)
    requires !ItemsAt(a, cursor, max, depth, count).NeedMore?
    requires Agree(a, b, Rests(ItemsAt(a, cursor, max, depth, count), a))
    requires cursor <= |a|
    ensures ItemsAt(b, cursor, max, depth, count) == ItemsAt(a, cursor, max, depth, count)
    decreases Headroom(depth), 2, count
  {
    if count > 0 {
      var r := FrameAt(a, cursor, max, depth);
      FrameBounds(a, cursor, max, depth);
      if r.Done? {
        ItemsBounds(a, r.next, max, depth, count - 1);
        ItemsStable(a, b, r.next, max, depth, count - 1);
      }
      FrameStable(a, b, cursor, max, depth);
    }
  }

  /** Progress: a parsed frame consumes at least one byte and nothing beyond the buffer. */
  lemma {:induction false} FrameBounds(buf: bytes, start: nat, max: nat, depth: nat)
    ensures var r := FrameAt(buf, start, max, depth); r.Done? ==> start < r.next <= |buf|
    decreases Headroom(depth), 1, 0
  {
    if depth <= MAX_RECURSION_DEPTH && start < |buf| && buf[start] == ARRAY_MARK {
      var n := NumberAt(buf, start, max, InvalidArrayLength);
      if n.Done? && 0 <= n.value <= MAX_ARRAY_ELEMENTS {
        ItemsBounds(buf, n.next, max, depth + 1, n.value);
      }
    }
  }

  lemma {:induction false} ItemsBounds(buf: bytes, cursor: nat, max: nat, depth: nat, count: nat)
    requires cursor <= |buf|
    ensures var r := ItemsAt(buf, cursor, max, depth, count);
            r.Done? ==> cursor <= r.next <= |buf| && |r.value| == count
    decreases Headroom(depth), 2, count
  {
    if count > 0 {
      var r := FrameAt(buf, cursor, max, depth);
      FrameBounds(buf, cursor, max, depth);
      if r.Done? {
        ItemsBounds(buf, r.next, max, depth, count - 1);
      }
    }
  }

  /**
    Prefix stability of the whole parser: appending bytes never changes a success or an error;
    a success consumes at least one byte, is decided by exactly the bytes consumed, and was
    "need more" on every strictly shorter prefix.
   */
  lemma PrefixStability(buf: bytes, more: bytes, max: nat)
    ensures var r := ParseFrame(buf, max);
            && (!r.NeedMore? ==> ParseFrame(buf + more, max) == r)
            && (r.Done? ==>
                  && 0 < r.next <= |buf|
                  && ParseFrame(buf[..r.next], max) == r
                  && forall k :: 0 <= k < r.next ==> ParseFrame(buf[..k], max).NeedMore?)
  {
    var r := ParseFrame(buf, max);
    FrameBounds(buf, 0, max, 0);
    if !r.NeedMore? {
      FrameStable(buf, buf + more, 0, max, 0);
    }
    if r.Done? {
      FrameStable(buf, buf[..r.next], 0, max, 0);
      forall k | 0 <= k < r.next
        ensures ParseFrame(buf[..k], max).NeedMore?
      {
        FrameBounds(buf[..k], 0, max, 0);
        if !ParseFrame(buf[..k], max).NeedMore? {
          FrameStable(buf[..k], buf, 0, max, 0);
        }
      }
    }
  }

  // ------------------------------------------------ how much input a decision can need

  /** The most bytes one parsed frame can take: a padded length line and a payload, or a bare line. */
  function Longest(max: nat): nat {
    if max < 4 then max + 3 else 2 * max - 1
  }

  /** An array's own line, and all its items but the undecided one. */
  function PerLevel(max: nat): nat { max + 3 + (MAX_ARRAY_ELEMENTS - 1) * Longest(max) }

  /** The most bytes after which a frame at this depth can still be undecided. */
  function Undecided(max: nat, depth: nat): nat
    decreases Headroom(depth)
  {
    if depth > MAX_RECURSION_DEPTH then 0 else PerLevel(max) + Undecided(max, depth + 1)
  }

  /** A success takes at most `taken` bytes from `at`; an undecided buffer has at most `waiting`. */
  predicate Within<T>(r: Parsed<T>, buf: bytes, at: nat, taken: nat, waiting: nat) {
    match r
    case NeedMore => |buf| <= at + waiting
    case Fail(_) => true
    case Done(_, next) => next <= at + taken
  }

  lemma {:induction false} ScanWithin(buf: bytes, start: nat, index: nat, max: nat)
    requires start <= index <= start + max + 1 && index <= |buf|
    ensures Within(ScanLine(buf, start, index, max), buf, start, max + 2, max + 1)
    decreases |buf| - index
  {
    if index < |buf| && index - start <= max && !EndsLine(buf, index) {
      ScanWithin(buf, start, index + 1, max);
    }
  }

  lemma NumberWithin(buf: bytes, start: nat, max: nat, bad: ParseError)
    requires start < |buf|
    ensures Within(NumberAt(buf, start, max, bad), buf, start, max + 3, max + 2)
  {
    ScanWithin(buf, start + 1, start + 1, max);
  }

  lemma BulkWithin(buf: bytes, start: nat, max: nat)
    requires start < |buf|
    ensures Within(BulkAt(buf, start, max), buf, start, Longest(max), Longest(max))
  {
    NumberWithin(buf, start, max, InvalidBulkLength);
  }

  lemma {:induction false} FrameWithin(buf: bytes, start: nat, max: nat, depth: nat)
    requires start <= |buf|
    ensures Within(FrameAt(buf, start, max, depth), buf, start, Longest(max), Undecided(max, depth))
    decreases Headroom(depth), 1, 0
  {
    if depth <= MAX_RECURSION_DEPTH && start < |buf| {
      ScanWithin(buf, start + 1, start + 1, max);
      if buf[start] == BULK_MARK {
        BulkWithin(buf, start, max);
      } else if buf[start] == ARRAY_MARK {
        ArrayWithin(buf, start, max, depth);
      }
    }
  }

  /** A finished array is within the limit itself; an unfinished one waits inside one item. */
  lemma {:induction false} ArrayWithin(buf: bytes, start: nat, max: nat, depth: nat)
    requires start < |buf| && depth <= MAX_RECURSION_DEPTH
    ensures Within(ArrayAt(buf, start, max, depth), buf, start, max + 3, Undecided(max, depth))
    decreases Headroom(depth), 0, 0
  {
    NumberWithin(buf, start, max, InvalidArrayLength);
    var n := NumberAt(buf, start, max, InvalidArrayLength);
    if n.Done? && 0 < n.value <= MAX_ARRAY_ELEMENTS {
      ItemsWithin(buf, n.next, max, depth + 1, n.value);
      Scales(n.value - 1, MAX_ARRAY_ELEMENTS - 1, Longest(max));
    }
  }

  lemma {:induction false} ItemsWithin(buf: bytes, cursor: nat, max: nat, depth: nat, count: nat)
    requires cursor <= |buf| && count > 0
    ensures ItemsAt(buf, cursor, max, depth, count).NeedMore? ==>
              |buf| <= cursor + Waiting(count, Longest(max), Undecided(max, depth))
    decreases Headroom(depth), 2, count
  {
    var r := FrameAt(buf, cursor, max, depth);
    FrameWithin(buf, cursor, max, depth);
    FrameBounds(buf, cursor, max, depth);
    WaitingStep(count, Longest(max), Undecided(max, depth));
    if r.Done? {
      if count == 1 {
        assert ItemsAt(buf, r.next, max, depth, 0).Done?;
      } else {
        ItemsWithin(buf, r.next, max, depth, count - 1);
      }
    }
  }

  /** All items but one finished, and that one undecided. */
  function Waiting(count: nat, longest: nat, undecided: nat): nat
    requires count > 0
  {
    (count - 1) * longest + undecided
  }

  lemma WaitingStep(count: nat, longest: nat, undecided: nat)
    requires count > 0
    ensures undecided <= Waiting(count, longest, undecided)
    ensures count > 1 ==> Waiting(count, longest, undecided) == longest + Waiting(count - 1, longest, undecided)
  {
    assert count > 1 ==> (count - 1) * longest == longest + (count - 2) * longest;
  }

  /** The nesting limit makes the bound linear in the frame limit. */
  lemma {:induction false} UndecidedIs(max: nat, depth: nat)
    ensures Undecided(max, depth) == Headroom(depth) * PerLevel(max)
    decreases Headroom(depth)
  {
    if depth <= MAX_RECURSION_DEPTH {
      UndecidedIs(max, depth + 1);
      WaitingStep(Headroom(depth) + 1, PerLevel(max), 0);
    }
  }

  /**
    The parser never waits forever: no frame takes more than about twice the limit, and a buffer
    longer than a fixed multiple of the limit always gets an answer.
   */
  lemma AlwaysDecides(buf: bytes, max: nat)
    ensures var r := ParseFrame(buf, max);
            && (r.Done? ==> r.next <= Longest(max))
            && (r.NeedMore? ==> |buf| <= 65 * (max + 3 + 1023 * Longest(max)))
  {
    FrameWithin(buf, 0, max, 0);
    UndecidedIs(max, 0);
  }

  // ------------------------------------------------ everything accepted is spelt in the grammar

  /** A scanned line is the text up to the first line terminator, and within the limit. */
  lemma {:induction false} ScanMeaning(buf: bytes, start: nat, index: nat, max: nat)
    requires start <= index
    requires forall i :: start <= i < index ==> !EndsLine(buf, i)
    ensures var r := ScanLine(buf, start, index, max);
            r.Done? ==> && r.next - 2 - start <= max && r.value == buf[start..r.next - 2]
                        && OneLine(r.value) && EndsLine(buf, r.next - 2)
    decreases |buf| - index
  {
    if index < |buf| && index - start <= max {
      if EndsLine(buf, index) {
        forall i | 0 <= i < index - start
          ensures !EndsLine(buf[start..index], i)
        {
          assert !EndsLine(buf, start + i);
        }
      } else {
        ScanMeaning(buf, start, index + 1, max);
      }
    }
  }

  lemma LineSpelt(buf: bytes, start: nat, max: nat)
    requires start < |buf| && LineAt(buf, start + 1, max).Done?
    ensures var r := LineAt(buf, start + 1, max);
            buf[start..r.next] == Line(buf[start], r.value) && OneLine(r.value) && |r.value| <= max
  {
    ScanMeaning(buf, start + 1, start + 1, max);
  }

  lemma NumberSpelt(buf: bytes, start: nat, max: nat, bad: ParseError)
    requires start < |buf| && NumberAt(buf, start, max, bad).Done?
    ensures var r, line := NumberAt(buf, start, max, bad), LineAt(buf, start + 1, max);
            line.Done? && line.next == r.next && Number(line.value, r.value, max)
  {
    LineSpelt(buf, start, max);
    Decimal.ParsesNumerals(LineAt(buf, start + 1, max).value, NumberAt(buf, start, max, bad).value);
  }

  lemma {:induction false} PayloadSpelt(buf: bytes, at: nat, len: nat, max: nat)
    requires PayloadAt(buf, at, len, max).Done?
    ensures var r := PayloadAt(buf, at, len, max);
            && r.value.Bulk? && |r.value.payload| == len && buf[at..r.next] == r.value.payload + CRLF
            && |Line(BULK_MARK, Decimal.Digits(len))| + len + 2 <= max
  {
  }

  lemma Joined(buf: bytes, a: nat, b: nat, c: nat)
    requires a <= b <= c <= |buf|
    ensures buf[a..c] == buf[a..b] + buf[b..c]
  {
  }

  lemma BulkSpelt(buf: bytes, start: nat, max: nat, depth: nat) returns (sp: Spelling)
    requires start < |buf| && buf[start] == BULK_MARK && depth <= MAX_RECURSION_DEPTH
    requires BulkAt(buf, start, max).Done?
    ensures var r := BulkAt(buf, start, max);
            start <= r.next <= |buf| && Spells(sp, r.value, max, depth) && Bytes(sp) == buf[start..r.next]
  {
    LineSpelt(buf, start, max);
    NumberSpelt(buf, start, max, InvalidBulkLength);
    var line := LineAt(buf, start + 1, max);
    var n := NumberAt(buf, start, max, InvalidBulkLength);
    if n.value == -1 {
      sp := SpeltNullBulk(line.value);
    } else {
      PayloadSpelt(buf, n.next, n.value, max);
      var r := BulkAt(buf, start, max);
      sp := SpeltBulk(line.value, r.value.payload);
      Joined(buf, start, n.next, r.next);
    }
  }

  lemma {:induction false} FrameSpelt(buf: bytes, start: nat, max: nat, depth: nat) returns (sp: Spelling)
    requires FrameAt(buf, start, max, depth).Done?
    ensures var r := FrameAt(buf, start, max, depth);
            r.next <= |buf| && start < r.next && Spells(sp, r.value, max, depth) && Bytes(sp) == buf[start..r.next]
    decreases Headroom(depth), 1, 0
  {
    FrameBounds(buf, start, max, depth);
    if buf[start] == BULK_MARK {
      sp := BulkSpelt(buf, start, max, depth);
    } else if buf[start] == ARRAY_MARK {
      sp := ArraySpelt(buf, start, max, depth);
    } else {
      LineSpelt(buf, start, max);
      var line := LineAt(buf, start + 1, max);
      if buf[start] == INTEGER_MARK {
        NumberSpelt(buf, start, max, InvalidInteger);
      }
      sp := if buf[start] == STRING_MARK then SpeltString(line.value)
            else if buf[start] == ERROR_MARK then SpeltError(line.value)
            else SpeltInteger(line.value);
    }
  }

  /** A parsed array is a null count, or a count and its items within the limit. */
  lemma {:induction false} ArrayParts(buf: bytes, start: nat, max: nat, depth: nat)
    requires depth <= MAX_RECURSION_DEPTH && ArrayAt(buf, start, max, depth).Done?
    ensures NumberAt(buf, start, max, InvalidArrayLength).Done?
    ensures var n := NumberAt(buf, start, max, InvalidArrayLength);
            if n.value == -1 then ArrayAt(buf, start, max, depth) == Done(NullArray, n.next)
            else && 0 <= n.value <= MAX_ARRAY_ELEMENTS
                 && var items := ItemsAt(buf, n.next, max, depth + 1, n.value);
                    && items.Done? && items.next - start <= max
                    && ArrayAt(buf, start, max, depth) == Done(Array(items.value), items.next)
  {
  }

  lemma {:induction false} ArraySpelt(buf: bytes, start: nat, max: nat, depth: nat) returns (sp: Spelling)
    requires start < |buf| && buf[start] == ARRAY_MARK && depth <= MAX_RECURSION_DEPTH
    requires ArrayAt(buf, start, max, depth).Done?
    ensures var r := ArrayAt(buf, start, max, depth);
            start <= r.next <= |buf| && Spells(sp, r.value, max, depth) && Bytes(sp) == buf[start..r.next]
    decreases Headroom(depth), 0, 0
  {
    ArrayParts(buf, start, max, depth);
    var n := NumberAt(buf, start, max, InvalidArrayLength);
    var digits := CountSpelt(buf, start, max);
    if n.value == -1 {
      sp := SpeltNullArray(digits);
    } else {
      var sps := ItemsSpelt(buf, n.next, max, depth + 1, n.value);
      var items := ItemsAt(buf, n.next, max, depth + 1, n.value);
      sp := SpeltArray(digits, sps);
      ArrayJoins(buf, start, n.next, items.next, digits, sps, items.value, max, depth);
    }
  }

  /** The digits of an array's count line. */
  lemma {:induction false} CountSpelt(buf: bytes, start: nat, max: nat) returns (digits: Utf8.Text)
    requires start < |buf| && buf[start] == ARRAY_MARK && NumberAt(buf, start, max, InvalidArrayLength).Done?
    ensures var n := NumberAt(buf, start, max, InvalidArrayLength);
            && start <= n.next <= |buf| && buf[start..n.next] == Line(ARRAY_MARK, digits)
            && Number(digits, n.value, max)
  {
    LineSpelt(buf, start, max);
    NumberSpelt(buf, start, max, InvalidArrayLength);
    digits := LineAt(buf, start + 1, max).value;
  }

  /** A count line and its items, one after the other, spell the array if they are within the limit together. */
  lemma {:induction false} ArrayJoins(buf: bytes, start: nat, next: nat, end: nat, digits: Utf8.Text,
                                      sps: seq<Spelling>, items: seq<Frame>, max: nat, depth: nat)
    requires start <= next <= end <= |buf| && end - start <= max
    requires buf[start..next] == Line(ARRAY_MARK, digits) && buf[next..end] == BytesAll(sps)
    requires depth <= MAX_RECURSION_DEPTH && Number(digits, |items|, max) && |items| <= MAX_ARRAY_ELEMENTS
    requires SpellAll(sps, items, max, depth + 1)
    ensures Bytes(SpeltArray(digits, sps)) == buf[start..end]
    ensures Spells(SpeltArray(digits, sps), Array(items), max, depth)
  {
    Joined(buf, start, next, end);
  }

  lemma {:induction false} ItemsSpelt(buf: bytes, cursor: nat, max: nat, depth: nat, count: nat)
    returns (sps: seq<Spelling>)
    requires cursor <= |buf| && ItemsAt(buf, cursor, max, depth, count).Done?
    ensures var r := ItemsAt(buf, cursor, max, depth, count);
            && cursor <= r.next <= |buf| && |r.value| == count
            && SpellAll(sps, r.value, max, depth) && BytesAll(sps) == buf[cursor..r.next]
    decreases Headroom(depth), 2, count
  {
    if count == 0 {
      sps := [];
    } else {
      var sp := FrameSpelt(buf, cursor, max, depth);
      var next := FrameAt(buf, cursor, max, depth).next;
      var rest := ItemsSpelt(buf, next, max, depth, count - 1);
      sps := [sp] + rest;
      Joined(buf, cursor, next, ItemsAt(buf, next, max, depth, count - 1).next);
    }
  }

  // ------------------------------------------------ everything spelt in the grammar is accepted

  lemma CrlfAt(buf: bytes, at: nat)
    requires HoldsAt(buf, at, CRLF)
    ensures EndsLine(buf, at)
  {
    assert buf[at + 0] == CRLF[0] && buf[at + 1] == CRLF[1];
  }

  lemma {:induction false} ScanFinds(buf: bytes, start: nat, index: nat, text: bytes, max: nat)
    requires HoldsAt(buf, start, text + CRLF)
    requires OneLine(text) && |text| <= max
    requires start <= index <= start + |text|
    ensures ScanLine(buf, start, index, max) == Done(text, start + |text| + 2)
    decreases start + |text| - index
  {
    var end := start + |text|;
    HoldsSplit(buf, start, text, CRLF);
    CrlfAt(buf, end);
    if index < end {
      assert buf[index] == text[index - start];
      if index + 1 < end {
        assert buf[index + 1] == text[index - start + 1];
        assert !EndsLine(text, index - start);
      }
      ScanFinds(buf, start, index + 1, text, max);
    } else {
      HoldsSlice(buf, start, text);
    }
  }

  /** A stored line of single-line text is read back by the line scan. */
  lemma LineFinds(buf: bytes, start: nat, mark: byte, text: bytes, max: nat)
    requires HoldsAt(buf, start, Line(mark, text))
    requires OneLine(text) && |text| <= max
    ensures buf[start] == mark
    ensures LineAt(buf, start + 1, max) == Done(text, start + |Line(mark, text)|)
  {
    assert Line(mark, text) == [mark] + (text + CRLF);
    HoldsSplit(buf, start, [mark], text + CRLF);
    assert buf[start + 0] == [mark][0];
    assert LineAt(buf, start + 1, max) == ScanLine(buf, start + 1, start + 1, max);
    ScanFinds(buf, start + 1, start + 1, text, max);
  }

  lemma NumberFinds(buf: bytes, start: nat, mark: byte, digits: Utf8.Text, v: int, max: nat, bad: ParseError)
    requires HoldsAt(buf, start, Line(mark, digits)) && Number(digits, v, max)
    ensures buf[start] == mark
    ensures NumberAt(buf, start, max, bad) == Done(v, start + |Line(mark, digits)|)
  {
    NumberIsLine(digits, v);
    Decimal.ParsesNumerals(digits, v);
    LineFinds(buf, start, mark, digits, max);
  }

  lemma {:induction false} PayloadFinds(buf: bytes, at: nat, payload: bytes, max: nat)
    requires HoldsAt(buf, at, payload + CRLF)
    requires 1 + |Decimal.Digits(|payload|)| + 2 + |payload| + 2 <= max && at + |payload| + 2 <= USIZE_MAX
    ensures PayloadAt(buf, at, |payload|, max) == Done(Bulk(payload), at + |payload| + 2)
  {
    HoldsSplit(buf, at, payload, CRLF);
    HoldsSlice(buf, at, payload);
    CrlfAt(buf, at + |payload|);
  }

  lemma BulkHead(buf: bytes, start: nat, digits: Utf8.Text, payload: bytes, max: nat)
    requires HoldsAt(buf, start, Line(BULK_MARK, digits) + (payload + CRLF)) && Number(digits, |payload|, max)
    ensures buf[start] == BULK_MARK && HoldsAt(buf, start + |Line(BULK_MARK, digits)|, payload + CRLF)
    ensures NumberAt(buf, start, max, InvalidBulkLength) == Done(|payload|, start + |Line(BULK_MARK, digits)|)
  {
    HoldsSplit(buf, start, Line(BULK_MARK, digits), payload + CRLF);
    NumberFinds(buf, start, BULK_MARK, digits, |payload|, max, InvalidBulkLength);
  }

  lemma {:induction false} BulkFinds(buf: bytes, start: nat, next: nat, payload: bytes, max: nat)
    requires |payload| <= I64_MAX && NumberAt(buf, start, max, InvalidBulkLength) == Done(|payload|, next)
    requires HoldsAt(buf, next, payload + CRLF)
    requires 1 + |Decimal.Digits(|payload|)| + 2 + |payload| + 2 <= max && next + |payload| + 2 <= USIZE_MAX
    ensures BulkAt(buf, start, max) == Done(Bulk(payload), next + |payload| + 2)
  {
    PayloadFinds(buf, next, payload, max);
    BulkStep(buf, start, next, |payload|, max);
  }

  lemma BulkStep(buf: bytes, start: nat, next: nat, len: nat, max: nat)
    requires len <= I64_MAX && NumberAt(buf, start, max, InvalidBulkLength) == Done(len, next)
    ensures BulkAt(buf, start, max) == PayloadAt(buf, next, len, max)
  {
  }

  /** A spelling stored anywhere in a buffer is read as its frame, exactly. */
  lemma {:induction false} FrameFinds(buf: bytes, start: nat, sp: Spelling, f: Frame, max: nat, depth: nat)
    requires HoldsAt(buf, start, Bytes(sp)) && Spells(sp, f, max, depth)
    requires start + |Bytes(sp)| <= USIZE_MAX
    ensures FrameAt(buf, start, max, depth) == Done(f, start + |Bytes(sp)|)
    decreases sp, 2
  {
    match sp
    case SpeltBulk(digits, payload) =>
      BulkHead(buf, start, digits, payload, max);
      BulkFinds(buf, start, start + |Line(BULK_MARK, digits)|, payload, max);
    case SpeltArray(digits, sps) =>
      ArrayFinds(buf, start, digits, sps, f.items, max, depth);
    case _ =>
      LineFrameFinds(buf, start, sp, f, max, depth);
  }

  lemma {:induction false} ArrayFinds(buf: bytes, start: nat, digits: Utf8.Text, sps: seq<Spelling>,
                                      items: seq<Frame>, max: nat, depth: nat)
    requires HoldsAt(buf, start, Line(ARRAY_MARK, digits) + BytesAll(sps)) && Number(digits, |items|, max)
    requires depth <= MAX_RECURSION_DEPTH && |items| <= MAX_ARRAY_ELEMENTS && SpellAll(sps, items, max, depth + 1)
    requires |Line(ARRAY_MARK, digits) + BytesAll(sps)| <= max
    requires start + |Line(ARRAY_MARK, digits) + BytesAll(sps)| <= USIZE_MAX
    ensures FrameAt(buf, start, max, depth) == Done(Array(items), start + |Line(ARRAY_MARK, digits) + BytesAll(sps)|)
    decreases sps, 1
  {
    var next := start + |Line(ARRAY_MARK, digits)|;
    ArrayHead(buf, start, digits, sps, |items|, max);
    ItemsFind(buf, next, sps, items, max, depth + 1);
    ArrayStep(buf, start, next, items, next + |BytesAll(sps)|, max, depth);
  }

  lemma {:induction false} LineFrameFinds(buf: bytes, start: nat, sp: Spelling, f: Frame, max: nat, depth: nat)
    requires !sp.SpeltBulk? && !sp.SpeltArray?
    requires HoldsAt(buf, start, Bytes(sp)) && Spells(sp, f, max, depth)
    ensures FrameAt(buf, start, max, depth) == Done(f, start + |Bytes(sp)|)
  {
    match sp
    case SpeltString(text) => LineFinds(buf, start, STRING_MARK, text, max);
    case SpeltError(text) => LineFinds(buf, start, ERROR_MARK, text, max);
    case SpeltInteger(digits) => NumberFinds(buf, start, INTEGER_MARK, digits, f.value, max, InvalidInteger);
    case SpeltNullBulk(digits) => NumberFinds(buf, start, BULK_MARK, digits, -1, max, InvalidBulkLength);
    case SpeltNullArray(digits) => NumberFinds(buf, start, ARRAY_MARK, digits, -1, max, InvalidArrayLength);
  }

  lemma {:induction false} ArrayHead(buf: bytes, start: nat, digits: Utf8.Text, sps: seq<Spelling>,
                                     count: nat, max: nat)
    requires HoldsAt(buf, start, Line(ARRAY_MARK, digits) + BytesAll(sps)) && Number(digits, count, max)
    ensures buf[start] == ARRAY_MARK
    ensures HoldsAt(buf, start + |Line(ARRAY_MARK, digits)|, BytesAll(sps))
    ensures NumberAt(buf, start, max, InvalidArrayLength) == Done(count, start + |Line(ARRAY_MARK, digits)|)
  {
    HoldsSplit(buf, start, Line(ARRAY_MARK, digits), BytesAll(sps));
    NumberFinds(buf, start, ARRAY_MARK, digits, count, max, InvalidArrayLength);
  }

  lemma {:induction false} ArrayStep(buf: bytes, start: nat, next: nat, items: seq<Frame>,
                                     end: nat, max: nat, depth: nat)
    requires start < |buf| && buf[start] == ARRAY_MARK
    requires depth <= MAX_RECURSION_DEPTH && |items| <= MAX_ARRAY_ELEMENTS && end - start <= max
    requires NumberAt(buf, start, max, InvalidArrayLength) == Done(|items|, next)
    requires ItemsAt(buf, next, max, depth + 1, |items|) == Done(items, end)
    ensures FrameAt(buf, start, max, depth) == Done(Array(items), end)
  {
  }

  lemma {:induction false} ItemsFind(buf: bytes, cursor: nat, sps: seq<Spelling>, fs: seq<Frame>, max: nat, depth: nat)
    requires HoldsAt(buf, cursor, BytesAll(sps)) && SpellAll(sps, fs, max, depth)
    requires cursor + |BytesAll(sps)| <= USIZE_MAX
    ensures ItemsAt(buf, cursor, max, depth, |fs|) == Done(fs, cursor + |BytesAll(sps)|)
    decreases sps, 0
  {
    if sps != [] {
      var next := cursor + |Bytes(sps[0])|;
      ItemsSplit(buf, cursor, sps);
      FrameFinds(buf, cursor, sps[0], fs[0], max, depth);
      ItemsFind(buf, next, sps[1..], fs[1..], max, depth);
      ItemsStep(buf, cursor, max, depth, fs, next);
    }
  }

  lemma {:induction false} ItemsSplit(buf: bytes, cursor: nat, sps: seq<Spelling>)
    requires sps != [] && HoldsAt(buf, cursor, BytesAll(sps))
    ensures HoldsAt(buf, cursor, Bytes(sps[0]))
    ensures HoldsAt(buf, cursor + |Bytes(sps[0])|, BytesAll(sps[1..]))
    ensures |BytesAll(sps)| == |Bytes(sps[0])| + |BytesAll(sps[1..])|
  {
    HoldsSplit(buf, cursor, Bytes(sps[0]), BytesAll(sps[1..]));
  }

  lemma {:induction false} ItemsStep(buf: bytes, cursor: nat, max: nat, depth: nat, items: seq<Frame>, next: nat)
    requires items != []
    requires FrameAt(buf, cursor, max, depth) == Done(items[0], next)
    requires var r := ItemsAt(buf, next, max, depth, |items| - 1); r.Done? && r.value == items[1..]
    ensures ItemsAt(buf, cursor, max, depth, |items|)
         == Done(items, ItemsAt(buf, next, max, depth, |items| - 1).next)
  {
    assert items == [items[0]] + items[1..];
  }

  // ------------------------------------------------ the main results

  /** The first `n` bytes of `buf` spell `f`. */
  ghost predicate Spelt(sp: Spelling, buf: bytes, n: nat, f: Frame, max: nat) {
    n <= |buf| && Spells(sp, f, max, 0) && Bytes(sp) == buf[..n]
  }

  /**
    The parser recognises exactly the grammar: it answers with a frame and a length if and only
    if that many leading bytes spell that frame within the limits.
   */
  lemma ParsesExactlyTheGrammar(buf: bytes, max: nat, f: Frame, n: nat)
    requires |buf| <= USIZE_MAX
    ensures ParseFrame(buf, max) == Done(f, n) <==> exists sp :: Spelt(sp, buf, n, f, max)
  {
    if ParseFrame(buf, max) == Done(f, n) {
      var sp := FrameSpelt(buf, 0, max, 0);
      assert Spelt(sp, buf, n, f, max);
    }
    if sp :| Spelt(sp, buf, n, f, max) {
      FrameFinds(buf, 0, sp, f, max, 0);
    }
  }

  /**
    Round trip, exactly: a frame the encoder accepts is read back from its encoding, whatever
    bytes follow it, if and only if it is carriable.
   */
  lemma {:induction false} RoundTrip(f: Frame, rest: bytes, max: usize)
    requires Shallow(f, 0) && |Wire(f)| <= max
    ensures Carriable(f) <==> ParseFrame(Wire(f) + rest, max) == Done(f, |Wire(f)|)
  {
    var buf := Wire(f) + rest;
    if Carriable(f) {
      CanonicalSpells(f, max, 0);
      CanonicalBytes(f);
      assert HoldsAt(buf, 0, Wire(f));
      FrameFinds(buf, 0, Canonical(f), f, max, 0);
    }
    if ParseFrame(buf, max) == Done(f, |Wire(f)|) {
      var sp := FrameSpelt(buf, 0, max, 0);
      SpellingSound(sp, f, max, 0);
    }
  }

  /**
    Normalisation: whatever digits the input used, an accepted frame can be printed again, its
    canonical form is no longer than the bytes it came from, and it parses back to the frame.
   */
  lemma Normalisation(buf: bytes, rest: bytes, max: usize)
    requires var r := ParseFrame(buf, max); r.Done? && r.next <= max
    ensures var r := ParseFrame(buf, max);
            && Shallow(r.value, 0)
            && |Wire(r.value)| <= r.next
            && ParseFrame(Wire(r.value) + rest, max) == Done(r.value, |Wire(r.value)|)
  {
    var r := ParseFrame(buf, max);
    var sp := FrameSpelt(buf, 0, max, 0);
    SpellingSound(sp, r.value, max, 0);
    RoundTrip(r.value, rest, max);
  }

  /** The smallest text that is not carriable: its line break cuts the frame short. */
  lemma {:induction false} LineBreakIsLost(f: Frame)
    requires f.SimpleString? && f.text == CRLF
    ensures Shallow(f, 0) && !Carriable(f)
    ensures ParseFrame(Wire(f), 64) == Done(SimpleString([]), 3)
  {
    assert EndsLine(f.text, 0);
    assert Wire(f) == [STRING_MARK, CR, LF, CR, LF];
    assert EndsLine(Wire(f), 1);
    assert Wire(f)[1..1] == [];
  }
}
