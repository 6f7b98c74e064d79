/** The RESP grammar as concrete syntax trees: every way to spell a frame that a parser may meet. */
module RespGrammar {
  import opened Base
  import opened RespFrame
  import opened Utf8
  import Decimal

  /** A frame as spelt; numbers keep the text they were written with. */
  datatype Spelling =
    | SpeltString(text: Text)
    | SpeltError(text: Text)
    | SpeltInteger(digits: Text)
    | SpeltNullBulk(digits: Text)
    | SpeltBulk(digits: Text, payload: bytes)
    | SpeltNullArray(digits: Text)
    | SpeltArray(digits: Text, items: seq<Spelling>)

  function Bytes(sp: Spelling): (w: bytes)
    ensures |w| >= 3
    decreases sp, 1
  {
    match sp
    case SpeltString(text) => Line(STRING_MARK, text)
    case SpeltError(text) => Line(ERROR_MARK, text)
    case SpeltInteger(digits) => Line(INTEGER_MARK, digits)
    case SpeltNullBulk(digits) => Line(BULK_MARK, digits)
    case SpeltBulk(digits, payload) => Line(BULK_MARK, digits) + (payload + CRLF)
    case SpeltNullArray(digits) => Line(ARRAY_MARK, digits)
    case SpeltArray(digits, items) => Line(ARRAY_MARK, digits) + BytesAll(items)
  }

  function BytesAll(sps: seq<Spelling>): bytes
    decreases sps, 0
  {
    if sps == [] then [] else Bytes(sps[0]) + BytesAll(sps[1..])
  }

  /** The line after a marker spells the number `v`. */
  ghost predicate Number(digits: bytes, v: int, max: nat) {
    |digits| <= max && Decimal.Numeral(digits, v)
  }

  /** `sp` spells `f`, at nesting level `depth` and within every limit of the parser. */
  ghost predicate Spells(sp: Spelling, f: Frame, max: nat, depth: nat)
    decreases sp, 1
  {
    depth <= MAX_RECURSION_DEPTH
    && match sp
       case SpeltString(text) => f == SimpleString(text) && OneLine(text) && |text| <= max
       case SpeltError(text) => f == Error(text) && OneLine(text) && |text| <= max
       case SpeltInteger(digits) => f.Integer? && Number(digits, f.value, max)
       case SpeltNullBulk(digits) => f == NullBulk && Number(digits, -1, max)
       case SpeltBulk(digits, payload) =>
         f == Bulk(payload) && Number(digits, |payload|, max)
         && |Line(BULK_MARK, Decimal.Digits(|payload|))| + |payload| + 2 <= max
       case SpeltNullArray(digits) => f == NullArray && Number(digits, -1, max)
       case SpeltArray(digits, sps) =>
         f.Array? && Number(digits, |f.items|, max) && |f.items| <= MAX_ARRAY_ELEMENTS
         && SpellAll(sps, f.items, max, depth + 1) && |Bytes(sp)| <= max
  }

  ghost predicate SpellAll(sps: seq<Spelling>, fs: seq<Frame>, max: nat, depth: nat)
    decreases sps, 0
  {
    |sps| == |fs|
    && (sps != [] ==> Spells(sps[0], fs[0], max, depth) && SpellAll(sps[1..], fs[1..], max, depth))
  }

  /** The spelling the printer uses. */
  function Canonical(f: Frame): Spelling
    decreases f, 1
  {
    match f
    case SimpleString(text) => SpeltString(text)
    case Error(text) => SpeltError(text)
    case Integer(v) => SpeltInteger(Plain(v))
    case NullBulk => SpeltNullBulk(Plain(-1))
    case Bulk(p) => SpeltBulk(Plain(|p|), p)
    case NullArray => SpeltNullArray(Plain(-1))
    case Array(items) => SpeltArray(Plain(|items|), CanonicalAll(items))
  }

  function CanonicalAll(items: seq<Frame>): (sps: seq<Spelling>)
    ensures |sps| == |items|
    decreases items, 0
  {
    if items == [] then [] else [Canonical(items[0])] + CanonicalAll(items[1..])
  }

  function Plain(v: int): Text {
    FormatIsText(v);
    Decimal.Format(v)
  }

  lemma FormatIsText(v: int)
    ensures OneLine(Decimal.Format(v)) && Valid(Decimal.Format(v))
  {
    var s := Decimal.Format(v);
    assert forall i :: 0 <= i < |s| ==> s[i] == Decimal.MINUS || Decimal.IsDigit(s[i]);
    AsciiIsValid(s);
  }

  /** A number's text is a single line. */
  lemma NumberIsLine(digits: bytes, v: int)
    requires Decimal.Numeral(digits, v)
    ensures OneLine(digits)
  {
    Decimal.ParsesNumerals(digits, v);
    var body := Decimal.Body(digits);
    forall i | 0 <= i < |digits|
      ensures digits[i] != CR
    {
      assert body == digits || body == digits[1..];
      if body == digits {
        assert Decimal.IsDigit(body[i]);
      } else if i > 0 {
        assert Decimal.IsDigit(body[i - 1]);
      }
    }
  }

  lemma {:induction false} CanonicalBytes(f: Frame)
    ensures Bytes(Canonical(f)) == Wire(f)
    decreases f, 1
  {
    if f.Array? {
      CanonicalAllBytes(f.items);
    }
  }

  lemma {:induction false} CanonicalAllBytes(items: seq<Frame>)
    ensures BytesAll(CanonicalAll(items)) == WireAll(items)
    decreases items, 0
  {
    if items != [] {
      CanonicalBytes(items[0]);
      CanonicalAllBytes(items[1..]);
    }
  }

  lemma PlainIsNumeral(v: i64)
    ensures Decimal.Numeral(Plain(v), v)
  {
    Decimal.FormatRoundTrip(v);
    Decimal.ParsesNumerals(Plain(v), v);
  }

  /** The printer's numeral is the shortest. */
  lemma PlainIsShortest(digits: bytes, v: int)
    requires Decimal.Numeral(digits, v)
    ensures |Decimal.Format(v)| <= |digits|
  {
    Decimal.ParsesNumerals(digits, v);
    Decimal.FormatShortest(digits);
  }

  /** The printer's spelling is a spelling, for every frame within the limits. */
  lemma {:induction false} CanonicalSpells(f: Frame, max: nat, depth: nat)
    requires Shallow(f, depth) && Carriable(f) && |Wire(f)| <= max
    ensures Spells(Canonical(f), f, max, depth)
    decreases f, 1
  {
    match f
    case Integer(v) => PlainIsNumeral(v);
    case NullBulk => PlainIsNumeral(-1);
    case NullArray => PlainIsNumeral(-1);
    case Bulk(p) => PlainIsNumeral(|p|);
    case Array(items) =>
      PlainIsNumeral(|items|);
      CanonicalBytes(f);
      CanonicalAllSpell(items, max, depth + 1);
    case _ =>
  }

  lemma {:induction false} CanonicalAllSpell(items: seq<Frame>, max: nat, depth: nat)
    requires AllShallow(items, depth) && AllCarriable(items) && |WireAll(items)| <= max
    ensures SpellAll(CanonicalAll(items), items, max, depth)
    decreases items, 0
  {
    if items != [] {
      CanonicalSpells(items[0], max, depth);
      CanonicalAllSpell(items[1..], max, depth);
    }
  }

  /** Whatever can be spelt lies within the printer's limits, and no spelling is shorter than the printer's. */
  lemma {:induction false} SpellingSound(sp: Spelling, f: Frame, max: nat, depth: nat)
    requires Spells(sp, f, max, depth)
    ensures Shallow(f, depth) && Carriable(f) && |Wire(f)| <= |Bytes(sp)|
    decreases sp, 1
  {
    match sp
    case SpeltString(_) =>
    case SpeltError(_) =>
    case SpeltArray(digits, sps) =>
      PlainIsShortest(digits, |f.items|);
      SpellingsSound(sps, f.items, max, depth + 1);
    case SpeltInteger(digits) => PlainIsShortest(digits, f.value);
    case SpeltBulk(digits, payload) => PlainIsShortest(digits, |payload|);
    case _ => PlainIsShortest(sp.digits, -1);
  }

  lemma {:induction false} SpellingsSound(sps: seq<Spelling>, fs: seq<Frame>, max: nat, depth: nat)
    requires SpellAll(sps, fs, max, depth)
    ensures AllShallow(fs, depth) && AllCarriable(fs) && |WireAll(fs)| <= |BytesAll(sps)|
    decreases sps, 0
  {
    if sps != [] {
      SpellingSound(sps[0], fs[0], max, depth);
      SpellingsSound(sps[1..], fs[1..], max, depth);
    }
  }
}
