/** The ordering tracker of one fragmented message. */
module FragmentSeries {
  import opened Base
  import opened FragmentWire

  datatype Status = Incomplete | Duplicate | Complete

  datatype SeriesError =
    | MessageMismatch(expectedId: u64, foundId: u64)
    | IndexMismatch(expected: u32, found: u32)
    | SeriesComplete
    | IndexOverflow(last: u32)

  datatype Series = Series(messageId: u64, nextIndex: u32, complete: bool)

  function NewSeries(id: u64): Series { Series(id, 0, false) }

  /** One accept call: the new state and the answer. */
  function Accept(s: Series, h: FragmentHeader): (Series, Result<Status, SeriesError>) {
    if h.messageId != s.messageId then (s, Err(MessageMismatch(s.messageId, h.messageId)))
    else if h.index < s.nextIndex then (s, Ok(Duplicate))
    else if s.complete then (s, Err(SeriesComplete))
    else if h.index > s.nextIndex then (s, Err(IndexMismatch(s.nextIndex, h.index)))
    else Advance(s, h)
  }

  /** A fragment at the expected index; a last fragment at the top index leaves it in place. */
  function Advance(s: Series, h: FragmentHeader): (Series, Result<Status, SeriesError>) {
    match CheckedIncrement(h.index)
    case Some(next) =>
      (s.(nextIndex := next, complete := s.complete || h.isLast), Ok(if h.isLast then Complete else Incomplete))
    case None =>
      if h.isLast then (s.(complete := true), Ok(Complete)) else (s, Err(IndexOverflow(h.index)))
  }

  class Tracker {
    var messageId: u64
    var nextIndex: u32
    var complete: bool

    ghost function State(): Series
      reads this
    {
      Series(messageId, nextIndex, complete)
    }

    constructor (id: u64)
      ensures State() == NewSeries(id)
    {
      messageId := id;
      nextIndex := 0;
      complete := false;
    }

    method AdvanceAccepted(h: FragmentHeader) returns (r: Result<bool, SeriesError>)
      modifies this
      ensures State() == Advance(old(State()), h).0
      ensures match Advance(old(State()), h).1
              case Ok(status) => r == Ok(status == Complete)
              case Err(e) => r == Err(e)
    {
      var next := CheckedIncrement(h.index);
      if h.isLast {
        complete := true;
        if next.Some? {
          nextIndex := next.value;
        }
        return Ok(true);
      }
      if next.None? {
        return Err(IndexOverflow(h.index));
      }
      nextIndex := next.value;
      return Ok(false);
    }

    method AcceptNext(h: FragmentHeader) returns (r: Result<Status, SeriesError>)
      modifies this
      ensures (State(), r) == Accept(old(State()), h)
    {
      if h.messageId != messageId {
        return Err(MessageMismatch(messageId, h.messageId));
      }
      if h.index < nextIndex {
        return Ok(Duplicate);
      }
      if complete {
        return Err(SeriesComplete);
      }
      if h.index > nextIndex {
        return Err(IndexMismatch(nextIndex, h.index));
      }
      var done :- AdvanceAccepted(h);
      return Ok(if done then Complete else Incomplete);
    }
  }

  // ---------------------------------------------------------------- whole runs

  function Taken(r: Result<Status, SeriesError>): bool { r.Ok? && !r.value.Duplicate? }

  /** The answers to a sequence of accept calls. */
  function Answers(s: Series, hs: seq<FragmentHeader>): (rs: seq<Result<Status, SeriesError>>)
    ensures |rs| == |hs|
    decreases hs
  {
    if hs == [] then [] else [Accept(s, hs[0]).1] + Answers(Accept(s, hs[0]).0, hs[1..])
  }

  function After(s: Series, hs: seq<FragmentHeader>): Series
    decreases hs
  {
    if hs == [] then s else After(Accept(s, hs[0]).0, hs[1..])
  }

  /** The headers that were taken, in order. */
  function TakenOf(s: Series, hs: seq<FragmentHeader>): seq<FragmentHeader>
    decreases hs
  {
    if hs == [] then []
    else
      var (s', r) := Accept(s, hs[0]);
      if Taken(r) then [hs[0]] + TakenOf(s', hs[1..]) else TakenOf(s', hs[1..])
  }

  /** An error or a duplicate changes nothing. */
  lemma RefusalKeepsState(s: Series, h: FragmentHeader)
    ensures !Taken(Accept(s, h).1) ==> Accept(s, h).0 == s
  {
  }

  lemma {:induction false} NothingAfterComplete(s: Series, hs: seq<FragmentHeader>)
    requires s.complete
    ensures TakenOf(s, hs) == [] && After(s, hs) == s
  {
    if hs != [] {
      NothingAfterComplete(s, hs[1..]);
    }
  }

  /** Fragments of one message numbered consecutively from `first`, none but the final one a last one. */
  predicate InTurn(t: seq<FragmentHeader>, id: u64, first: nat) {
    forall i :: 0 <= i < |t| ==>
      t[i].messageId == id && t[i].index == first + i && (i < |t| - 1 ==> !t[i].isLast)
  }

  lemma InTurnCons(h: FragmentHeader, t: seq<FragmentHeader>, id: u64, first: nat)
    requires h.messageId == id && h.index == first && InTurn(t, id, first + 1) && (t != [] ==> !h.isLast)
    ensures InTurn([h] + t, id, first)
  {
  }

  /**
    From any unfinished state, whatever headers arrive: the taken fragments carry the series'
    identifier and consecutive indices from the expected one on, only the last of them can be a
    last fragment, and the series is complete exactly when it is.
   */
  lemma {:induction false} TakenInOrder(s: Series, hs: seq<FragmentHeader>)
    requires !s.complete
    ensures var t := TakenOf(s, hs);
            && InTurn(t, s.messageId, s.nextIndex)
            && (After(s, hs).complete <==> t != [] && t[|t| - 1].isLast)
            && (!After(s, hs).complete ==> After(s, hs).nextIndex == s.nextIndex + |t|)
    decreases hs
  {
    if hs != [] {
      var (s', r) := Accept(s, hs[0]);
      var t' := TakenOf(s', hs[1..]);
      if s'.complete {
        NothingAfterComplete(s', hs[1..]);
        InTurnCons(hs[0], [], s.messageId, s.nextIndex);
      } else {
        TakenInOrder(s', hs[1..]);
        if Taken(r) {
          InTurnCons(hs[0], t', s.messageId, s.nextIndex);
        }
      }
    }
  }

  /** How often `Complete` was answered. */
  function Completions(rs: seq<Result<Status, SeriesError>>): nat {
    if rs == [] then 0 else (if rs[0] == Ok(Complete) then 1 else 0) + Completions(rs[1..])
  }

  lemma {:induction false} CompletesOnce(s: Series, hs: seq<FragmentHeader>)
    ensures Completions(Answers(s, hs)) == if After(s, hs).complete && !s.complete then 1 else 0
    decreases hs
  {
    if hs != [] {
      var s' := Accept(s, hs[0]).0;
      CompletesOnce(s', hs[1..]);
      if s'.complete {
        NothingAfterComplete(s', hs[1..]);
      }
      assert Answers(s, hs)[1..] == Answers(s', hs[1..]);
    }
  }

  /**
    Series order: over any sequence of accept calls on a fresh series the taken fragments are
    numbered 0, 1, 2, … without gaps, nothing is taken after a last fragment, and `Complete` is
    answered once if a last fragment was taken and never otherwise.
   */
  lemma {:induction false} SeriesOrder(id: u64, hs: seq<FragmentHeader>)
    ensures var t := TakenOf(NewSeries(id), hs);
            && InTurn(t, id, 0)
            && Completions(Answers(NewSeries(id), hs)) == if t != [] && t[|t| - 1].isLast then 1 else 0
  {
    TakenInOrder(NewSeries(id), hs);
    CompletesOnce(NewSeries(id), hs);
  }

  /** At the top index only a last fragment can be taken; any other is an overflow. */
  lemma TopIndex(s: Series, h: FragmentHeader)
    requires !s.complete && s.nextIndex == U32_MAX && h.messageId == s.messageId && h.index == U32_MAX
    ensures Accept(s, h) == if h.isLast then (s.(complete := true), Ok(Complete)) else (s, Err(IndexOverflow(U32_MAX)))
  {
  }

  /** The answer to one more header after `taken` fragments, the last of them a last one if `complete`. */
  function Due(id: u64, taken: nat, complete: bool, h: FragmentHeader): Result<Status, SeriesError>
    requires taken <= 0x1_0000_0000 && (taken == 0x1_0000_0000 ==> complete)
  {
    if h.messageId != id then Err(MessageMismatch(id, h.messageId))
    else if h.index < taken && !(complete && h.index == U32_MAX) then Ok(Duplicate)
    else if complete then Err(SeriesComplete)
    else if h.index > taken then Err(IndexMismatch(taken, h.index))
    else if h.isLast then Ok(Complete)
    else if h.index == U32_MAX then Err(IndexOverflow(U32_MAX))
    else Ok(Incomplete)
  }

  /**
    Every answer follows from how many fragments have been taken: a repetition of one of them is a
    duplicate, a gap is a mismatch, and after a last fragment nothing more is taken. The one
    exception is a last fragment at the top index, whose repetition is reported as complete.
   */
  lemma {:induction false} AnswersByCount(id: u64, hs: seq<FragmentHeader>, h: FragmentHeader)
    ensures var s, t := After(NewSeries(id), hs), TakenOf(NewSeries(id), hs);
            && |t| <= 0x1_0000_0000 && (|t| == 0x1_0000_0000 ==> s.complete)
            && Accept(s, h).1 == Due(id, |t|, s.complete, h)
  {
    TakenInOrder(NewSeries(id), hs);
    Position(NewSeries(id), hs);
  }

  /** Where a series stands after any calls. */
  lemma {:induction false} Position(s: Series, hs: seq<FragmentHeader>)
    requires !s.complete
    ensures var e, t := After(s, hs), TakenOf(s, hs);
            && e.messageId == s.messageId
            && e.nextIndex == (if e.complete && s.nextIndex + |t| > U32_MAX then U32_MAX else s.nextIndex + |t|)
            && s.nextIndex + |t| <= 0x1_0000_0000 && (s.nextIndex + |t| == 0x1_0000_0000 ==> e.complete)
    decreases hs
  {
    if hs != [] {
      var s' := Accept(s, hs[0]).0;
      if s'.complete {
        NothingAfterComplete(s', hs[1..]);
      } else {
        Position(s', hs[1..]);
      }
    }
  }
}
