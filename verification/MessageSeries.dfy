/** The ordering tracker of one multi-frame message. */
module MessageSeries {
  import opened Base

  datatype Status = Incomplete | Complete

  datatype SeriesError =
    | KeyMismatch(expectedKey: u64, foundKey: u64)
    | SequenceMismatch(expected: u32, found: u32)
    | SeriesComplete
    | SequenceOverflow(last: u32)
    | MissingFirstFrame(key: u64)
    | DuplicateFrame(key: u64, sequence: u32)
    | MissingSequence(key: u64)
    | BodyLengthMismatch(key: u64, headerLen: nat, actualLen: nat)

  /** `next` is the expected sequence number once `tracked`; it runs out after the top one. */
  datatype Series = Series(key: u64, next: Option<u32>, tracked: bool, complete: bool, expectedTotal: Option<usize>)

  function FromFirstFrame(key: u64, total: Option<usize>, isLast: bool): Series {
    Series(key, None, false, isLast, total)
  }

  /** Move past `incoming`; running out matters only if more frames are due. */
  function AdvanceSequence(s: Series, incoming: u32, isLast: bool): Result<Series, SeriesError> {
    var next := CheckedIncrement(incoming);
    if next.None? && !isLast then Err(SequenceOverflow(incoming)) else Ok(s.(next := next, tracked := true))
  }

  function ValidateSequence(s: Series, incoming: u32, isLast: bool): Result<Series, SeriesError> {
    if !s.tracked then AdvanceSequence(s, incoming, isLast)
    else if s.next.None? then Err(SequenceOverflow(incoming))
    else if incoming < s.next.value then Err(DuplicateFrame(s.key, incoming))
    else if incoming != s.next.value then Err(SequenceMismatch(s.next.value, incoming))
    else AdvanceSequence(s, incoming, isLast)
  }

  /** One continuation header: the advanced series, or an error that leaves it as it was. */
  function AcceptContinuation(s: Series, key: u64, sequence: Option<u32>, isLast: bool)
    : (r: Result<Series, SeriesError>)
    ensures r.Ok? ==> r.value.key == s.key && r.value.expectedTotal == s.expectedTotal && r.value.complete == isLast
  {
    if key != s.key then Err(KeyMismatch(s.key, key))
    else if s.complete then Err(SeriesComplete)
    else
      match sequence
      case Some(incoming) =>
        var advanced :- ValidateSequence(s, incoming, isLast);
        Ok(advanced.(complete := isLast))
      case None =>
        if s.tracked then Err(MissingSequence(s.key)) else Ok(s.(complete := isLast))
  }

  /** The sequence numbers accepted along a list of headers for one key, skipping refusals. */
  function Sequences(s: Series, hs: seq<(Option<u32>, bool)>): seq<u32>
    decreases hs
  {
    if hs == [] then []
    else
      var r := AcceptContinuation(s, s.key, hs[0].0, hs[0].1);
      if r.Err? then Sequences(s, hs[1..])
      else (if hs[0].0.Some? then [hs[0].0.value] else []) + Sequences(r.value, hs[1..])
  }

  predicate Consecutive(q: seq<u32>) {
    forall i :: 0 <= i < |q| ==> q[i] == q[0] as int + i
  }

  /** Once numbered, a message's accepted frames carry consecutive numbers, whatever arrives. */
  lemma {:induction false} SequencesConsecutive(s: Series, hs: seq<(Option<u32>, bool)>)
    ensures var q := Sequences(s, hs);
            && Consecutive(q)
            && (s.tracked && q != [] ==> s.next == Some(q[0]))
            && (s.complete ==> q == [])
    decreases hs
  {
    if hs != [] {
      var r := AcceptContinuation(s, s.key, hs[0].0, hs[0].1);
      var s' := if r.Err? then s else r.value;
      var q, q' := Sequences(s, hs), Sequences(s', hs[1..]);
      SequencesConsecutive(s', hs[1..]);
      if r.Err? || hs[0].0.None? {
        assert q == q';
      } else {
        assert q == [hs[0].0.value] + q';
        assert forall i :: 0 < i < |q| ==> q[i] == q'[i - 1];
      }
    }
  }
}
