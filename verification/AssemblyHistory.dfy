/** The assembler as a function of what arrived: its state, its outcomes, and what it dispatches. */
module AssemblyHistory {
  import opened Base
  import opened Assembly
  import opened AssemblyTheorems
  import opened KeyedRuns
  import S = MessageSeries

  /** What an accepted first frame began, the bodies and numbers accepted since, and when it began. */
  datatype Saga = Saga(
    routing: Routing,
    metadata: bytes,
    body: bytes,
    total: Option<usize>,
    numbers: seq<u32>,
    since: nat)

  /** An assembly lasts until the timeout; the outcomes of its key's frames tell how it goes on. */
  function Telling(c: Config): Telling<Saga, Frame, Outcome> {
    KeyedRuns.Telling((t: Saga, now: nat) => c.timeout > 0 && now < t.since + c.timeout,
                      (kept: Option<Saga>, f: Frame, now: nat, out: Outcome) => Next(kept, f, now, out))
  }

  /** An accepted frame begins or extends the story, a dispatch ends it, and so does a refusal that is not harmless. */
  function Next(kept: Option<Saga>, f: Frame, now: nat, out: Outcome): Option<Saga> {
    match out
    case Ok(Some(_)) => None
    case Err(e) => if Harmless(f, e) then kept else None
    case Ok(None) =>
      if f.First? then Some(Saga(f.routing, f.metadata, f.body, f.total, [], now))
      else if kept.None? then None
      else Some(kept.value.(body := kept.value.body + f.body, numbers := kept.value.numbers + Numbers(f)))
  }

  function Numbers(f: Frame): seq<u32>
    requires f.Continuation?
  {
    if f.sequence.Some? then [f.sequence.value] else []
  }

  // ---------------------------------------------------------------- the outcomes

  function Capped(n: nat): nat { if n > USIZE_MAX then USIZE_MAX else n }

  /** A budget that `total` buffered bytes would pass. */
  function BudgetError(c: Config, key: u64, total: nat): Option<AssemblyError> {
    if c.connection.Some? && Capped(total) > c.connection.value then Some(ConnectionBudgetExceeded(key, Capped(total)))
    else if c.inFlight.Some? && Capped(total) > c.inFlight.value then Some(InFlightBudgetExceeded(key, Capped(total)))
    else None
  }

  /** What is wrong with a frame's number, after the numbers accepted so far. */
  function NumberError(key: u64, numbers: seq<u32>, sequence: Option<u32>, isLast: bool): Option<S.SeriesError> {
    if sequence.None? then (if numbers == [] then None else Some(S.MissingSequence(key)))
    else
      var n := sequence.value;
      if numbers != [] && n <= numbers[|numbers| - 1] then Some(S.DuplicateFrame(key, n))
      else if numbers != [] && n > numbers[|numbers| - 1] + 1 then
        Some(S.SequenceMismatch(numbers[|numbers| - 1] + 1, n))
      else if n == U32_MAX && !isLast then Some(S.SequenceOverflow(n))
      else None
  }

  /** The outcome of a first frame when `buffered` bytes are held in all. */
  function FirstOutcome(c: Config, buffered: nat, kept: Option<Saga>, f: Frame): Outcome
    requires f.First?
  {
    var committed := Capped((if f.total.Some? then f.total.value else |f.body|) + |f.metadata|);
    var budget := BudgetError(c, f.key, buffered + Capped(|f.body| + |f.metadata|));
    if kept.Some? then Err(DuplicateFirstFrame(f.key))
    else if f.total.Some? && f.total.value < |f.body| then Err(DeclaredTotalTooSmall(f.key, f.total.value, |f.body|))
    else if f.isLast && f.total.Some? && f.total.value != |f.body| then
      Err(DeclaredTotalMismatch(f.key, f.total.value, |f.body|))
    else if committed > c.maxMessageSize then Err(MessageTooLarge(f.key, committed))
    else if f.isLast then Ok(Some(Message(f.key, f.routing, f.metadata, f.body)))
    else if budget.Some? then Err(budget.value)
    else Ok(None)
  }

  /** The outcome of a continuation. */
  function ContinuationOutcome(c: Config, buffered: nat, kept: Option<Saga>, f: Frame): Outcome
    requires f.Continuation?
  {
    if f.bodyLen != |f.body| then Err(Continuity(S.BodyLengthMismatch(f.key, f.bodyLen, |f.body|)))
    else if kept.None? then Err(Continuity(S.MissingFirstFrame(f.key)))
    else
      var t := kept.value;
      var size := |t.body| + |f.body|;
      var number := NumberError(f.key, t.numbers, f.sequence, f.isLast);
      var refusal := Admission(c, buffered, t, f);
      if number.Some? then Err(Continuity(number.value))
      else if refusal.Some? then Err(refusal.value)
      else if !f.isLast then Ok(None)
      else if t.total.Some? && size != t.total.value then Err(DeclaredTotalMismatch(f.key, t.total.value, size))
      else Ok(Some(Message(f.key, t.routing, t.metadata, t.body + f.body)))
  }

  /** What keeps a continuation's body from being added. */
  function Admission(c: Config, buffered: nat, t: Saga, f: Frame): Option<AssemblyError>
    requires f.Continuation?
  {
    var size := |t.body| + |f.body|;
    var budget := BudgetError(c, f.key, buffered + |f.body|);
    if size > c.maxMessageSize then Some(MessageTooLarge(f.key, Capped(size)))
    else if budget.Some? then budget
    else if t.total.Some? && size > t.total.value then Some(DeclaredTotalExceeded(f.key, t.total.value, size))
    else None
  }

  function Due(c: Config, buffered: nat, kept: Option<Saga>, f: Frame): Outcome {
    if f.First? then FirstOutcome(c, buffered, kept, f) else ContinuationOutcome(c, buffered, kept, f)
  }

  // ---------------------------------------------------------------- the state

  /** Consecutive numbers with room for another. */
  predicate InSequence(numbers: seq<u32>) {
    S.Consecutive(numbers) && (numbers != [] ==> numbers[|numbers| - 1] < U32_MAX)
  }

  function Series(key: u64, t: Saga): S.Series
    requires InSequence(t.numbers)
  {
    if t.numbers == [] then S.Series(key, None, false, false, t.total)
    else S.Series(key, Some(t.numbers[|t.numbers| - 1] + 1), true, false, t.total)
  }

  /** An entry holds what its story says. */
  ghost predicate Matches(key: u64, p: Option<Partial>, t: Option<Saga>) {
    match t
    case None => p == None
    case Some(saga) =>
      InSequence(saga.numbers)
      && p == Some(Partial(Series(key, saga), saga.routing, saga.metadata, saga.body, saga.since))
  }

  lemma LiveIsKept(c: Config, m: Partials, now: nat, key: u64, t: Option<Saga>)
    requires Matches(key, Slot(m, key), t)
    ensures Matches(key, Slot(Live(c, m, now), key), Kept(Telling(c), t, now))
  {
  }

  lemma BudgetsAre(c: Config, key: u64, buffered: nat, additional: nat)
    ensures match BudgetError(c, key, buffered + additional)
            case Some(e) => CheckBudgets(c, key, buffered, additional) == Err(e)
            case None => CheckBudgets(c, key, buffered, additional) == Ok(())
  {
  }

  lemma FirstFollows(c: Config, live: Partials, f: Frame, now: nat, kept: Option<Saga>)
    requires f.First? && Matches(f.key, Slot(live, f.key), kept)
    ensures AcceptFirst(c, live, f, now).1 == FirstOutcome(c, Total(live), kept, f)
    ensures var (m', out) := AcceptFirst(c, live, f, now); Matches(f.key, Slot(m', f.key), Next(kept, f, now, out))
  {
    BudgetsAre(c, f.key, Total(live), SaturatingAdd(|f.body|, |f.metadata|));
  }

  /** The tracker's answer, by the numbers accepted so far. */
  lemma SeriesFollows(key: u64, t: Saga, sequence: Option<u32>, isLast: bool)
    requires InSequence(t.numbers)
    ensures var r := S.AcceptContinuation(Series(key, t), key, sequence, isLast);
            match NumberError(key, t.numbers, sequence, isLast)
            case Some(e) => r == Err(e)
            case None =>
              var numbers := t.numbers + if sequence.Some? then [sequence.value] else [];
              && r.Ok?
              && (!isLast ==> InSequence(numbers) && r.value == Series(key, t.(numbers := numbers)))
  {
    if sequence.Some? {
      var numbers := t.numbers + [sequence.value];
      assert forall i :: 0 <= i < |t.numbers| ==> numbers[i] == t.numbers[i];
    } else {
      assert t.numbers + [] == t.numbers;
    }
  }

  /** A continuation's outcome and the new entry are what the story says. */
  ghost predicate Follows(c: Config, live: Partials, f: Frame, now: nat, kept: Option<Saga>)
    requires f.Continuation?
  {
    var (m', out) := AcceptContinuation(c, live, f);
    out == ContinuationOutcome(c, Total(live), kept, f) && Matches(f.key, Slot(m', f.key), Next(kept, f, now, out))
  }

  lemma ContinuationFollows(c: Config, live: Partials, f: Frame, now: nat, kept: Option<Saga>)
    requires f.Continuation? && Matches(f.key, Slot(live, f.key), kept)
    ensures Follows(c, live, f, now, kept)
  {
    if kept.Some? && f.bodyLen == |f.body| {
      SeriesFollows(f.key, kept.value, f.sequence, f.isLast);
      if NumberError(f.key, kept.value.numbers, f.sequence, f.isLast).Some? {
        MisnumberedFollows(c, live, f, now, kept.value);
      } else {
        NumberedFollows(c, live, f, now, kept.value);
      }
    }
  }

  lemma MisnumberedFollows(c: Config, live: Partials, f: Frame, now: nat, t: Saga)
    requires f.Continuation? && f.key in live && Matches(f.key, Some(live[f.key]), Some(t)) && f.bodyLen == |f.body|
    requires NumberError(f.key, t.numbers, f.sequence, f.isLast).Some?
    requires S.AcceptContinuation(live[f.key].series, f.key, f.sequence, f.isLast)
          == Err(NumberError(f.key, t.numbers, f.sequence, f.isLast).value)
    ensures Follows(c, live, f, now, Some(t))
  {
  }

  lemma NumberedFollows(c: Config, live: Partials, f: Frame, now: nat, t: Saga)
    requires f.Continuation? && f.key in live && Matches(f.key, Some(live[f.key]), Some(t)) && f.bodyLen == |f.body|
    requires NumberError(f.key, t.numbers, f.sequence, f.isLast).None?
    requires var r := S.AcceptContinuation(live[f.key].series, f.key, f.sequence, f.isLast);
             && r.Ok? && r.value.key == f.key && r.value.expectedTotal == t.total
             && (!f.isLast ==> InSequence(t.numbers + Numbers(f))
                               && r.value == Series(f.key, t.(numbers := t.numbers + Numbers(f))))
    ensures Follows(c, live, f, now, Some(t))
  {
    AdmitFollows(c, live, f, t, S.AcceptContinuation(live[f.key].series, f.key, f.sequence, f.isLast).value);
  }

  /** The size, budget and total checks after the number has passed. */
  lemma AdmitFollows(c: Config, live: Partials, f: Frame, t: Saga, series: S.Series)
    requires f.Continuation? && f.key in live && Matches(f.key, Some(live[f.key]), Some(t))
    requires series.key == f.key && series.expectedTotal == t.total
    ensures var r := Admit(c, live[f.key].(series := series), |f.body|, if BudgetsEnabled(c) then Total(live) else 0);
            match Admission(c, Total(live), t, f)
            case Some(e) => r == Err(e)
            case None => r == Ok(())
  {
    BudgetsAre(c, f.key, Total(live), |f.body|);
  }

  /** One frame: the outcome and the new entry are what the story says. */
  lemma AcceptFollows(c: Config, m: Partials, f: Frame, now: nat, t: Option<Saga>)
    requires Matches(f.key, Slot(m, f.key), t)
    ensures var (m', out) := Accept(c, m, f, now);
            var kept := Kept(Telling(c), t, now);
            && out == Due(c, Total(Live(c, m, now)), kept, f)
            && Matches(f.key, Slot(m', f.key), Next(kept, f, now, out))
  {
    var live := Live(c, m, now);
    LiveIsKept(c, m, now, f.key, t);
    if f.First? {
      FirstFollows(c, live, f, now, Kept(Telling(c), t, now));
    } else {
      ContinuationFollows(c, live, f, now, Kept(Telling(c), t, now));
    }
  }

  lemma AssemblerTells(c: Config, m: Partials, e: Event<Frame>, key: u64, t: Option<Saga>)
    ensures TellsAt(Assembler(c), Telling(c), KeyOf, Matches, m, e, key, t)
  {
    if Matches(key, Slot(m, key), t) {
      if e.frame.key == key {
        AcceptFollows(c, m, e.frame, e.now, t);
      } else {
        OtherKeysUntouched(c, m, e.frame, e.now, key);
        LiveIsKept(c, m, e.now, key, t);
      }
    }
  }

  /** The story of a key after a run. */
  ghost function StoryOf(c: Config, events: seq<Event<Frame>>, key: u64): Option<Saga> {
    Story(Telling(c), KeyOf, events, Run(Assembler(c), events).1, key)
  }

  /** After every run, each assembly is what the frames and their outcomes say. */
  lemma {:induction false} StateIsHistory(c: Config, events: seq<Event<Frame>>, key: u64)
    ensures Matches(key, Slot(Run(Assembler(c), events).0, key), StoryOf(c, events, key))
  {
    forall m: Partials, e: Event<Frame>, t: Option<Saga>
      ensures TellsAt(Assembler(c), Telling(c), KeyOf, Matches, m, e, key, t)
    {
      AssemblerTells(c, m, e, key, t);
    }
    StoryHolds(Assembler(c), Telling(c), KeyOf, Matches, events, key);
  }

  /**
    Every outcome, in every run, follows from the key's own story and from how much is buffered:
    a first frame is refused while an assembly of its key is kept, a continuation without one, out
    of sequence, or past a limit, a budget or the declared total likewise.
   */
  lemma {:induction false} OutcomesByHistory(c: Config, events: seq<Event<Frame>>, f: Frame, now: nat)
    ensures var m := Run(Assembler(c), events).0;
            Accept(c, m, f, now).1
            == Due(c, Total(Live(c, m, now)), Kept(Telling(c), StoryOf(c, events, f.key), now), f)
  {
    StateIsHistory(c, events, f.key);
    AcceptFollows(c, Run(Assembler(c), events).0, f, now, StoryOf(c, events, f.key));
  }

  // ---------------------------------------------------------------- what is dispatched

  /** The message a dispatch must be: the frame's own contents, or the story so far and the frame's body. */
  predicate Rightly(kept: Option<Saga>, f: Frame, msg: Message) {
    msg.key == f.key
    && if f.First? then kept.None? && msg.routing == f.routing && msg.metadata == f.metadata && msg.body == f.body
                        && (f.total.Some? ==> |msg.body| == f.total.value)
       else kept.Some? && msg.routing == kept.value.routing && msg.metadata == kept.value.metadata
            && msg.body == kept.value.body + f.body
            && S.Consecutive(kept.value.numbers + Numbers(f))
            && (kept.value.total.Some? ==> |msg.body| == kept.value.total.value)
  }

  /**
    Assembly correctness over every run: a dispatched message has the first frame's routing and
    metadata, its body is the first body followed by exactly the continuation bodies accepted in
    order since, their numbers are consecutive, and its length is the declared total whenever one
    was declared.
   */
  lemma {:induction false} AssemblyCorrect(c: Config, events: seq<Event<Frame>>, f: Frame, now: nat)
    requires var r := Accept(c, Run(Assembler(c), events).0, f, now).1; r.Ok? && r.value.Some?
    ensures Rightly(Kept(Telling(c), StoryOf(c, events, f.key), now), f,
                    Accept(c, Run(Assembler(c), events).0, f, now).1.value.value)
  {
    OutcomesByHistory(c, events, f, now);
    StateIsHistory(c, events, f.key);
    var kept := Kept(Telling(c), StoryOf(c, events, f.key), now);
    if f.Continuation? && f.sequence.Some? {
      var numbers := kept.value.numbers;
      assert forall i :: 0 <= i < |numbers| ==> (numbers + Numbers(f))[i] == numbers[i];
    } else if f.Continuation? {
      assert kept.value.numbers + Numbers(f) == kept.value.numbers;
    }
  }

  /** A first frame for an assembly in progress is refused and changes nothing beyond the timeout purge. */
  lemma DuplicateFirstKeeps(c: Config, m: Partials, f: Frame, now: nat)
    requires f.First? && f.key in Live(c, m, now)
    ensures Accept(c, m, f, now) == (Live(c, m, now), Err(DuplicateFirstFrame(f.key)))
  {
  }

  /** The event at `n` ended the story told up to it: by its time, by a dispatch, or by an evicting refusal. */
  ghost predicate EndsAt(c: Config, events: seq<Event<Frame>>, key: u64, n: nat)
    requires n < |events|
  {
    var e, out := events[n], Run(Assembler(c), events).1[n];
    var story := StoryOf(c, events[..n], key);
    story.Some?
    && (|| !Telling(c).lasts(story.value, e.now)
        || (e.frame.key == key && if out.Err? then !Harmless(e.frame, out.error) else out.value.Some?))
  }

  /**
    Between two accepted first frames of one key the first assembly has ended: it had expired at the
    second frame, or at some event in between it expired, was dispatched, or was evicted.
   */
  lemma {:induction false} FirstsAreApart(c: Config, events: seq<Event<Frame>>, i: nat, f: Frame, now: nat)
    requires i < |events| && events[i].frame.First? && events[i].frame.key == f.key && f.First?
    requires Run(Assembler(c), events).1[i] == Ok(None) && Accept(c, Run(Assembler(c), events).0, f, now).1.Ok?
    ensures var story := StoryOf(c, events, f.key);
            || (story.Some? && !Telling(c).lasts(story.value, now))
            || exists n :: i < n < |events| && EndsAt(c, events, f.key, n)
  {
    OutcomesByHistory(c, events, f, now);
    var outs := Run(Assembler(c), events).1;
    RunPrefix(Assembler(c), events, i + 1);
    RunPrefix(Assembler(c), events, i);
    assert events[..i + 1][..i] == events[..i] && outs[..i + 1][..i] == outs[..i];
    assert Story(Telling(c), KeyOf, events[..i + 1], outs[..i + 1], f.key).Some?;
    var n := StoryEnds(Telling(c), KeyOf, events, outs, f.key, i + 1, now);
    RunPrefix(Assembler(c), events, n);
    if n == |events| {
      assert events[..n] == events && outs[..n] == outs;
    } else {
      assert EndsAt(c, events, f.key, n);
    }
  }
}
