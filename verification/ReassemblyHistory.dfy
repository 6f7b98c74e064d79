/** The reassembler as a function of what arrived: its state, its answers, and what it delivers. */
module ReassemblyHistory {
  import opened Base
  import opened FragmentWire
  import opened Fragmenter
  import opened KeyedRuns
  import opened ReassemblyRuns
  import R = Reassembler
  import S = FragmentSeries

  /** The fragments of a message taken since it was started, and when that was. */
  datatype Tale = Tale(taken: seq<FragmentFrame>, since: nat)

  function Bodies(fs: seq<FragmentFrame>): (bs: seq<bytes>)
    ensures |bs| == |fs|
  {
    seq(|fs|, i requires 0 <= i < |fs| => fs[i].payload)
  }

  /** A fragment whose number has been taken already. */
  predicate Repeats(kept: Option<Tale>, f: FragmentFrame) {
    kept.Some? && f.header.index < |kept.value.taken|
  }

  /** A message lasts until the timeout; what its fragments were answered tells how it goes on. */
  function Telling(l: R.Limits): Telling<Tale, FragmentFrame, R.Outcome> {
    KeyedRuns.Telling((t: Tale, now: nat) => l.timeout > 0 && now < t.since + l.timeout,
                      (kept: Option<Tale>, f: FragmentFrame, now: nat, out: R.Outcome) => Next(kept, f, now, out))
  }

  /** An answer without a message keeps the fragment, unless it repeats one; any other answer ends the story. */
  function Next(kept: Option<Tale>, f: FragmentFrame, now: nat, out: R.Outcome): Option<Tale> {
    if out != Ok(None) then None
    else if kept.None? then Some(Tale([f], now))
    else if Repeats(kept, f) then kept
    else Some(kept.value.(taken := kept.value.taken + [f]))
  }

  // ---------------------------------------------------------------- the answers

  /** The answer by the message's own story. */
  function Verdict(l: R.Limits, kept: Option<Tale>, f: FragmentFrame): R.Outcome {
    var id, index := f.header.messageId, f.header.index;
    var taken := if kept.Some? then kept.value.taken else [];
    var size := |Concat(Bodies(taken + [f]))|;
    if index < |taken| then Ok(None)
    else if index > |taken| then Err(R.Fragment(S.IndexMismatch(|taken|, index)))
    else if index == U32_MAX && !f.header.isLast then Err(R.Fragment(S.IndexOverflow(index)))
    else if size > l.maxMessageSize then
      Err(R.MessageTooLarge(id, if taken != [] && size > USIZE_MAX then USIZE_MAX else size))
    else if f.header.isLast then Ok(Some(R.Message(id, Concat(Bodies(taken + [f])))))
    else Ok(None)
  }

  /** The answer in company: a fragment that would have to be held needs room among what is live. */
  ghost function Answer(l: R.Limits, live: R.Partials, kept: Option<Tale>, f: FragmentFrame): R.Outcome {
    var v := Verdict(l, kept, f);
    var total := R.Total(live) + |f.payload|;
    if v.Err? || Repeats(kept, f) || (kept.None? && f.header.isLast) then v
    else if kept.None? && l.maxPartials.Some? && |live| >= l.maxPartials.value then
      Err(R.TooManyConcurrentPartials(|live| + 1))
    else if total > USIZE_MAX then Err(R.AggregateBufferCapExceeded(USIZE_MAX))
    else if l.maxBuffered.Some? && total > l.maxBuffered.value then Err(R.AggregateBufferCapExceeded(total))
    else v
  }

  // ---------------------------------------------------------------- the state

  /** The fragments of `id` from its first on, none of them a last one. */
  predicate FromFirst(taken: seq<FragmentFrame>, id: u64) {
    |taken| <= U32_MAX && forall i :: 0 <= i < |taken| ==> taken[i].header == FragmentHeader(id, i, false)
  }

  /** An entry holds what its story says: the number of fragments, their bytes in order, and the start. */
  ghost predicate Matches(id: u64, p: Option<R.Partial>, t: Option<Tale>) {
    match t
    case None => p == None
    case Some(tale) =>
      && tale.taken != [] && FromFirst(tale.taken, id)
      && p == Some(R.Partial(S.Series(id, |tale.taken|, false), Concat(Bodies(tale.taken)), tale.since))
  }

  lemma OneMoreBody(taken: seq<FragmentFrame>, f: FragmentFrame)
    ensures Concat(Bodies(taken + [f])) == Concat(Bodies(taken)) + f.payload
  {
    assert Bodies(taken + [f]) == Bodies(taken) + [f.payload];
    ConcatAppend(Bodies(taken), f.payload);
  }

  /** What has not expired is what the story still keeps. */
  lemma LiveIsKept(l: R.Limits, m: R.Partials, now: nat, id: u64, t: Option<Tale>)
    requires Matches(id, Slot(m, id), t)
    ensures Matches(id, Slot(R.Live(l, m, now), id), Kept(Telling(l), t, now))
  {
  }

  lemma FirstAnswers(l: R.Limits, live: R.Partials, f: FragmentFrame, now: nat)
    requires f.header.messageId !in live
    ensures R.PushFirst(l, live, f.header, f.payload, now).1 == Answer(l, live, None, f)
    ensures var (m', out) := R.PushFirst(l, live, f.header, f.payload, now);
            var id := f.header.messageId;
            Matches(id, Slot(m', id), Next(None, f, now, out))
  {
    OneMoreBody([], f);
    assert Bodies([]) == [] && [] + f.payload == f.payload && [] + [f] == [f];
  }

  lemma ExistingAnswers(l: R.Limits, live: R.Partials, f: FragmentFrame, now: nat, tale: Tale)
    requires f.header.messageId in live
    requires Matches(f.header.messageId, Some(live[f.header.messageId]), Some(tale))
    ensures var (m', out) := R.PushExisting(l, live, f.header, f.payload);
            var id := f.header.messageId;
            && out == Answer(l, live, Some(tale), f)
            && Matches(id, Slot(m', id), Next(Some(tale), f, now, out))
  {
    OneMoreBody(tale.taken, f);
  }

  /** One fragment of a message: the answer and the new entry are what the story says. */
  lemma PushAnswers(l: R.Limits, m: R.Partials, f: FragmentFrame, now: nat, t: Option<Tale>)
    requires Matches(IdOf(f), Slot(m, IdOf(f)), t)
    ensures var (m', out) := R.Push(l, m, f.header, f.payload, now);
            var kept := Kept(Telling(l), t, now);
            && out == Answer(l, R.Live(l, m, now), kept, f)
            && Matches(IdOf(f), Slot(m', IdOf(f)), Next(kept, f, now, out))
  {
    var live := R.Live(l, m, now);
    LiveIsKept(l, m, now, IdOf(f), t);
    if IdOf(f) in live {
      ExistingAnswers(l, live, f, now, Kept(Telling(l), t, now).value);
    } else {
      FirstAnswers(l, live, f, now);
    }
  }

  lemma MachineTells(l: R.Limits, m: R.Partials, e: Event<FragmentFrame>, id: u64, t: Option<Tale>)
    ensures TellsAt(Machine(l), Telling(l), IdOf, Matches, m, e, id, t)
  {
    if Matches(id, Slot(m, id), t) {
      if IdOf(e.frame) == id {
        PushAnswers(l, m, e.frame, e.now, t);
      } else {
        OthersUntouched(l, m, e.frame, e.now, id);
        LiveIsKept(l, m, e.now, id, t);
        SlotOnly(m, R.Live(l, m, e.now), Machine(l)(m, e.frame, e.now).0, l, id, e.now);
      }
    }
  }

  lemma SlotOnly(m: R.Partials, live: R.Partials, m': R.Partials, l: R.Limits, id: u64, now: nat)
    requires live == R.Live(l, m, now) && Only(m', id) == R.Live(l, Only(m, id), now)
    ensures Slot(m', id) == Slot(live, id)
  {
    assert Slot(m', id) == Slot(Only(m', id), id);
    assert Slot(R.Live(l, Only(m, id), now), id) == Slot(live, id);
  }

  /** After every run, each message in progress is what the arrivals and their answers say. */
  lemma StateIsHistory(l: R.Limits, events: seq<Event<FragmentFrame>>, id: u64)
    ensures var (m, outs) := Run(Machine(l), events);
            Matches(id, Slot(m, id), Story(Telling(l), IdOf, events, outs, id))
  {
    forall m: R.Partials, e: Event<FragmentFrame>, t: Option<Tale>
      ensures TellsAt(Machine(l), Telling(l), IdOf, Matches, m, e, id, t)
    {
      MachineTells(l, m, e, id, t);
    }
    StoryHolds(Machine(l), Telling(l), IdOf, Matches, events, id);
  }

  /**
    Every answer, in every run, follows from the message's own story and from how full the
    reassembler is: a repetition is ignored, a gap or a message that does not start at its first
    fragment is refused, and so is whatever would pass a limit.
   */
  lemma {:induction false} AnswersByHistory(l: R.Limits, events: seq<Event<FragmentFrame>>, f: FragmentFrame, now: nat)
    ensures var (m, outs) := Run(Machine(l), events);
            Machine(l)(m, f, now).1
            == Answer(l, R.Live(l, m, now), Kept(Telling(l), Story(Telling(l), IdOf, events, outs, IdOf(f)), now), f)
  {
    StateIsHistory(l, events, IdOf(f));
    var (m, outs) := Run(Machine(l), events);
    PushAnswers(l, m, f, now, Story(Telling(l), IdOf, events, outs, IdOf(f)));
  }

  /** The fragments `fs` are a whole message: numbered from zero on, and the last one is the only last one. */
  predicate WholeMessage(fs: seq<FragmentFrame>, id: u64) {
    && |fs| > 0
    && forall i :: 0 <= i < |fs| ==>
         fs[i].header.messageId == id && fs[i].header.index == i && (fs[i].header.isLast <==> i == |fs| - 1)
  }

  /**
    Reassembly correctness over every run: a delivered message consists of fragments numbered from
    zero without gaps, taken since the message was last started and in time, the last of them and
    no other marked last, and its payload is their bodies in order.
   */
  lemma {:induction false} ReassemblyCorrect(l: R.Limits, events: seq<Event<FragmentFrame>>, f: FragmentFrame, now: nat)
    requires var r := Machine(l)(Run(Machine(l), events).0, f, now).1; r.Ok? && r.value.Some?
    ensures var (m, outs) := Run(Machine(l), events);
            var kept := Kept(Telling(l), Story(Telling(l), IdOf, events, outs, IdOf(f)), now);
            var fs := (if kept.Some? then kept.value.taken else []) + [f];
            WholeMessage(fs, IdOf(f))
            && Machine(l)(m, f, now).1.value.value == R.Message(IdOf(f), Concat(Bodies(fs)))
  {
    StateIsHistory(l, events, IdOf(f));
    AnswersByHistory(l, events, f, now);
  }
}
