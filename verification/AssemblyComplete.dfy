/** Well-formed messages are assembled, however their frames are interleaved with others. */
module AssemblyComplete {
  import opened Base
  import opened Assembly
  import opened AssemblyTheorems
  import opened KeyedRuns
  import S = MessageSeries

  /** A message as its sender means it: the bodies of its frames and when each one arrives. */
  datatype Script = Script(
    key: u64,
    routing: Routing,
    metadata: vec,
    bodies: seq<vec>,
    declared: bool,
    numbered: Option<u32>,
    times: seq<nat>)

  function Whole(x: Script): bytes { Concat(x.bodies) }

  /** What frames can express: a total within `usize`, and continuation numbers up to the top `u32`. */
  predicate Sendable(x: Script) {
    && |x.bodies| >= 1 && |x.times| == |x.bodies|
    && (x.declared ==> |Whole(x)| <= USIZE_MAX)
    && (x.numbered.Some? ==> x.numbered.value + |x.bodies| - 2 <= U32_MAX)
  }

  /** The first frame is still fresh when frame `i` arrives. */
  predicate InTime(x: Script, c: Config, i: nat)
    requires Sendable(x) && i < |x.bodies|
  {
    (if x.times[i] < x.times[0] then 0 else x.times[i] - x.times[0]) < c.timeout
  }

  /** The first `n` frames are in time and within the size limits that apply to them. */
  predicate FitsTo(x: Script, c: Config, n: nat)
    requires Sendable(x) && n <= |x.bodies|
  {
    n > 0 ==>
      && SaturatingAdd(if x.declared then |Whole(x)| else |x.bodies[0]|, |x.metadata|) <= c.maxMessageSize
      && |Concat(x.bodies[..n])| <= c.maxMessageSize
      && forall i :: 0 < i < n ==> InTime(x, c, i)
  }

  /**
    Every continuation arrives in time, the body is within the limit, and so is the metadata with
    the declared total, or with the first body when nothing is declared.
   */
  predicate Fits(x: Script, c: Config)
    requires Sendable(x)
  {
    && SaturatingAdd(if x.declared then |Whole(x)| else |x.bodies[0]|, |x.metadata|) <= c.maxMessageSize
    && |Whole(x)| <= c.maxMessageSize
    && forall i :: 0 < i < |x.bodies| ==> InTime(x, c, i)
  }

  function Declared(x: Script): Option<usize>
    requires Sendable(x)
  {
    if x.declared then Some(|Whole(x)|) else None
  }

  /** Frame `i` of the message: the first frame, or the continuation numbered from the start. */
  function FrameOf(x: Script, i: nat): Frame
    requires Sendable(x) && i < |x.bodies|
  {
    if i == 0 then First(x.key, x.routing, x.metadata, x.bodies[0], Declared(x), |x.bodies| == 1)
    else Continuation(x.key, if x.numbered.Some? then Some(x.numbered.value + i - 1) else None,
                      |x.bodies[i]|, i == |x.bodies| - 1, x.bodies[i])
  }

  function Events(x: Script): (es: seq<Event<Frame>>)
    requires Sendable(x)
    ensures |es| == |x.bodies|
  {
    seq(|x.bodies|, i requires 0 <= i < |x.bodies| => Event(FrameOf(x, i), x.times[i]))
  }

  /** The series after frame `i - 1`. */
  function SeriesAt(x: Script, i: nat): S.Series
    requires Sendable(x) && 0 < i < |x.bodies|
  {
    if x.numbered.Some? && i > 1 then S.Series(x.key, Some(x.numbered.value + i - 1), true, false, Declared(x))
    else S.Series(x.key, None, false, false, Declared(x))
  }

  /** The assembly after the first `i` frames. */
  function PartialAt(x: Script, i: nat): Partial
    requires Sendable(x) && 0 < i < |x.bodies|
  {
    Partial(SeriesAt(x, i), x.routing, x.metadata, Concat(x.bodies[..i]), x.times[0])
  }

  /** The outcome of frame `i` of a message that is assembled: the message with its last frame. */
  function ExpectedAt(x: Script, i: nat): Outcome {
    if i + 1 < |x.bodies| then Ok(None) else Ok(Some(Message(x.key, x.routing, x.metadata, Whole(x))))
  }

  function Expected(x: Script): seq<Outcome> { Outcomes((i: nat) => ExpectedAt(x, i), |x.bodies|) }

  /** The body after one more frame. */
  lemma NextBody(x: Script, i: nat)
    requires i < |x.bodies|
    ensures Concat(x.bodies[..i]) + x.bodies[i] == Concat(x.bodies[..i + 1])
    ensures |Concat(x.bodies[..i + 1])| <= |Whole(x)|
    ensures i + 1 == |x.bodies| ==> Concat(x.bodies[..i + 1]) == Whole(x)
  {
    assert x.bodies[..i] + [x.bodies[i]] == x.bodies[..i + 1];
    ConcatAppend(x.bodies[..i], x.bodies[i]);
    ConcatPrefix(x.bodies, i + 1);
    assert i + 1 == |x.bodies| ==> x.bodies[..i + 1] == x.bodies;
  }

  /** The first frame is accepted exactly when it fits. */
  lemma FirstStep(x: Script, c: Config)
    requires Sendable(x) && !BudgetsEnabled(c)
    ensures var (m, out) := Accept(c, map[], FrameOf(x, 0), x.times[0]);
            && (out == ExpectedAt(x, 0) <==> FitsTo(x, c, 1))
            && (FitsTo(x, c, 1) && |x.bodies| > 1 ==> m == map[x.key := PartialAt(x, 1)])
  {
    NextBody(x, 0);
    assert x.bodies[..0] == [] && [] + x.bodies[0] == x.bodies[0];
  }

  lemma SeriesStep(x: Script, i: nat)
    requires Sendable(x) && 0 < i < |x.bodies|
    ensures var f := FrameOf(x, i);
            var r := S.AcceptContinuation(SeriesAt(x, i), x.key, f.sequence, f.isLast);
            r.Ok? && r.value.expectedTotal == Declared(x) && r.value.key == x.key
            && (i + 1 < |x.bodies| ==> r.value == SeriesAt(x, i + 1))
  {
  }

  /** A later frame is accepted exactly when it is in time and the body so far fits. */
  lemma NextStep(x: Script, c: Config, i: nat)
    requires Sendable(x) && !BudgetsEnabled(c) && 0 < i < |x.bodies| && FitsTo(x, c, i)
    ensures var (m, out) := Accept(c, map[x.key := PartialAt(x, i)], FrameOf(x, i), x.times[i]);
            && (out == ExpectedAt(x, i) <==> FitsTo(x, c, i + 1))
            && (FitsTo(x, c, i + 1) && i + 1 < |x.bodies| ==> m == map[x.key := PartialAt(x, i + 1)])
  {
    NextBody(x, i);
    SeriesStep(x, i);
    var m := map[x.key := PartialAt(x, i)];
    if InTime(x, c, i) {
      assert Live(c, m, x.times[i]) == m;
    } else {
      assert Live(c, m, x.times[i]) == map[];
    }
  }

  lemma FitsLess(x: Script, c: Config, i: nat)
    requires Sendable(x) && i < |x.bodies| && FitsTo(x, c, i + 1)
    ensures FitsTo(x, c, i)
  {
    NextBody(x, i);
  }

  /** How a message's frames fare alone. */
  ghost function SoloPlan(x: Script, c: Config): Plan<Partial, Outcome>
    requires Sendable(x)
  {
    Plan((i: nat) => if 0 < i < |x.bodies| then map[x.key := PartialAt(x, i)] else map[],
         (i: nat) => ExpectedAt(x, i),
         (i: nat) => i <= |x.bodies| && FitsTo(x, c, i))
  }

  lemma SoloRun(x: Script, c: Config)
    requires Sendable(x) && !BudgetsEnabled(c)
    ensures Run(Assembler(c), Events(x)).1 == Expected(x) <==> FitsTo(x, c, |x.bodies|)
  {
    var plan, n := SoloPlan(x, c), |x.bodies|;
    forall i | 0 <= i < n
      ensures FollowsPlan(Assembler(c), Events(x), plan, i)
    {
      SoloStep(x, c, i);
    }
    RunsToPlan(Assembler(c), Events(x), plan, n);
    assert Events(x)[..n] == Events(x);
  }

  lemma SoloStep(x: Script, c: Config, i: nat)
    requires Sendable(x) && !BudgetsEnabled(c) && i < |x.bodies|
    ensures FollowsPlan(Assembler(c), Events(x), SoloPlan(x, c), i)
  {
    if FitsTo(x, c, i + 1) {
      FitsLess(x, c, i);
    }
    if FitsTo(x, c, i) {
      if i == 0 {
        FirstStep(x, c);
      } else {
        NextStep(x, c, i);
      }
    }
  }

  lemma FitsWhole(x: Script, c: Config)
    requires Sendable(x)
    ensures FitsTo(x, Unbudgeted(c), |x.bodies|) <==> Fits(x, c)
  {
    assert x.bodies[..|x.bodies|] == x.bodies;
    assert forall i :: 0 < i < |x.bodies| ==> (InTime(x, Unbudgeted(c), i) <==> InTime(x, c, i));
  }

  /**
    Delivery, exactly: when the frames of one key, in whatever traffic of other keys, are those of
    a message, the message is dispatched whole with its last frame and nothing is reported before,
    if and only if it fits and no aggregate budget refused one of its frames.
   */
  lemma {:induction false} DeliveredExactly(x: Script, c: Config, events: seq<Event<Frame>>)
    requires Sendable(x) && Ordered(events)
    requires For(KeyOf, events, x.key) == Events(x)
    ensures var outs := OutcomesFor(KeyOf, events, Run(Assembler(c), events).1, x.key);
            outs == Expected(x) <==> Fits(x, c) && Unrefused(BudgetRefusal, outs)
  {
    NonInterference(c, events, x.key);
    SoloRun(x, Unbudgeted(c));
    FitsWhole(x, c);
    assert Unrefused(BudgetRefusal, Expected(x));
  }

  /** Without aggregate budgets, or within them, fitting is all that a message needs. */
  lemma {:induction false} FittingIsDelivered(x: Script, c: Config, events: seq<Event<Frame>>)
    requires Sendable(x) && Fits(x, c) && Ordered(events)
    requires For(KeyOf, events, x.key) == Events(x)
    requires c.connection.Some? ==> CarriedBy(events) <= c.connection.value
    requires c.inFlight.Some? ==> CarriedBy(events) <= c.inFlight.value
    ensures OutcomesFor(KeyOf, events, Run(Assembler(c), events).1, x.key) == Expected(x)
  {
    RunCarries(c, events);
    Selected(KeyOf, BudgetRefusal, events, Run(Assembler(c), events).1, x.key);
    DeliveredExactly(x, c, events);
  }
}
