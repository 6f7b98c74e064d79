/** What holds at every point of every run of the connection actor. */
module ActorTheorems {
  import opened Base
  import opened ActorModel
  import opened ActorSystem
  import I = ActorInvariant
  import F = Fairness

  // ---------------------------------------------------------------- runs

  predicate Legal(s: System, steps: seq<Step>, h: Hooks)
    decreases steps
  {
    steps != [] ==> Possible(s, steps[0]) && Legal(After(s, steps[0], h), steps[1..], h)
  }

  function AfterAll(s: System, steps: seq<Step>, h: Hooks): System
    requires Legal(s, steps, h)
    decreases steps
  {
    if steps == [] then s else AfterAll(After(s, steps[0], h), steps[1..], h)
  }

  /** An output as the setters leave it: none, a stream, or an installed channel. */
  predicate Settable(o: Output) {
    o.MultiPacket? ==> o.channel.Some? && o.stamp.Enabled? && o == Install(o.channel, o.stamp.correlationId)
  }

  function KindOf(o: Output): Kind
    requires Settable(o)
  {
    match o
    case NoOutput => Bare
    case Streaming(_, _) => WithResponse
    case MultiPacket(_, stamp) => WithMulti(stamp.correlationId)
  }

  /** A run starts with both queues installed; what they already hold counts as sent. */
  function Start(high: Queue, low: Queue, output: Output, config: F.Config): System
    requires Settable(output)
  {
    System(Begin(high, low, output, config), KindOf(output), high.items, low.items,
           if output.MultiPacket? then output.channel.value.items else [],
           if output.Streaming? then output.items else [], false)
  }

  lemma StartHolds(high: Queue, low: Queue, output: Output, config: F.Config, h: Hooks)
    requires Settable(output)
    ensures Inv(Start(high, low, output, config), h)
  {
    assert AsItems([]) == [];
    if output.Streaming? {
      assert [] + output.items == output.items;
    }
  }

  lemma {:induction false} RunKeeps(s: System, steps: seq<Step>, h: Hooks)
    requires Inv(s, h) && Legal(s, steps, h)
    ensures Inv(AfterAll(s, steps, h), h)
    decreases steps
  {
    if steps != [] {
      I.StepKeeps(s, h, steps[0]);
      RunKeeps(After(s, steps[0], h), steps[1..], h);
    }
  }

  /** The state a run has reached. */
  ghost predicate Reached(s: System, h: Hooks) {
    exists high, low, output, config, steps ::
      Settable(output) && Legal(Start(high, low, output, config), steps, h)
      && s == AfterAll(Start(high, low, output, config), steps, h)
  }

  lemma ReachedHolds(s: System, h: Hooks)
    requires Reached(s, h)
    ensures Inv(s, h)
  {
    var high, low, output, config, steps :|
      Settable(output) && Legal(Start(high, low, output, config), steps, h)
      && s == AfterAll(Start(high, low, output, config), steps, h);
    StartHolds(high, low, output, config, h);
    RunKeeps(Start(high, low, output, config), steps, h);
  }

  // ---------------------------------------------------------------- theorems about reached states

  /**
    Source counting: closed sources are one plus the sources gone, the actor is finished exactly
    when both queues and the output are gone, and until then the idle branch cannot be taken.
   */
  lemma SourceCounting(s: System, h: Hooks)
    requires Reached(s, h)
    ensures Counted(s.actor, s.kind)
    ensures s.actor.run.Finished? <==> s.actor.closedSources == s.actor.totalSources
    ensures s.actor.run.Finished? <==> s.actor.high.None? && s.actor.low.None? && s.actor.output.NoOutput?
    ensures Running(s.actor) ==> !Ready(s.actor, OnIdle)
  {
    ReachedHolds(s, h);
  }

  /**
    Conservation: what each source has emitted, with what it still holds, is what it was sent, in
    order and each frame once, except what a shutdown or a stream error gave up; a run that
    finishes without an abandoned output has emitted everything, except that a response stream is
    cut at its first error.
   */
  lemma Conservation(s: System, h: Hooks)
    requires Reached(s, h)
    ensures From(s.actor.log, High) + Held(s.actor.high) == s.sentHigh
    ensures From(s.actor.log, Low) + Held(s.actor.low) == s.sentLow
    ensures MultiConserved(s) && ResponseConserved(s)
    ensures From(s.actor.log, Multi) <= s.sentMulti && AsItems(From(s.actor.log, Response)) <= s.sentResponse
    ensures Ends(s, h)
    ensures s.actor.run.Finished? ==> From(s.actor.log, High) == s.sentHigh && From(s.actor.log, Low) == s.sentLow
    ensures s.actor.run.Finished? && !s.abandoned ==>
              From(s.actor.log, Multi) == s.sentMulti && From(s.actor.log, Response) == BeforeError(s.sentResponse)
  {
    ReachedHolds(s, h);
    MultiPrefix(s);
    ResponsePrefix(s);
    QueuesEmptied(s);
  }

  lemma MultiPrefix(s: System)
    requires MultiConserved(s)
    ensures From(s.actor.log, Multi) <= s.sentMulti
  {
  }

  lemma ResponsePrefix(s: System)
    requires ResponseConserved(s)
    ensures AsItems(From(s.actor.log, Response)) <= s.sentResponse
  {
    I.BeforeErrorPrefix(s.sentResponse);
    var emitted := AsItems(From(s.actor.log, Response));
    if s.actor.output.Streaming? {
      assert emitted + [IoError] + s.actor.output.items == emitted + ([IoError] + s.actor.output.items);
    }
  }

  lemma QueuesEmptied(s: System)
    requires QueuesConserved(s)
    ensures s.actor.high.None? ==> From(s.actor.log, High) == s.sentHigh
    ensures s.actor.low.None? ==> From(s.actor.log, Low) == s.sentLow
  {
    assert From(s.actor.log, High) + [] == From(s.actor.log, High);
    assert From(s.actor.log, Low) + [] == From(s.actor.log, Low);
  }

  /** The hook leaves correlation identifiers alone. */
  ghost predicate LeavesIds(h: Hooks) {
    forall i: nat, f: Frame :: h.beforeSend(i, f).correlationId == f.correlationId
  }

  /**
    Command end and stamping: the command-end hook has fired at most once, and exactly once when
    a multi-packet run has finished; every multi-packet frame, terminator included, went out with
    the installed correlation identifier if the hook leaves identifiers alone.
   */
  lemma CommandEndAndStamping(s: System, h: Hooks)
    requires Reached(s, h)
    ensures s.actor.commandEnds <= 1
    ensures s.kind.WithMulti? && s.actor.run.Finished? ==> s.actor.commandEnds == 1
    ensures s.kind.WithResponse? && s.actor.run.Finished? ==> s.actor.commandEnds == if s.abandoned then 0 else 1
    ensures LeavesIds(h) && s.kind.WithMulti? ==>
              forall i :: 0 <= i < |s.actor.log| && s.actor.log[i].source in {Multi, StreamEnd} ==>
                s.actor.log[i].wire.correlationId == s.kind.correlationId
  {
    ReachedHolds(s, h);
  }

  /** The place of a branch in the select order. */
  function Rank(b: Branch): nat {
    match b
    case OnShutdown => 0
    case OnHigh => 1
    case OnLow => 2
    case OnMulti => 3
    case OnResponse => 4
    case OnIdle => 5
  }

  /** The select order: a branch is chosen exactly when it is ready and none before it is. */
  lemma ChoiceIsFirst(a: Actor)
    ensures forall b :: Choose(a) == Some(b) <==> Ready(a, b) && forall c :: Rank(c) < Rank(b) ==> !Ready(a, c)
    ensures Choose(a) == None <==> forall b :: !Ready(a, b)
  {
    forall b
      ensures Choose(a) == Some(b) <==> Ready(a, b) && forall c :: Rank(c) < Rank(b) ==> !Ready(a, c)
    {
      ChosenIs(a, b);
    }
  }

  lemma ChosenIs(a: Actor, b: Branch)
    ensures Choose(a) == Some(b) <==> Ready(a, b) && forall c :: Rank(c) < Rank(b) ==> !Ready(a, c)
  {
    if forall c :: Rank(c) < Rank(b) ==> !Ready(a, c) {
      assert Rank(OnShutdown) < Rank(OnHigh) < Rank(OnLow) < Rank(OnMulti) < Rank(OnResponse) < Rank(OnIdle);
    }
  }

  /** Nothing to take and nobody gone. */
  predicate OpenAndEmpty(q: Queue) { q.items == [] && !q.closed }

  /** The actor waits exactly when it has not to shut down, and every source it has is open and empty. */
  lemma WaitsExactly(s: System, h: Hooks)
    requires Reached(s, h) && Running(s.actor)
    ensures Choose(s.actor) == None
       <==> && !(s.actor.run.Active? && s.actor.cancelled)
            && (s.actor.high.Some? ==> OpenAndEmpty(s.actor.high.value))
            && (s.actor.low.Some? ==> OpenAndEmpty(s.actor.low.value))
            && match s.actor.output
               case NoOutput => true
               case Streaming(items, ended) => items == [] && !ended
               case MultiPacket(channel, _) => channel.Some? && OpenAndEmpty(channel.value)
  {
    ReachedHolds(s, h);
  }

  /** A cancellation is the next thing an active actor turns to, and nothing else makes it shut down. */
  lemma CancellationFirst(a: Actor)
    ensures Choose(a) == Some(OnShutdown) <==> a.run.Active? && a.cancelled
  {
  }

  // ---------------------------------------------------------------- graceful shutdown

  /** Buffered frames plus queues still open to be closed. */
  function Work(a: Actor): nat {
    (if a.high.Some? then |a.high.value.items| + 1 else 0) + (if a.low.Some? then |a.low.value.items| + 1 else 0)
  }

  function Acts(steps: seq<Step>): nat {
    if steps == [] then 0 else Gone(steps[0].Act?) + Acts(steps[1..])
  }

  lemma {:induction false} ActsBounded(steps: seq<Step>)
    ensures Acts(steps) <= |steps|
  {
    if steps != [] {
      ActsBounded(steps[1..]);
    }
  }

  /** Handling cancellation gives up the output and leaves only the two queues to drain. */
  lemma ShutdownBegins(s: System, h: Hooks, t: Clock)
    requires Inv(s, h) && Possible(s, Act(OnShutdown, t))
    ensures var e := After(s, Act(OnShutdown, t), h);
            && Inv(e, h) && !e.actor.run.Active? && e.actor.output.NoOutput?
            && e.actor.log == s.actor.log && Work(e.actor) == Work(s.actor)
  {
    I.StepKeeps(s, h, Act(OnShutdown, t));
  }

  /** Two states of one run with nothing new from the output's sources. */
  predicate Quiet(a: Actor, b: Actor) {
    && From(b.log, Multi) == From(a.log, Multi)
    && From(b.log, Response) == From(a.log, Response)
    && From(b.log, StreamEnd) == From(a.log, StreamEnd)
  }

  lemma SendHighDrains(a: Actor, h: Hooks)
    requires a.high.Some? && a.high.value.items != []
    ensures var b := SendHigh(a, h); Work(b) + 1 == Work(a) && Quiet(a, b)
  {
    I.FromAppendAll(a.log, SendHigh(a, h).log[|a.log|], SendHigh(a, h).log);
  }

  lemma TryLowDrains(a: Actor, h: Hooks)
    requires a.low.Some? ==> a.low.value.closed
    ensures var b := TryLow(a, h).0;
            Work(b) <= Work(a) && Quiet(a, b) && b.output == a.output && (a.low.Some? ==> Work(b) < Work(a))
  {
    if a.low.Some? && a.low.value.items != [] {
      I.FromAppendAll(a.log, SendLow(a, h).log[|a.log|], SendLow(a, h).log);
    }
  }

  lemma HighDrains(a: Actor, h: Hooks, t: Clock)
    requires a.high.Some? && a.high.value.items != [] && a.output.NoOutput? && (a.low.Some? ==> a.low.value.closed)
    ensures var b := AfterHigh(SendHigh(a, h), h, t); Quiet(a, b) && Work(b) < Work(a)
  {
    SendHighDrains(a, h);
    var c := SendHigh(a, h);
    TryLowDrains(c.(fairness := F.Record(c.fairness, t.record)), h);
  }

  lemma ActDrains(a: Actor, h: Hooks, b: Branch, t: Clock)
    requires a.run.ShuttingDown? && a.output.NoOutput? && Ready(a, b) && !b.OnIdle?
    requires (a.high.Some? ==> a.high.value.closed) && (a.low.Some? ==> a.low.value.closed)
    ensures Quiet(a, Handle(a, b, h, t)) && Work(Handle(a, b, h, t)) < Work(a)
  {
    if b.OnHigh? && a.high.value.items != [] {
      HighDrains(a, h, t);
    } else if b.OnLow? {
      TryLowDrains(a, h);
    }
  }

  /** Shutting down or finished: only the queues can have anything left. */
  predicate Closing(a: Actor) {
    && a.output.NoOutput? && !a.run.Active? && !a.failed
    && (a.run.Finished? <==> a.high.None? && a.low.None?)
    && (a.high.Some? ==> a.high.value.closed) && (a.low.Some? ==> a.low.value.closed)
  }

  lemma InvCloses(s: System, h: Hooks)
    requires Inv(s, h) && !s.actor.run.Active?
    ensures Closing(s.actor) && QueuesConserved(s)
  {
  }

  lemma StepDrains(s: System, step: Step, h: Hooks)
    requires Closing(s.actor) && Possible(s, step)
    ensures var e := After(s, step, h);
            && Quiet(s.actor, e.actor) && !e.actor.run.Active?
            && e.sentHigh == s.sentHigh && e.sentLow == s.sentLow
            && Gone(step.Act?) + Work(e.actor) <= Work(s.actor)
  {
    if step.Act? {
      ActDrains(s.actor, h, step.branch, step.clock);
    }
  }

  lemma {:induction false} RunDrains(s: System, steps: seq<Step>, h: Hooks)
    requires Inv(s, h) && !s.actor.run.Active? && Legal(s, steps, h)
    ensures var e := AfterAll(s, steps, h);
            && Inv(e, h) && Quiet(s.actor, e.actor) && !e.actor.run.Active?
            && e.sentHigh == s.sentHigh && e.sentLow == s.sentLow
            && Acts(steps) + Work(e.actor) <= Work(s.actor)
    decreases steps
  {
    if steps != [] {
      InvCloses(s, h);
      StepDrains(s, steps[0], h);
      I.StepKeeps(s, h, steps[0]);
      RunDrains(After(s, steps[0], h), steps[1..], h);
    }
  }

  /**
    Graceful shutdown: once shutting down, the number of further actor steps is bounded by the
    frames then buffered plus the queues still open; the actor is never left waiting; nothing
    more comes from the response, the channel or the terminator; and when the run finishes every
    frame ever sent to either queue has been emitted.
   */
  lemma {:induction false} GracefulShutdown(s: System, steps: seq<Step>, h: Hooks)
    requires Inv(s, h) && !s.actor.run.Active? && Legal(s, steps, h)
    ensures var e := AfterAll(s, steps, h);
            && Acts(steps) + Work(e.actor) <= Work(s.actor)
            && (e.actor.run.Finished? <==> Work(e.actor) == 0)
            && (!e.actor.run.Finished? ==> Choose(e.actor) == Some(OnHigh) || Choose(e.actor) == Some(OnLow))
            && Quiet(s.actor, e.actor)
            && (e.actor.run.Finished? ==>
                  From(e.actor.log, High) == s.sentHigh && From(e.actor.log, Low) == s.sentLow)
  {
    RunDrains(s, steps, h);
    var e := AfterAll(s, steps, h);
    InvCloses(e, h);
    QueuesEmptied(e);
  }
}
