/** What each turn of the actor puts out, the burst it leaves, and when a burst must yield. */
module ActorEmissions {
  import opened Base
  import opened ActorModel
  import opened ActorSystem
  import I = ActorInvariant
  import T = ActorTheorems
  import F = Fairness

  /** A frame going out, by its source. */
  type Emission = (Source, Frame)

  /** From `a` to `b` exactly `es` has gone out. */
  predicate Emitted(a: Actor, b: Actor, es: seq<Emission>) {
    && |b.log| == |a.log| + |es|
    && (forall i :: 0 <= i < |a.log| ==> b.log[i] == a.log[i])
    && (forall i :: 0 <= i < |es| ==> (b.log[|a.log| + i].source, b.log[|a.log| + i].taken) == es[i])
  }

  // ---------------------------------------------------------------- bursts

  /** When each high frame was recorded that went out since a frame of another source. */
  function BurstAfter(burst: seq<nat>, es: seq<Emission>, now: nat): seq<nat>
    decreases es
  {
    if es == [] then burst else BurstAfter(if es[0].0.High? then burst + [now] else [], es[1..], now)
  }

  /** The policy asks for a yield: the threshold is reached, or the time slice since the burst's first frame is over. */
  predicate Due(config: F.Config, burst: seq<nat>, now: nat) {
    || 0 < config.maxHighBeforeLow <= |burst|
    || (config.timeSlice.Some? && burst != []
        && (config.timeSlice.value == 0 || now >= burst[0] + config.timeSlice.value))
  }

  /** The tracker knows the burst, as long as there is a high queue. */
  predicate Tracks(a: Actor, burst: seq<nat>) {
    a.high.Some? ==>
      a.fairness.highCounter == |burst| && a.fairness.highStart == if burst == [] then None else Some(burst[0])
  }

  /** High frames at the end of a log. */
  function Trailing(log: seq<Sent>): nat {
    if log == [] || !log[|log| - 1].source.High? then 0 else 1 + Trailing(log[..|log| - 1])
  }

  lemma {:induction false} TrailingAppend(log: seq<Sent>, e: Sent)
    ensures Trailing(log + [e]) == if e.source.High? then 1 + Trailing(log) else 0
  {
    assert (log + [e])[..|log|] == log;
  }

  /** The recorded burst is as long as the run of high frames at the end of the log. */
  lemma {:induction false} BurstIsTrailing(a: Actor, b: Actor, es: seq<Emission>, burst: seq<nat>, now: nat)
    requires Emitted(a, b, es) && |burst| == Trailing(a.log)
    ensures |BurstAfter(burst, es, now)| == Trailing(b.log)
    decreases es
  {
    if es == [] {
      assert b.log == a.log;
    } else {
      var e := b.log[|a.log|];
      var mid := a.(log := a.log + [e]);
      TrailingAppend(a.log, e);
      forall i | 0 <= i < |es| - 1
        ensures (b.log[|mid.log| + i].source, b.log[|mid.log| + i].taken) == es[1..][i]
      {
        assert (b.log[|a.log| + (i + 1)].source, b.log[|a.log| + (i + 1)].taken) == es[i + 1];
      }
      BurstIsTrailing(mid, b, es[1..], if es[0].0.High? then burst + [now] else [], now);
    }
  }

  // ---------------------------------------------------------------- a high frame and its yield

  function Ending(h: Hooks): seq<Emission> { if h.streamEnd.Some? then [(StreamEnd, h.streamEnd.value)] else [] }

  /** What a due yield lets out: a low frame; failing that, a channel frame, or the end of a departed channel. */
  function YieldEmits(a: Actor, h: Hooks): seq<Emission> {
    if Held(a.low) != [] then [(Low, Held(a.low)[0])]
    else if !HasMulti(a) then []
    else if Held(a.output.channel) != [] then [(Multi, Held(a.output.channel)[0])]
    else if a.output.channel.value.closed then Ending(h)
    else []
  }

  /** The low queue after a yield: one frame shorter, or gone if it was dry and its senders too. */
  function LowYielded(a: Actor): Option<Queue> {
    if Held(a.low) != [] then Some(a.low.value.(items := a.low.value.items[1..]))
    else if a.low.Some? && a.low.value.closed then None
    else a.low
  }

  /** The output after a yield that found no low frame. */
  function OutputYielded(a: Actor): Output {
    if Held(a.low) != [] || !HasMulti(a) then a.output
    else if Held(a.output.channel) != [] then
      a.output.(channel := Some(a.output.channel.value.(items := a.output.channel.value.items[1..])))
    else if a.output.channel.value.closed then NoOutput
    else a.output
  }

  /** A due yield puts out what it should and ends the burst if that is anything. */
  lemma YieldIs(a: Actor, h: Hooks)
    ensures var (b, drained) := TryLow(a, h);
            var c := if drained then b else TryMulti(b, h);
            && Emitted(a, c, YieldEmits(a, h)) && c.high == a.high
            && c.low == LowYielded(a) && c.output == OutputYielded(a)
            && c.fairness == if YieldEmits(a, h) == [] then a.fairness else F.Reset(a.fairness)
  {
    LowYieldIs(a, h);
    if Held(a.low) == [] {
      MultiYieldIs(TryLow(a, h).0, h);
    }
  }

  lemma LowYieldIs(a: Actor, h: Hooks)
    ensures var (b, drained) := TryLow(a, h);
            && drained == (Held(a.low) != [])
            && b.high == a.high && b.low == LowYielded(a) && b.output == a.output
            && (if drained then Emitted(a, b, [(Low, Held(a.low)[0])]) && b.fairness == F.Reset(a.fairness)
                else b.log == a.log && b.fairness == a.fairness)
  {
  }

  lemma MultiYieldIs(a: Actor, h: Hooks)
    requires Held(a.low) == []
    ensures var c := TryMulti(a, h);
            && Emitted(a, c, YieldEmits(a, h)) && c.high == a.high && c.low == a.low && c.output == OutputYielded(a)
            && c.fairness == if YieldEmits(a, h) == [] then a.fairness else F.Reset(a.fairness)
  {
  }

  /** What a high turn puts out: the frame, and what a due yield lets out after it. */
  function HighEmits(a: Actor, h: Hooks, due: bool): seq<Emission>
    requires Held(a.high) != []
  {
    [(High, Held(a.high)[0])] + if due then YieldEmits(a, h) else []
  }

  /**
    The yield law: after a high frame, something is let out exactly when the threshold is reached by
    the burst or the time slice has run out since its first frame; it is the low queue's turn first,
    and the channel's only if that has nothing; and a queue found dry and departed is given up.
   */
  lemma {:induction false} YieldLaw(a: Actor, h: Hooks, t: Clock, burst: seq<nat>)
    requires Held(a.high) != [] && Tracks(a, burst)
    ensures var b := AfterHigh(SendHigh(a, h), h, t);
            var due := Due(a.fairness.config, burst + [t.record], t.check);
            && Emitted(a, b, HighEmits(a, h, due))
            && b.high == Some(a.high.value.(items := a.high.value.items[1..]))
            && b.low == (if due then LowYielded(a) else a.low)
            && b.output == (if due then OutputYielded(a) else a.output)
            && Tracks(b, BurstAfter(burst, HighEmits(a, h, due), t.record))
            && b.fairness.config == a.fairness.config
  {
    var sent := SendHigh(a, h);
    var counted := sent.(fairness := F.Record(sent.fairness, t.record));
    var due := Due(a.fairness.config, burst + [t.record], t.check);
    assert F.ShouldYield(counted.fairness, t.check) == due;
    YieldIs(counted, h);
    HighBurst(burst, (High, Held(a.high)[0]), if due then YieldEmits(a, h) else [], t.record);
  }

  lemma {:induction false} HighBurst(burst: seq<nat>, e: Emission, more: seq<Emission>, now: nat)
    requires e.0.High? && (more == [] || (|more| == 1 && !more[0].0.High?))
    ensures BurstAfter(burst, [e] + more, now) == if more == [] then burst + [now] else []
  {
    assert ([e] + more)[1..] == more;
    if more != [] {
      assert BurstAfter(burst + [now], more, now) == BurstAfter([], more[1..], now);
    } else {
      assert [e] + more == [e];
    }
  }

  // ---------------------------------------------------------------- every turn

  /** What a turn puts out, given the burst so far. */
  function TurnEmits(a: Actor, b: Branch, h: Hooks, t: Clock, burst: seq<nat>): seq<Emission>
    requires Ready(a, b)
  {
    match b
    case OnHigh =>
      if Held(a.high) != [] then HighEmits(a, h, Due(a.fairness.config, burst + [t.record], t.check)) else []
    case OnLow => if Held(a.low) != [] then [(Low, Held(a.low)[0])] else []
    case OnMulti =>
      if HasMulti(a) && Held(a.output.channel) != [] then [(Multi, Held(a.output.channel)[0])] else Ending(h)
    case OnResponse =>
      if a.output.items == [] then Ending(h)
      else if a.output.items[0].Item? then [(Response, a.output.items[0].frame)]
      else []
    case _ => []
  }

  /** Every turn puts out exactly that, and the tracker keeps knowing the burst. */
  lemma {:induction false} TurnLaw(a: Actor, b: Branch, h: Hooks, t: Clock, burst: seq<nat>)
    requires Ready(a, b) && Tracks(a, burst)
    ensures var c, es := Handle(a, b, h, t), TurnEmits(a, b, h, t, burst);
            Emitted(a, c, es) && Tracks(c, BurstAfter(burst, es, t.record))
  {
    if b.OnHigh? && Held(a.high) != [] {
      YieldLaw(a, h, t, burst);
    } else {
      OtherTurn(a, b, h, t, burst);
    }
  }

  lemma {:induction false} OtherTurn(a: Actor, b: Branch, h: Hooks, t: Clock, burst: seq<nat>)
    requires Ready(a, b) && Tracks(a, burst) && !(b.OnHigh? && Held(a.high) != [])
    ensures var c, es := Handle(a, b, h, t), TurnEmits(a, b, h, t, burst);
            Emitted(a, c, es) && Tracks(c, BurstAfter(burst, es, t.record))
  {
    var es := TurnEmits(a, b, h, t, burst);
    match b {
      case OnLow => LowTurn(a, h);
      case OnMulti => MultiTurn(a, h);
      case OnResponse => ResponseTurn(a, h);
      case _ =>
    }
    if es != [] {
      OtherBurst(burst, es, t.record);
    }
  }

  lemma {:induction false} OtherBurst(burst: seq<nat>, es: seq<Emission>, now: nat)
    requires |es| == 1 && !es[0].0.High?
    ensures BurstAfter(burst, es, now) == []
  {
    assert BurstAfter(burst, es, now) == BurstAfter([], es[1..], now);
  }

  /** The frame that leaves ends the burst; a queue or an output that is given up without one does not. */
  predicate Leaves(a: Actor, c: Actor, es: seq<Emission>) {
    && Emitted(a, c, es) && |es| <= 1 && c.high == a.high
    && c.fairness == if es == [] then a.fairness else F.Reset(a.fairness)
  }

  lemma LowTurn(a: Actor, h: Hooks)
    requires a.low.Some?
    ensures if Held(a.low) != [] then Leaves(a, SendLow(a, h), [(Low, Held(a.low)[0])]) else Leaves(a, CloseLow(a), [])
  {
  }

  lemma MultiTurn(a: Actor, h: Hooks)
    requires a.output.MultiPacket?
    ensures if HasMulti(a) && Held(a.output.channel) != []
            then Leaves(a, SendMulti(a, h), [(Multi, Held(a.output.channel)[0])])
            else Leaves(a, CloseMulti(a, h), Ending(h))
  {
  }

  lemma ResponseTurn(a: Actor, h: Hooks)
    requires a.output.Streaming?
    ensures a.output.items == [] ==> Leaves(a, EndResponse(a, h), Ending(h))
    ensures a.output.items != [] && a.output.items[0].Item? ==>
              Leaves(a, Respond(a, h), [(Response, a.output.items[0].frame)])
    ensures a.output.items != [] && !a.output.items[0].Item? ==> Leaves(a, Respond(a, h), [])
  {
  }

  // ---------------------------------------------------------------- runs

  /** What has been added to a log. */
  function Growth(before: seq<Sent>, log: seq<Sent>): seq<Emission> {
    if |log| < |before| then []
    else seq(|log| - |before|, i requires 0 <= i < |log| - |before| =>
               (log[|before| + i].source, log[|before| + i].taken))
  }

  /** What a step of a run has put out. */
  function StepEmits(s: System, step: Step, h: Hooks): seq<Emission>
    requires Possible(s, step)
  {
    Growth(s.actor.log, After(s, step, h).actor.log)
  }

  /** The burst at the end of a run. */
  function BurstOf(s: System, steps: seq<Step>, h: Hooks, burst: seq<nat>): seq<nat>
    requires T.Legal(s, steps, h)
    decreases steps
  {
    if steps == [] then burst
    else
      var now := if steps[0].Act? then steps[0].clock.record else 0;
      BurstOf(After(s, steps[0], h), steps[1..], h, BurstAfter(burst, StepEmits(s, steps[0], h), now))
  }

  lemma EmitsAre(a: Actor, b: Actor, es: seq<Emission>)
    requires Emitted(a, b, es)
    ensures Growth(a.log, b.log) == es
  {
  }

  lemma StepTracks(s: System, step: Step, h: Hooks, burst: seq<nat>)
    requires Possible(s, step) && Tracks(s.actor, burst) && |burst| == Trailing(s.actor.log)
    ensures var e := After(s, step, h);
            var burst' := BurstAfter(burst, StepEmits(s, step, h), if step.Act? then step.clock.record else 0);
            Tracks(e.actor, burst') && |burst'| == Trailing(e.actor.log)
  {
    var e := After(s, step, h);
    if step.Act? {
      var es := TurnEmits(s.actor, step.branch, h, step.clock, burst);
      TurnLaw(s.actor, step.branch, h, step.clock, burst);
      EmitsAre(s.actor, e.actor, es);
      BurstIsTrailing(s.actor, e.actor, es, burst, step.clock.record);
    } else {
      assert e.actor.log == s.actor.log;
    }
  }

  lemma {:induction false} RunTracks(s: System, steps: seq<Step>, h: Hooks, burst: seq<nat>)
    requires T.Legal(s, steps, h) && Tracks(s.actor, burst) && |burst| == Trailing(s.actor.log)
    ensures var e, burst' := T.AfterAll(s, steps, h), BurstOf(s, steps, h, burst);
            Tracks(e.actor, burst') && |burst'| == Trailing(e.actor.log)
    decreases steps
  {
    if steps != [] {
      StepTracks(s, steps[0], h, burst);
      var now := if steps[0].Act? then steps[0].clock.record else 0;
      RunTracks(After(s, steps[0], h), steps[1..], h, BurstAfter(burst, StepEmits(s, steps[0], h), now));
    }
  }

  /**
    In every run from the start the tracker counts exactly the high frames at the end of the log and
    knows when the first of them was recorded, as long as the high queue is there.
   */
  lemma {:induction false} BurstLaw(high: Queue, low: Queue, output: Output, config: F.Config,
                                    steps: seq<Step>, h: Hooks)
    requires T.Settable(output) && T.Legal(T.Start(high, low, output, config), steps, h)
    ensures var s := T.Start(high, low, output, config);
            var e, burst := T.AfterAll(s, steps, h), BurstOf(s, steps, h, []);
            && |burst| == Trailing(e.actor.log)
            && Tracks(e.actor, burst)
            && (e.actor.high.Some? ==> e.actor.fairness.highCounter == Trailing(e.actor.log))
  {
    RunTracks(T.Start(high, low, output, config), steps, h, []);
  }

  /**
    Yields neither early nor late: with a threshold k and no time slice, a turn that emits a high
    frame lets something else out exactly if k > 0 and this is at least the k-th high frame in a row.
   */
  lemma YieldsOnCount(s: System, h: Hooks, t: Clock, burst: seq<nat>)
    requires Tracks(s.actor, burst) && |burst| == Trailing(s.actor.log) && Possible(s, Act(OnHigh, t))
    requires Held(s.actor.high) != [] && s.actor.fairness.config.timeSlice.None?
    ensures StepEmits(s, Act(OnHigh, t), h)
         == HighEmits(s.actor, h, 0 < s.actor.fairness.config.maxHighBeforeLow <= Trailing(s.actor.log) + 1)
  {
    YieldLaw(s.actor, h, t, burst);
    EmitsAre(s.actor, After(s, Act(OnHigh, t), h).actor,
             HighEmits(s.actor, h, Due(s.actor.fairness.config, burst + [t.record], t.check)));
  }

  // ---------------------------------------------------------------- the terminator comes last

  /** After a terminator nothing more comes from the output. */
  predicate TerminatorLast(log: seq<Sent>) {
    forall i, j :: 0 <= i < j < |log| && log[i].source.StreamEnd? ==> log[j].source.High? || log[j].source.Low?
  }

  lemma {:induction false} NoneFrom(log: seq<Sent>, i: nat, source: Source)
    requires From(log, source) == [] && i < |log|
    ensures log[i].source != source
    decreases |log|
  {
    if i < |log| - 1 {
      NoneFrom(log[..|log| - 1], i, source);
    }
  }

  lemma TurnTerminates(s: System, b: Branch, t: Clock, h: Hooks, burst: seq<nat>)
    requires Inv(s, h) && Tracks(s.actor, burst) && Possible(s, Act(b, t)) && TerminatorLast(s.actor.log)
    ensures TerminatorLast(After(s, Act(b, t), h).actor.log)
  {
    var a, c := s.actor, Handle(s.actor, b, h, t);
    var es := TurnEmits(a, b, h, t, burst);
    TurnLaw(a, b, h, t, burst);
    forall i, j | 0 <= i < j < |c.log| && c.log[i].source.StreamEnd?
      ensures c.log[j].source.High? || c.log[j].source.Low?
    {
      if i < |a.log| {
        assert From(a.log, StreamEnd) != [] by {
          if From(a.log, StreamEnd) == [] {
            NoneFrom(a.log, i, StreamEnd);
          }
        }
        assert a.output.NoOutput?;
        if j >= |a.log| {
          QuietTurn(a, b, h, t, burst);
          assert (c.log[j].source, c.log[j].taken) == es[j - |a.log|];
        }
      } else {
        assert (c.log[i].source, c.log[i].taken) == es[i - |a.log|];
        EndingLast(a, b, h, t, burst, i - |a.log|, j - |a.log|);
        assert false;
      }
    }
  }

  /** With the output gone, only the queues put anything out. */
  lemma QuietTurn(a: Actor, b: Branch, h: Hooks, t: Clock, burst: seq<nat>)
    requires a.output.NoOutput? && Ready(a, b)
    ensures forall e :: e in TurnEmits(a, b, h, t, burst) ==> e.0.High? || e.0.Low?
  {
  }

  /** A terminator is the last thing a turn puts out. */
  lemma EndingLast(a: Actor, b: Branch, h: Hooks, t: Clock, burst: seq<nat>, i: nat, j: nat)
    requires Ready(a, b) && i < j < |TurnEmits(a, b, h, t, burst)|
    ensures !TurnEmits(a, b, h, t, burst)[i].0.StreamEnd?
  {
  }

  lemma {:induction false} RunTerminates(s: System, steps: seq<Step>, h: Hooks, burst: seq<nat>)
    requires Inv(s, h) && T.Legal(s, steps, h) && TerminatorLast(s.actor.log)
    requires Tracks(s.actor, burst) && |burst| == Trailing(s.actor.log)
    ensures TerminatorLast(T.AfterAll(s, steps, h).actor.log)
    decreases steps
  {
    if steps != [] {
      var step := steps[0];
      StepTracks(s, step, h, burst);
      I.StepKeeps(s, h, step);
      if step.Act? {
        TurnTerminates(s, step.branch, step.clock, h, burst);
      }
      var now := if step.Act? then step.clock.record else 0;
      RunTerminates(After(s, step, h), steps[1..], h, BurstAfter(burst, StepEmits(s, step, h), now));
    }
  }

  /**
    The terminator: in every reached state it has gone out, once, exactly if the output has come to
    its end by itself and there is one, and nothing of the output comes after it.
   */
  lemma TerminatorLaw(s: System, h: Hooks)
    requires T.Reached(s, h)
    ensures From(s.actor.log, StreamEnd) == if RanOut(s) && h.streamEnd.Some? then [h.streamEnd.value] else []
    ensures TerminatorLast(s.actor.log)
    ensures s.kind.WithMulti? ==> (RanOut(s) <==> s.actor.output.NoOutput? && !s.abandoned)
  {
    T.ReachedHolds(s, h);
    var high, low, output, config, steps :|
      T.Settable(output) && T.Legal(T.Start(high, low, output, config), steps, h)
      && s == T.AfterAll(T.Start(high, low, output, config), steps, h);
    T.StartHolds(high, low, output, config, h);
    RunTerminates(T.Start(high, low, output, config), steps, h, []);
  }
}
