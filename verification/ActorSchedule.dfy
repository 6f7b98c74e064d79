/** Whole runs of the actor against a schedule of its producers, up to the end. */
module ActorSchedule {
  import opened Base
  import opened ActorModel
  import opened ActorSystem
  import F = Fairness
  import I = ActorInvariant
  import T = ActorTheorems
  import B = ActorBypass

  /** What happens next: a producer or the canceller does something, or the actor gets a turn. */
  datatype Tick = Offer(step: Step) | Turn(clock: Clock)

  /** A send to a receiver that is gone or closed fails and changes nothing. */
  function Offered(s: System, step: Step, h: Hooks): System {
    if !step.Act? && Possible(s, step) then After(s, step, h) else s
  }

  /** A turn takes the chosen branch; with nothing ready the actor waits. */
  function Turned(s: System, t: Clock, h: Hooks): System {
    if !Running(s.actor) || Choose(s.actor).None? then s
    else
      T.ChoiceIsFirst(s.actor);
      After(s, Act(Choose(s.actor).value, t), h)
  }

  lemma TurnedIs(s: System, t: Clock, h: Hooks)
    ensures Turned(s, t, h).actor
         == if !Running(s.actor) || Choose(s.actor).None? then s.actor
            else (T.ChoiceIsFirst(s.actor); Handle(s.actor, Choose(s.actor).value, h, t))
  {
  }

  function Ticked(s: System, tick: Tick, h: Hooks): System {
    match tick
    case Offer(step) => Offered(s, step, h)
    case Turn(t) => Turned(s, t, h)
  }

  function Play(s: System, ticks: seq<Tick>, h: Hooks): System {
    if ticks == [] then s else Ticked(Play(s, ticks[..|ticks| - 1], h), ticks[|ticks| - 1], h)
  }

  lemma {:induction false} PlayKeeps(s: System, ticks: seq<Tick>, h: Hooks)
    requires Inv(s, h)
    ensures Inv(Play(s, ticks, h), h)
    decreases |ticks|
  {
    if ticks != [] {
      var n := |ticks| - 1;
      PlayKeeps(s, ticks[..n], h);
      TickKeeps(Play(s, ticks[..n], h), ticks[n], h);
    }
  }

  lemma TickKeeps(s: System, tick: Tick, h: Hooks)
    requires Inv(s, h)
    ensures Inv(Ticked(s, tick, h), h)
  {
    match tick
    case Offer(step) =>
      if !step.Act? && Possible(s, step) {
        I.StepKeeps(s, h, step);
      }
    case Turn(t) =>
      if Running(s.actor) && Choose(s.actor).Some? {
        T.ChoiceIsFirst(s.actor);
        I.StepKeeps(s, h, Act(Choose(s.actor).value, t));
      }
  }

  // ---------------------------------------------------------------- after the producers have gone

  /** Every producer is gone. */
  predicate Settled(a: Actor) {
    && (a.high.Some? ==> a.high.value.closed) && (a.low.Some? ==> a.low.value.closed)
    && (a.output.MultiPacket? && a.output.channel.Some? ==> a.output.channel.value.closed)
    && (a.output.Streaming? ==> a.output.ended)
  }

  /** What each departure does, noticed or not. */
  lemma Departures(s: System, h: Hooks)
    ensures Offered(s, DropHigh, h).actor == s.actor.(high := CloseQueue(s.actor.high))
    ensures Offered(s, DropLow, h).actor == s.actor.(low := CloseQueue(s.actor.low))
    ensures Offered(s, DropMulti, h).actor
         == s.actor.(output := if HasMulti(s.actor) then s.actor.output.(channel := CloseQueue(s.actor.output.channel))
                               else s.actor.output)
    ensures Offered(s, EndStream, h).actor
         == s.actor.(output := if s.actor.output.Streaming? then s.actor.output.(ended := true) else s.actor.output)
  {
  }

  /** The schedule, after which every producer goes away. */
  function PlayOut(s: System, ticks: seq<Tick>, h: Hooks): System { Leave(Play(s, ticks, h), h) }

  function Leave(s: System, h: Hooks): System {
    Offered(Offered(Offered(Offered(s, DropHigh, h), DropLow, h), DropMulti, h), EndStream, h)
  }

  lemma LeavingSettles(s: System, h: Hooks)
    requires Inv(s, h)
    ensures Inv(Leave(s, h), h) && Settled(Leave(s, h).actor)
  {
    var a := Offered(s, DropHigh, h);
    var b := Offered(a, DropLow, h);
    var c := Offered(b, DropMulti, h);
    Departures(s, h);
    Departures(a, h);
    Departures(b, h);
    Departures(c, h);
    TickKeeps(s, Offer(DropHigh), h);
    TickKeeps(a, Offer(DropLow), h);
    TickKeeps(b, Offer(DropMulti), h);
    TickKeeps(c, Offer(EndStream), h);
  }

  /** What is left to emit, to close and to cancel. */
  function Remaining(a: Actor): nat {
    T.Work(a) + Gone(a.run.Active?)
    + match a.output
      case NoOutput => 0
      case Streaming(items, _) => |items| + 1 + Gone(!a.failed)
      case MultiPacket(channel, _) => |Held(channel)| + 1
  }

  lemma SettledChooses(s: System, h: Hooks)
    requires Inv(s, h) && Settled(s.actor) && Running(s.actor)
    ensures Choose(s.actor).Some? && !Choose(s.actor).value.OnIdle?
  {
  }

  lemma SettledTurn(s: System, h: Hooks, t: Clock)
    requires Inv(s, h) && Settled(s.actor) && Running(s.actor)
    ensures Choose(s.actor).Some? && Possible(s, Act(Choose(s.actor).value, t))
    ensures var e := After(s, Act(Choose(s.actor).value, t), h);
            && e.actor == Handle(s.actor, Choose(s.actor).value, h, t) && SameSends(s, e)
            && Inv(e, h) && Progresses(s.actor, e.actor)
  {
    SettledChooses(s, h);
    SettledActs(s.actor, Choose(s.actor).value, h, t);
    I.StepKeeps(s, h, Act(Choose(s.actor).value, t));
  }

  /** Nothing has been sent from one state of a run to the other. */
  predicate SameSends(s: System, e: System) {
    e.kind == s.kind && e.sentHigh == s.sentHigh && e.sentLow == s.sentLow
    && e.sentMulti == s.sentMulti && e.sentResponse == s.sentResponse
  }

  /** What a finished run has emitted. */
  predicate Completed(e: System) {
    && From(e.actor.log, High) == e.sentHigh && From(e.actor.log, Low) == e.sentLow
    && (!e.abandoned ==>
          && From(e.actor.log, Multi) == e.sentMulti && From(e.actor.log, Response) == BeforeError(e.sentResponse)
          && e.actor.commandEnds == Gone(!e.kind.Bare?))
  }

  lemma FinishedRun(s: System, h: Hooks)
    requires Inv(s, h) && s.actor.run.Finished?
    ensures Completed(s)
  {
    T.QueuesEmptied(s);
  }

  /** Everything stays settled and there is less left. */
  predicate Progresses(a: Actor, b: Actor) { Settled(b) && Remaining(b) < Remaining(a) }

  lemma SendLowSettles(a: Actor, h: Hooks)
    requires Settled(a) && a.low.Some? && a.low.value.items != []
    ensures Progresses(a, SendLow(a, h))
  {
  }

  lemma CloseQueuesSettles(a: Actor)
    requires Settled(a)
    ensures a.low.Some? && a.low.value.items == [] ==> Progresses(a, CloseLow(a))
    ensures a.high.Some? && a.high.value.items == [] ==> Progresses(a, CloseHigh(a))
  {
  }

  lemma SendMultiSettles(a: Actor, h: Hooks)
    requires Settled(a) && HasMulti(a) && a.output.channel.value.items != []
    ensures Progresses(a, SendMulti(a, h))
  {
  }

  lemma CloseMultiSettles(a: Actor, h: Hooks)
    requires Settled(a) && a.output.MultiPacket?
    ensures Progresses(a, CloseMulti(a, h))
  {
  }

  lemma RespondSettles(a: Actor, h: Hooks)
    requires Settled(a) && !a.failed && a.output.Streaming? && a.output.items != []
    ensures Progresses(a, Respond(a, h))
  {
  }

  lemma EndResponseSettles(a: Actor, h: Hooks)
    requires Settled(a) && a.output.Streaming?
    ensures Progresses(a, EndResponse(a, h))
  {
  }

  lemma TriesSettle(a: Actor, h: Hooks)
    requires Settled(a)
    ensures Settled(TryLow(a, h).0) && Remaining(TryLow(a, h).0) <= Remaining(a)
    ensures Settled(TryMulti(a, h)) && Remaining(TryMulti(a, h)) <= Remaining(a)
  {
    CloseQueuesSettles(a);
    if a.low.Some? && a.low.value.items != [] {
      SendLowSettles(a, h);
    }
    if HasMulti(a) {
      CloseMultiSettles(a, h);
      if a.output.channel.value.items != [] {
        SendMultiSettles(a, h);
      }
    }
  }

  lemma HighSettles(a: Actor, h: Hooks, t: Clock)
    requires Settled(a) && a.high.Some? && a.high.value.items != []
    ensures Progresses(a, AfterHigh(SendHigh(a, h), h, t))
  {
    var sent := SendHigh(a, h);
    var counted := sent.(fairness := F.Record(sent.fairness, t.record));
    assert Progresses(a, counted);
    TriesSettle(counted, h);
    TriesSettle(TryLow(counted, h).0, h);
  }

  lemma ShutdownSettles(a: Actor)
    requires Settled(a) && a.run.Active?
    ensures Progresses(a, Shutdown(a))
  {
  }

  /** With every producer gone, each turn, a cancellation included, leaves strictly less to do. */
  lemma SettledActs(a: Actor, b: Branch, h: Hooks, t: Clock)
    requires Settled(a) && Running(a) && Ready(a, b) && !b.OnIdle?
    ensures Progresses(a, Handle(a, b, h, t))
  {
    CloseQueuesSettles(a);
    match b
    case OnShutdown => ShutdownSettles(a);
    case OnHigh =>
      if a.high.value.items != [] {
        HighSettles(a, h, t);
      }
    case OnLow =>
      if a.low.value.items != [] {
        SendLowSettles(a, h);
      }
    case OnMulti =>
      if HasMulti(a) && a.output.channel.value.items != [] {
        SendMultiSettles(a, h);
      } else {
        CloseMultiSettles(a, h);
      }
    case OnResponse =>
      if a.output.items == [] {
        EndResponseSettles(a, h);
      } else {
        RespondSettles(a, h);
      }
  }

  /** Turns of the actor alone, each taking the chosen branch. */
  ghost predicate Turns(s: System, acts: seq<Step>, h: Hooks) {
    T.Legal(s, acts, h) && B.Biased(s, acts, h) && T.Acts(acts) == |acts|
  }

  lemma {:induction false} OneMoreTurn(s: System, acts: seq<Step>, t: Clock, h: Hooks)
    requires Turns(s, acts, h)
    requires var e := T.AfterAll(s, acts, h).actor;
             Running(e) && Choose(e).Some?
    ensures var e := T.AfterAll(s, acts, h);
            var act := Act(Choose(e.actor).value, t);
            && Possible(e, act) && Turns(s, acts + [act], h)
            && T.AfterAll(s, acts + [act], h) == After(e, act, h)
    decreases acts
  {
    var e := T.AfterAll(s, acts, h);
    var act := Act(Choose(e.actor).value, t);
    T.ChoiceIsFirst(e.actor);
    if acts == [] {
      assert T.Legal(After(s, act, h), [], h) && [act][1..] == [];
    } else {
      T.ActsBounded(acts[1..]);
      OneMoreTurn(After(s, acts[0], h), acts[1..], t, h);
      assert (acts + [act])[1..] == acts[1..] + [act];
    }
  }
}
