/** The connection actor as an object whose handlers update it event by event. */
module ConnectionActor {
  import opened Base
  import opened ActorModel
  import opened ActorSystem
  import F = Fairness
  import T = ActorTheorems
  import opened ActorSchedule

  datatype ConnectionStateError = MultiPacketActive | ResponseActive

  /** Lifecycle phase and source counts. */
  class ActorState {
    var run: RunState
    var closedSources: nat
    var totalSources: nat

    constructor (hasResponse: bool, hasMultiPacket: bool)
      ensures run == Active && closedSources == 1
      ensures totalSources == 3 + Gone(hasResponse) + Gone(hasMultiPacket)
    {
      run := Active;
      closedSources := 1;
      totalSources := 3 + (if hasResponse then 1 else 0) + (if hasMultiPacket then 1 else 0);
    }

    method CountClosed()
      modifies this
      ensures closedSources == old(closedSources) + 1 && totalSources == old(totalSources)
      ensures run == if closedSources >= totalSources then Finished else old(run)
    {
      closedSources := closedSources + 1;
      if closedSources >= totalSources {
        run := Finished;
      }
    }

    method StartShutdown()
      modifies this
      ensures closedSources == old(closedSources) && totalSources == old(totalSources)
      ensures run == if old(run).Active? then ShuttingDown else old(run)
    {
      if run.Active? {
        run := ShuttingDown;
      }
    }
  }

  class ConnectionActor {
    const hooks: Hooks
    const fairness: F.FairnessTracker
    const state: ActorState
    var high: Option<Queue>
    var low: Option<Queue>
    var output: Output
    var cancelled: bool
    var out: seq<Frame>
    var commandEnds: nat
    var failed: bool
    ghost var log: seq<Sent>

    /** The output is the outgoing form of the log. */
    ghost predicate Valid()
      reads this
    {
      |out| == |log| && forall i :: 0 <= i < |log| ==> out[i] == log[i].wire
    }

    ghost function Snapshot(): Actor
      reads this, fairness, state
    {
      Actor(high, low, output, cancelled, fairness.State(), state.run, state.closedSources, state.totalSources,
            log, commandEnds, failed)
    }

    /** Both queues installed and nothing emitted yet. */
    constructor (h: Hooks, highQueue: Queue, lowQueue: Queue, active: Output, config: F.Config)
      ensures Valid() && hooks == h && fresh(fairness) && fresh(state)
      ensures out == [] && Snapshot() == Begin(highQueue, lowQueue, active, config)
    {
      hooks := h;
      high := Some(highQueue);
      low := Some(lowQueue);
      output := active;
      cancelled := false;
      out := [];
      commandEnds := 0;
      failed := false;
      log := [];
      var tracker := new F.FairnessTracker(config);
      fairness := tracker;
      var s := new ActorState(active.Streaming?, active.MultiPacket?);
      state := s;
    }

    // -------------------------------------------------------------- choosing the output

    /** A stream can replace anything but an active channel. */
    method SetResponse(stream: Option<(seq<StreamItem>, bool)>) returns (r: Result<(), ConnectionStateError>)
      requires T.Settable(output)
      modifies this
      ensures T.Settable(output) && r == if old(output).MultiPacket? then Err(MultiPacketActive) else Ok(())
      ensures output == if r.Err? then old(output)
                        else if stream.Some? then Streaming(stream.value.0, stream.value.1)
                        else NoOutput
      ensures Snapshot() == old(Snapshot()).(output := output) && out == old(out)
    {
      if output.MultiPacket? {
        return Err(MultiPacketActive);
      }
      output := match stream
                case Some((items, ended)) => Streaming(items, ended)
                case None => NoOutput;
      return Ok(());
    }

    /** A channel can replace anything but an active stream, and comes with its stamp. */
    method SetMultiPacket(channel: Option<Queue>, correlationId: Option<u64>)
      returns (r: Result<(), ConnectionStateError>)
      requires T.Settable(output)
      modifies this
      ensures T.Settable(output) && r == if old(output).Streaming? then Err(ResponseActive) else Ok(())
      ensures r.Err? ==> output == old(output)
      ensures r.Ok? && channel.None? ==> output == NoOutput
      ensures r.Ok? && channel.Some? ==> output == MultiPacket(channel, Enabled(correlationId))
      ensures Snapshot() == old(Snapshot()).(output := output) && out == old(out)
    {
      if output.Streaming? {
        return Err(ResponseActive);
      }
      output := if channel.Some? then Install(channel, correlationId) else NoOutput;
      return Ok(());
    }

    // -------------------------------------------------------------- emission

    method PushFrame(ghost source: Source, ghost taken: Frame, frame: Frame)
      requires Valid()
      modifies this
      ensures Valid() && Snapshot() == Emit(old(Snapshot()), hooks, source, taken, frame)
    {
      var wire := hooks.beforeSend(|out|, frame);
      log := log + [Sent(source, taken, frame, wire)];
      out := out + [wire];
    }

    method EmitMultiPacketFrame(ghost source: Source, frame: Frame)
      requires Valid()
      modifies this
      ensures Valid() && Snapshot() == EmitMulti(old(Snapshot()), hooks, source, frame)
    {
      var stamped := frame;
      if output.MultiPacket? && output.stamp.Enabled? {
        stamped := frame.(correlationId := output.stamp.correlationId);
      }
      PushFrame(source, frame, stamped);
    }

    // -------------------------------------------------------------- closed sources

    method HandleClosedHigh()
      requires Valid()
      modifies this, state, fairness
      ensures Valid() && Snapshot() == CloseHigh(old(Snapshot()))
    {
      high := None;
      state.CountClosed();
      fairness.Clear();
    }

    method HandleClosedLow()
      requires Valid()
      modifies this, state
      ensures Valid() && Snapshot() == CloseLow(old(Snapshot()))
    {
      low := None;
      state.CountClosed();
    }

    method HandleMultiPacketClosed()
      requires Valid()
      modifies this, state, fairness
      ensures Valid() && Snapshot() == CloseMulti(old(Snapshot()), hooks)
    {
      state.CountClosed();
      if hooks.streamEnd.Some? {
        EmitMultiPacketFrame(StreamEnd, hooks.streamEnd.value);
        fairness.Clear();
      }
      output := NoOutput;
      commandEnds := commandEnds + 1;
    }

    // -------------------------------------------------------------- opportunistic drains

    method TryOpportunisticLowDrain() returns (drained: bool)
      requires Valid()
      modifies this, state, fairness
      ensures Valid() && (Snapshot(), drained) == TryLow(old(Snapshot()), hooks)
    {
      if low.None? {
        return false;
      }
      if low.value.items != [] {
        var frame := low.value.items[0];
        low := Some(low.value.(items := low.value.items[1..]));
        PushFrame(Low, frame, frame);
        fairness.Clear();
        return true;
      }
      if low.value.closed {
        HandleClosedLow();
      }
      return false;
    }

    method TryOpportunisticMultiDrain()
      requires Valid()
      modifies this, state, fairness
      ensures Valid() && Snapshot() == TryMulti(old(Snapshot()), hooks)
    {
      if !output.MultiPacket? || output.channel.None? {
        return;
      }
      var q := output.channel.value;
      if q.items != [] {
        output := output.(channel := Some(q.(items := q.items[1..])));
        EmitMultiPacketFrame(Multi, q.items[0]);
        fairness.Clear();
      } else if q.closed {
        HandleMultiPacketClosed();
      }
    }

    method AfterHighFrame(t: Clock)
      requires Valid()
      modifies this, state, fairness
      ensures Valid() && Snapshot() == AfterHigh(old(Snapshot()), hooks, t)
    {
      fairness.RecordHighPriority(t.record);
      var due := fairness.ShouldYieldToLowPriority(t.check);
      if !due {
        return;
      }
      var drained := TryOpportunisticLowDrain();
      if drained {
        return;
      }
      TryOpportunisticMultiDrain();
    }

    // -------------------------------------------------------------- shutdown and response

    method ProcessShutdown()
      requires Valid()
      modifies this, state
      ensures Valid() && Snapshot() == Shutdown(old(Snapshot()))
    {
      state.StartShutdown();
      high := CloseQueue(high);
      low := CloseQueue(low);
      var was := output;
      output := NoOutput;
      match was {
        case NoOutput =>
        case Streaming(_, _) =>
          state.CountClosed();
        case MultiPacket(channel, _) =>
          if channel.Some? {
            state.CountClosed();
          }
          commandEnds := commandEnds + 1;
      }
    }

    method ProcessResponse()
      requires Valid() && output.Streaming? && (output.items != [] || output.ended)
      modifies this, state, fairness
      ensures Valid()
      ensures Snapshot() == if old(output).items == [] then EndResponse(old(Snapshot()), hooks)
                            else Respond(old(Snapshot()), hooks)
    {
      if output.items == [] {
        state.CountClosed();
        if hooks.streamEnd.Some? {
          PushFrame(StreamEnd, hooks.streamEnd.value, hooks.streamEnd.value);
          fairness.Clear();
        }
        commandEnds := commandEnds + 1;
        output := NoOutput;
        return;
      }
      var item := output.items[0];
      match item {
        case Item(frame) =>
          output := output.(items := output.items[1..]);
          PushFrame(Response, frame, frame);
          fairness.Clear();
        case ProtocolError =>
          state.CountClosed();
          output := NoOutput;
          commandEnds := commandEnds + 1;
        case IoError =>
          output := output.(items := output.items[1..]);
          failed := true;
      }
    }

    // -------------------------------------------------------------- one turn of the loop

    method ProcessHigh(t: Clock)
      requires Valid() && high.Some? && QueueReady(high.value)
      modifies this, state, fairness
      ensures Valid()
      ensures Snapshot() == if old(high).value.items != [] then AfterHigh(SendHigh(old(Snapshot()), hooks), hooks, t)
                            else CloseHigh(old(Snapshot()))
    {
      if high.value.items == [] {
        HandleClosedHigh();
      } else {
        var frame := high.value.items[0];
        high := Some(high.value.(items := high.value.items[1..]));
        PushFrame(High, frame, frame);
        AfterHighFrame(t);
      }
    }

    method ProcessLow()
      requires Valid() && low.Some? && QueueReady(low.value)
      modifies this, state, fairness
      ensures Valid()
      ensures Snapshot() == if old(low).value.items != [] then SendLow(old(Snapshot()), hooks)
                            else CloseLow(old(Snapshot()))
    {
      if low.value.items == [] {
        HandleClosedLow();
      } else {
        var frame := low.value.items[0];
        low := Some(low.value.(items := low.value.items[1..]));
        PushFrame(Low, frame, frame);
        fairness.Clear();
      }
    }

    method ProcessMultiPacket()
      requires Valid() && output.MultiPacket?
      modifies this, state, fairness
      ensures Valid()
      ensures Snapshot() == if HasMulti(old(Snapshot())) && old(output).channel.value.items != []
                            then SendMulti(old(Snapshot()), hooks) else CloseMulti(old(Snapshot()), hooks)
    {
      if output.channel.None? || output.channel.value.items == [] {
        HandleMultiPacketClosed();
      } else {
        var q := output.channel.value;
        output := output.(channel := Some(q.(items := q.items[1..])));
        if output.stamp.Enabled? {
          EmitMultiPacketFrame(Multi, q.items[0]);
        } else {
          PushFrame(Multi, q.items[0], q.items[0]);
        }
        fairness.Clear();
      }
    }

    function Guarded(): Available
      reads this, state
    {
      AvailableOutput(output, state.run.ShuttingDown?)
    }

    /** The biased select, or nothing while every enabled source is silent. */
    method NextBranch() returns (b: Option<Branch>)
      ensures b == Choose(Snapshot())
    {
      if state.run.Active? && cancelled {
        return Some(OnShutdown);
      }
      if high.Some? && QueueReady(high.value) {
        return Some(OnHigh);
      }
      if low.Some? && QueueReady(low.value) {
        return Some(OnLow);
      }
      if Guarded().MultiAvailable? && (output.channel.None? || QueueReady(output.channel.value)) {
        return Some(OnMulti);
      }
      if Guarded().ResponseAvailable? && (output.items != [] || output.ended) {
        return Some(OnResponse);
      }
      if !state.run.Active? && high.None? && low.None? && Guarded().NothingAvailable? {
        return Some(OnIdle);
      }
      return None;
    }

    /** Select and dispatch; `None` means the actor went on waiting. */
    method PollSources(t: Clock) returns (b: Option<Branch>)
      requires Valid()
      modifies this, state, fairness
      ensures Valid() && b == Choose(old(Snapshot()))
      ensures Snapshot() == if b.Some? then Handle(old(Snapshot()), b.value, hooks, t) else old(Snapshot())
    {
      b := NextBranch();
      match b {
        case Some(OnShutdown) => ProcessShutdown();
        case Some(OnHigh) => ProcessHigh(t);
        case Some(OnLow) => ProcessLow();
        case Some(OnMulti) => ProcessMultiPacket();
        case Some(OnResponse) => ProcessResponse();
        case _ =>
      }
    }

    // -------------------------------------------------------------- whole runs

    /** What producers and the cancellation token do to the actor; a failed send changes nothing. */
    method Take(step: Step, ghost s: System)
      requires Valid() && s.actor == Snapshot() && !step.Act?
      modifies this
      ensures Valid() && Snapshot() == Offered(s, step, hooks).actor
    {
      match step {
        case PushHigh(f) =>
          if Open(high) { high := Enqueue(high, f); }
        case PushLow(f) =>
          if Open(low) { low := Enqueue(low, f); }
        case PushMulti(f) =>
          if output.MultiPacket? && Open(output.channel) {
            output := output.(channel := Enqueue(output.channel, f));
          }
        case Produce(item) =>
          if output.Streaming? && !output.ended {
            output := output.(items := output.items + [item]);
          }
        case DropHigh => high := CloseQueue(high);
        case DropLow => low := CloseQueue(low);
        case DropMulti =>
          if output.MultiPacket? { output := output.(channel := CloseQueue(output.channel)); }
        case EndStream =>
          if output.Streaming? { output := output.(ended := true); }
        case Cancel => cancelled := true;
      }
    }

    method Advance(tick: Tick, ghost s: System)
      requires Valid() && s.actor == Snapshot()
      modifies this, state, fairness
      ensures Valid() && Snapshot() == Ticked(s, tick, hooks).actor
    {
      match tick {
        case Offer(step) =>
          if !step.Act? { Take(step, s); }
        case Turn(t) =>
          TurnedIs(s, t, hooks);
          if state.run != Finished && !failed {
            var b := PollSources(t);
          }
      }
    }

    /** The run loop among its producers, one tick of the schedule after another. */
    method Follow(ticks: seq<Tick>, ghost s: System) returns (ghost e: System)
      requires Valid() && s.actor == Snapshot()
      modifies this, state, fairness
      ensures Valid() && e == Play(s, ticks, hooks) && e.actor == Snapshot()
    {
      e := s;
      for i := 0 to |ticks|
        invariant Valid() && e == Play(s, ticks[..i], hooks) && e.actor == Snapshot()
      {
        assert ticks[..i + 1][..i] == ticks[..i];
        Advance(ticks[i], e);
        e := Ticked(e, ticks[i], hooks);
      }
      assert ticks[..|ticks|] == ticks;
    }

    /** Every producer goes away. */
    method Depart(ghost s: System)
      requires Valid() && s.actor == Snapshot()
      modifies this
      ensures Valid() && Snapshot() == Leave(s, hooks).actor
    {
      ghost var a := Offered(s, DropHigh, hooks);
      ghost var b := Offered(a, DropLow, hooks);
      Take(DropHigh, s);
      Take(DropLow, a);
      Take(DropMulti, b);
      Take(EndStream, Offered(b, DropMulti, hooks));
    }

    /** The run loop once every producer has gone: it terminates. */
    method Drain(clocks: nat -> Clock, ghost s: System) returns (ghost e: System, ghost acts: seq<Step>)
      requires Valid() && s.actor == Snapshot() && Inv(s, hooks) && Settled(s.actor)
      modifies this, state, fairness
      ensures Valid() && e.actor == Snapshot() && Inv(e, hooks) && SameSends(s, e) && !Running(e.actor)
      ensures Turns(s, acts, hooks) && e == T.AfterAll(s, acts, hooks)
    {
      e, acts := s, [];
      var turn: nat := 0;
      while state.run != Finished && !failed
        invariant Valid() && e.actor == Snapshot() && Inv(e, hooks) && Settled(e.actor) && SameSends(s, e)
        invariant Turns(s, acts, hooks) && e == T.AfterAll(s, acts, hooks)
        decreases Remaining(e.actor)
      {
        var t := clocks(turn);
        SettledTurn(e, hooks, t);
        OneMoreTurn(s, acts, t, hooks);
        acts := acts + [Act(Choose(e.actor).value, t)];
        e := After(e, Act(Choose(e.actor).value, t), hooks);
        var b := PollSources(t);
        turn := turn + 1;
      }
    }

    /**
      A whole run: whatever the producers and the canceller do, once they have gone the run loop
      terminates, and unless the response failed everything sent to either queue has been emitted
      in order, as has everything of an output that was not abandoned. A run that finds itself
      cancelled before it starts emits nothing at all.
     */
    method RunToEnd(ticks: seq<Tick>, clocks: nat -> Clock) returns (ok: bool, ghost e: System, ghost acts: seq<Step>)
      requires Valid() && high.Some? && low.Some? && T.Settable(output)
      requires Snapshot() == Begin(high.value, low.value, output, fairness.config).(cancelled := cancelled)
      modifies this, state, fairness
      ensures Valid() && ok == !failed
      ensures old(cancelled) ==> ok && Snapshot() == old(Snapshot()) && out == []
      ensures !old(cancelled) ==>
                var start := T.Start(old(high).value, old(low).value, old(output), old(fairness.config));
                var s := PlayOut(start, ticks, hooks);
                && Turns(s, acts, hooks) && e == T.AfterAll(s, acts, hooks) && SameSends(s, e)
                && e.actor == Snapshot() && (ok ==> state.run == Finished && Completed(e))
    {
      if cancelled {
        e := T.Start(high.value, low.value, output, fairness.config);
        return true, e, [];
      }
      ghost var s := T.Start(high.value, low.value, output, fairness.config);
      T.StartHolds(high.value, low.value, output, fairness.config, hooks);
      PlayKeeps(s, ticks, hooks);
      LeavingSettles(Play(s, ticks, hooks), hooks);
      ghost var mid := Follow(ticks, s);
      Depart(mid);
      e, acts := Drain(clocks, Leave(mid, hooks));
      if e.actor.run.Finished? {
        FinishedRun(e, hooks);
      }
      return !failed, e, acts;
    }
  }
}
