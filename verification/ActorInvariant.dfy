/** Every environment step and every actor step keeps the actor's invariant. */
module ActorInvariant {
  import opened Base
  import opened ActorModel
  import opened ActorSystem
  import F = Fairness

  lemma {:induction false} FromAppend(log: seq<Sent>, e: Sent, source: Source)
    ensures From(log + [e], source) == From(log, source) + if e.source == source then [e.taken] else []
  {
    assert (log + [e])[..|log|] == log;
  }

  /** An emission adds its frame to its own source and to no other. */
  lemma {:induction false} FromAppendAll(log: seq<Sent>, e: Sent, log': seq<Sent>)
    requires log' == log + [e]
    ensures From(log', e.source) == From(log, e.source) + [e.taken]
    ensures e.source != High ==> From(log', High) == From(log, High)
    ensures e.source != Low ==> From(log', Low) == From(log, Low)
    ensures e.source != Multi ==> From(log', Multi) == From(log, Multi)
    ensures e.source != Response ==> From(log', Response) == From(log, Response)
    ensures e.source != StreamEnd ==> From(log', StreamEnd) == From(log, StreamEnd)
  {
    FromAppend(log, e, High);
    FromAppend(log, e, Low);
    FromAppend(log, e, Multi);
    FromAppend(log, e, Response);
    FromAppend(log, e, StreamEnd);
  }

  lemma MoveHead(emitted: seq<Frame>, items: seq<Frame>)
    requires items != []
    ensures emitted + [items[0]] + items[1..] == emitted + items
  {
  }

  lemma {:induction false} BeforeErrorIs(frames: seq<Frame>, rest: seq<StreamItem>)
    requires rest == [] || !rest[0].Item?
    ensures BeforeError(AsItems(frames) + rest) == frames
  {
    var items := AsItems(frames) + rest;
    if frames != [] {
      BeforeErrorIs(frames[1..], rest);
      assert items[1..] == AsItems(frames[1..]) + rest;
    }
  }

  lemma {:induction false} FirstErrorIs(frames: seq<Frame>, rest: seq<StreamItem>)
    requires rest == [] || !rest[0].Item?
    ensures FirstError(AsItems(frames) + rest) == if rest == [] then None else Some(rest[0])
  {
    var items := AsItems(frames) + rest;
    if frames != [] {
      FirstErrorIs(frames[1..], rest);
      assert items[1..] == AsItems(frames[1..]) + rest;
    } else {
      assert items == rest;
    }
  }

  lemma {:induction false} BeforeErrorPrefix(items: seq<StreamItem>)
    ensures AsItems(BeforeError(items)) <= items
  {
    if items != [] && items[0].Item? {
      BeforeErrorPrefix(items[1..]);
      assert items == [items[0]] + items[1..];
      assert AsItems(BeforeError(items)) == [items[0]] + AsItems(BeforeError(items[1..]));
    }
  }

  /** The burst counter is not part of the invariant. */
  lemma FairnessKeeps(s: System, h: Hooks, b: F.Burst)
    requires Inv(s, h)
    ensures Inv(s.(actor := s.actor.(fairness := b)), h)
  {
  }

  /** An emission that is handed over as due keeps the log well stamped. */
  lemma StampingAppend(s: System, h: Hooks, e: Sent, a: Actor)
    requires Stamping(s, h) && a.log == s.actor.log + [e]
    requires e.handed == Due(s.kind, e) && e.wire == h.beforeSend(|s.actor.log|, e.handed)
    ensures Stamping(s.(actor := a), h)
  {
  }

  lemma SendHighKeeps(s: System, h: Hooks)
    requires Inv(s, h) && s.actor.high.Some? && s.actor.high.value.items != []
    ensures Inv(s.(actor := SendHigh(s.actor, h)), h)
  {
    var a := SendHigh(s.actor, h);
    var e := a.log[|s.actor.log|];
    FromAppendAll(s.actor.log, e, a.log);
    StampingAppend(s, h, e, a);
    MoveHead(From(s.actor.log, High), s.actor.high.value.items);
  }

  lemma SendLowKeeps(s: System, h: Hooks)
    requires Inv(s, h) && s.actor.low.Some? && s.actor.low.value.items != []
    ensures Inv(s.(actor := SendLow(s.actor, h)), h)
  {
    var a := SendLow(s.actor, h);
    var e := a.log[|s.actor.log|];
    FromAppendAll(s.actor.log, e, a.log);
    StampingAppend(s, h, e, a);
    MoveHead(From(s.actor.log, Low), s.actor.low.value.items);
  }

  lemma SendMultiKeeps(s: System, h: Hooks)
    requires Inv(s, h) && HasMulti(s.actor) && s.actor.output.channel.value.items != []
    ensures Inv(s.(actor := SendMulti(s.actor, h)), h)
  {
    var a := SendMulti(s.actor, h);
    var e := a.log[|s.actor.log|];
    FromAppendAll(s.actor.log, e, a.log);
    StampingAppend(s, h, e, a);
    MoveHead(From(s.actor.log, Multi), s.actor.output.channel.value.items);
  }

  lemma SendResponseKeeps(s: System, h: Hooks)
    requires Inv(s, h) && !s.actor.failed
    requires s.actor.output.Streaming? && s.actor.output.items != [] && s.actor.output.items[0].Item?
    ensures Inv(s.(actor := SendResponse(s.actor, h)), h)
  {
    var a := SendResponse(s.actor, h);
    var e := a.log[|s.actor.log|];
    FromAppendAll(s.actor.log, e, a.log);
    StampingAppend(s, h, e, a);
    MoveItem(From(s.actor.log, Response), s.actor.output.items);
  }

  lemma MoveItem(emitted: seq<Frame>, items: seq<StreamItem>)
    requires items != [] && items[0].Item?
    ensures AsItems(emitted + [items[0].frame]) + items[1..] == AsItems(emitted) + items
  {
  }

  lemma CloseHighKeeps(s: System, h: Hooks)
    requires Inv(s, h) && s.actor.high.Some? && Dry(s.actor.high.value)
    ensures Inv(s.(actor := CloseHigh(s.actor)), h)
  {
  }

  lemma CloseLowKeeps(s: System, h: Hooks)
    requires Inv(s, h) && s.actor.low.Some? && Dry(s.actor.low.value)
    ensures Inv(s.(actor := CloseLow(s.actor)), h)
  {
  }

  lemma CloseMultiKeeps(s: System, h: Hooks)
    requires Inv(s, h) && HasMulti(s.actor) && Dry(s.actor.output.channel.value)
    ensures Inv(s.(actor := CloseMulti(s.actor, h)), h)
  {
    var a := CloseMulti(s.actor, h);
    if h.streamEnd.Some? {
      FromAppendAll(s.actor.log, a.log[|s.actor.log|], a.log);
    }
  }

  lemma EndResponseKeeps(s: System, h: Hooks)
    requires Inv(s, h) && !s.actor.failed
    requires s.actor.output.Streaming? && s.actor.output.items == []
    ensures Inv(s.(actor := EndResponse(s.actor, h)), h)
  {
    var a := EndResponse(s.actor, h);
    if h.streamEnd.Some? {
      FromAppendAll(s.actor.log, a.log[|s.actor.log|], a.log);
    }
    BeforeErrorIs(From(s.actor.log, Response), []);
    FirstErrorIs(From(s.actor.log, Response), []);
  }

  lemma BreakResponseKeeps(s: System, h: Hooks)
    requires Inv(s, h) && !s.actor.failed
    requires s.actor.output.Streaming? && s.actor.output.items != [] && s.actor.output.items[0].ProtocolError?
    ensures Inv(s.(actor := BreakResponse(s.actor)), h)
  {
    BeforeErrorIs(From(s.actor.log, Response), s.actor.output.items);
    FirstErrorIs(From(s.actor.log, Response), s.actor.output.items);
  }

  lemma IoErrorKeeps(s: System, h: Hooks)
    requires Inv(s, h) && !s.actor.failed
    requires s.actor.output.Streaming? && s.actor.output.items != [] && s.actor.output.items[0].IoError?
    ensures Inv(s.(actor := Respond(s.actor, h)), h)
  {
    var items := s.actor.output.items;
    assert items == [IoError] + items[1..];
  }

  lemma ShutdownKeeps(s: System, h: Hooks)
    requires Inv(s, h) && Ready(s.actor, OnShutdown) && !s.actor.failed
    ensures Inv(s.(actor := Shutdown(s.actor), abandoned := s.abandoned || !s.actor.output.NoOutput?), h)
  {
    BeforeErrorPrefix(s.sentResponse);
  }

  lemma TryMultiKeeps(s: System, h: Hooks)
    requires Inv(s, h)
    ensures Inv(s.(actor := TryMulti(s.actor, h)), h)
  {
    if HasMulti(s.actor) {
      if s.actor.output.channel.value.items != [] {
        SendMultiKeeps(s, h);
      } else if s.actor.output.channel.value.closed {
        CloseMultiKeeps(s, h);
      }
    }
  }

  lemma TryLowKeeps(s: System, h: Hooks)
    requires Inv(s, h)
    ensures Inv(s.(actor := TryLow(s.actor, h).0), h)
  {
    if s.actor.low.Some? {
      if s.actor.low.value.items != [] {
        SendLowKeeps(s, h);
      } else if s.actor.low.value.closed {
        CloseLowKeeps(s, h);
      }
    }
  }

  lemma AfterHighKeeps(s: System, h: Hooks, t: Clock)
    requires Inv(s, h)
    ensures Inv(s.(actor := AfterHigh(s.actor, h, t)), h)
  {
    var b := F.Record(s.actor.fairness, t.record);
    FairnessKeeps(s, h, b);
    var counted := s.(actor := s.actor.(fairness := b));
    TryLowKeeps(counted, h);
    TryMultiKeeps(counted.(actor := TryLow(counted.actor, h).0), h);
  }

  lemma ActKeeps(s: System, h: Hooks, b: Branch, t: Clock)
    requires Inv(s, h) && Possible(s, Act(b, t))
    ensures Inv(After(s, Act(b, t), h), h)
  {
    match b
    case OnShutdown => ShutdownKeeps(s, h);
    case OnHigh =>
      if s.actor.high.value.items != [] {
        SendHighKeeps(s, h);
        AfterHighKeeps(s.(actor := SendHigh(s.actor, h)), h, t);
      } else {
        CloseHighKeeps(s, h);
      }
    case OnLow =>
      if s.actor.low.value.items != [] {
        SendLowKeeps(s, h);
      } else {
        CloseLowKeeps(s, h);
      }
    case OnMulti =>
      if s.actor.output.channel.value.items != [] {
        SendMultiKeeps(s, h);
      } else {
        CloseMultiKeeps(s, h);
      }
    case OnResponse =>
      if s.actor.output.items == [] {
        EndResponseKeeps(s, h);
      } else {
        match s.actor.output.items[0]
        case Item(_) => SendResponseKeeps(s, h);
        case ProtocolError => BreakResponseKeeps(s, h);
        case IoError => IoErrorKeeps(s, h);
      }
    case OnIdle =>
  }

  lemma PushKeeps(s: System, h: Hooks, step: Step)
    requires Inv(s, h) && Possible(s, step) && (step.PushHigh? || step.PushLow?)
    ensures Inv(After(s, step, h), h)
  {
    var a := s.actor;
    if step.PushHigh? {
      assert From(a.log, High) + (a.high.value.items + [step.frame]) == s.sentHigh + [step.frame];
    } else {
      assert From(a.log, Low) + (a.low.value.items + [step.frame]) == s.sentLow + [step.frame];
    }
  }

  lemma FeedKeeps(s: System, h: Hooks, step: Step)
    requires Inv(s, h) && Possible(s, step) && (step.PushMulti? || step.Produce?)
    ensures Inv(After(s, step, h), h)
  {
    var a := s.actor;
    if step.PushMulti? {
      assert From(a.log, Multi) + (a.output.channel.value.items + [step.frame]) == s.sentMulti + [step.frame];
    } else {
      var emitted := AsItems(From(a.log, Response));
      assert emitted + (a.output.items + [step.item]) == emitted + a.output.items + [step.item];
      assert emitted + [IoError] + (a.output.items + [step.item]) == emitted + [IoError] + a.output.items + [step.item];
    }
  }

  lemma DropKeeps(s: System, h: Hooks, step: Step)
    requires Inv(s, h) && Possible(s, step)
    requires step.DropHigh? || step.DropLow? || step.DropMulti? || step.EndStream? || step.Cancel?
    ensures Inv(After(s, step, h), h)
  {
  }

  /** Every possible step keeps the invariant. */
  lemma StepKeeps(s: System, h: Hooks, step: Step)
    requires Inv(s, h) && Possible(s, step)
    ensures Inv(After(s, step, h), h)
  {
    match step
    case Act(b, t) => ActKeeps(s, h, b, t);
    case PushHigh(_) => PushKeeps(s, h, step);
    case PushLow(_) => PushKeeps(s, h, step);
    case PushMulti(_) => FeedKeeps(s, h, step);
    case Produce(_) => FeedKeeps(s, h, step);
    case _ => DropKeeps(s, h, step);
  }
}
