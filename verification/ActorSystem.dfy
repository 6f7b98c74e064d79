/** The actor among its producers: environment steps, actor steps, and what every run keeps. */
module ActorSystem {
  import opened Base
  import opened ActorModel

  /** Which output the run was started with. */
  datatype Kind = Bare | WithResponse | WithMulti(correlationId: Option<u64>)

  /** The actor, everything ever sent to each source, and whether shutdown abandoned the output. */
  datatype System = System(
    actor: Actor,
    kind: Kind,
    sentHigh: seq<Frame>,
    sentLow: seq<Frame>,
    sentMulti: seq<Frame>,
    sentResponse: seq<StreamItem>,
    abandoned: bool)

  datatype Step =
    | PushHigh(frame: Frame)
    | PushLow(frame: Frame)
    | PushMulti(frame: Frame)
    | Produce(item: StreamItem)
    | DropHigh
    | DropLow
    | DropMulti
    | EndStream
    | Cancel
    | Act(branch: Branch, clock: Clock)

  predicate Open(q: Option<Queue>) { q.Some? && !q.value.closed }

  function Enqueue(q: Option<Queue>, f: Frame): Option<Queue>
    requires q.Some?
  {
    Some(q.value.(items := q.value.items + [f]))
  }

  predicate Running(a: Actor) { !a.run.Finished? && !a.failed }

  /** Producers can send while their receiver is open; the actor can act on any ready branch. */
  predicate Possible(s: System, step: Step) {
    var a := s.actor;
    match step
    case PushHigh(_) => Open(a.high)
    case PushLow(_) => Open(a.low)
    case PushMulti(_) => HasMulti(a) && Open(a.output.channel)
    case Produce(_) => a.output.Streaming? && !a.output.ended
    case DropHigh => a.high.Some?
    case DropLow => a.low.Some?
    case DropMulti => HasMulti(a)
    case EndStream => a.output.Streaming?
    case Cancel => true
    case Act(b, _) => Running(a) && Ready(a, b)
  }

  function After(s: System, step: Step, h: Hooks): System
    requires Possible(s, step)
  {
    var a := s.actor;
    match step
    case PushHigh(f) => s.(actor := a.(high := Enqueue(a.high, f)), sentHigh := s.sentHigh + [f])
    case PushLow(f) => s.(actor := a.(low := Enqueue(a.low, f)), sentLow := s.sentLow + [f])
    case PushMulti(f) =>
      s.(actor := a.(output := a.output.(channel := Enqueue(a.output.channel, f))), sentMulti := s.sentMulti + [f])
    case Produce(i) =>
      s.(actor := a.(output := a.output.(items := a.output.items + [i])), sentResponse := s.sentResponse + [i])
    case DropHigh => s.(actor := a.(high := CloseQueue(a.high)))
    case DropLow => s.(actor := a.(low := CloseQueue(a.low)))
    case DropMulti => s.(actor := a.(output := a.output.(channel := CloseQueue(a.output.channel))))
    case EndStream => s.(actor := a.(output := a.output.(ended := true)))
    case Cancel => s.(actor := a.(cancelled := true))
    case Act(b, t) =>
      s.(actor := Handle(a, b, h, t),
         abandoned := s.abandoned || (b.OnShutdown? && !a.output.NoOutput?))
  }

  // ---------------------------------------------------------------- source counting

  function Gone(b: bool): nat { if b then 1 else 0 }

  /** Closed sources are one plus the sources gone, each counted once. */
  predicate Counted(a: Actor, kind: Kind) {
    && a.totalSources == 3 + Gone(kind != Bare)
    && a.closedSources == 1 + Gone(a.high.None?) + Gone(a.low.None?) + Gone(kind != Bare && a.output.NoOutput?)
    && (kind.Bare? ==> a.output.NoOutput?)
    && (a.output.Streaming? ==> kind.WithResponse?)
    && (a.output.MultiPacket? ==>
          a.output.channel.Some? && kind.WithMulti? && a.output.stamp == Enabled(kind.correlationId))
  }

  /** The actor is finished exactly when both queues and the output are gone. */
  predicate Lifecycle(a: Actor) {
    && (a.run.Finished? <==> a.high.None? && a.low.None? && a.output.NoOutput?)
    && (a.run.ShuttingDown? ==>
          a.output.NoOutput? && (a.high.Some? ==> a.high.value.closed) && (a.low.Some? ==> a.low.value.closed))
  }

  // ---------------------------------------------------------------- conservation

  /** The frames taken from a source, in emission order. */
  function From(log: seq<Sent>, source: Source): seq<Frame> {
    if log == [] then []
    else
      var n := |log| - 1;
      From(log[..n], source) + (if log[n].source == source then [log[n].taken] else [])
  }

  function Held(q: Option<Queue>): seq<Frame> { if q.Some? then q.value.items else [] }

  function AsItems(frames: seq<Frame>): seq<StreamItem> {
    seq(|frames|, i requires 0 <= i < |frames| => Item(frames[i]))
  }

  /** The frames of a stream before its first error. */
  function BeforeError(items: seq<StreamItem>): seq<Frame> {
    if items == [] || !items[0].Item? then [] else [items[0].frame] + BeforeError(items[1..])
  }

  /** What ends a stream before its time, if anything does. */
  function FirstError(items: seq<StreamItem>): Option<StreamItem> {
    if items == [] then None else if items[0].Item? then FirstError(items[1..]) else Some(items[0])
  }

  /** Everything sent to a queue has been emitted or is still queued, in order, each once. */
  predicate QueuesConserved(s: System) {
    && From(s.actor.log, High) + Held(s.actor.high) == s.sentHigh
    && From(s.actor.log, Low) + Held(s.actor.low) == s.sentLow
  }

  predicate MultiConserved(s: System) {
    var emitted := From(s.actor.log, Multi);
    match s.actor.output
    case MultiPacket(channel, _) => emitted + Held(channel) == s.sentMulti
    case _ => if s.abandoned then emitted <= s.sentMulti else emitted == s.sentMulti
  }

  predicate ResponseConserved(s: System) {
    var emitted := From(s.actor.log, Response);
    match s.actor.output
    case Streaming(items, _) =>
      if s.actor.failed then AsItems(emitted) + [IoError] + items == s.sentResponse
      else AsItems(emitted) + items == s.sentResponse
    case _ => if s.abandoned then AsItems(emitted) <= s.sentResponse
              else emitted == BeforeError(s.sentResponse) && FirstError(s.sentResponse) != Some(IoError)
  }

  // ---------------------------------------------------------------- command end and stamping

  /** The command ended by itself or with its multi-packet channel, not by an abandoned response. */
  predicate CommandOver(s: System) {
    !s.kind.Bare? && s.actor.output.NoOutput? && !(s.kind.WithResponse? && s.abandoned)
  }

  /** The output came to its end by itself: the channel was drained, or the stream ran out without an error. */
  predicate RanOut(s: System) {
    CommandOver(s) && !s.abandoned && (s.kind.WithResponse? ==> FirstError(s.sentResponse) == None)
  }

  /** The terminator goes out exactly when the output has come to its end by itself and there is one. */
  function Terminator(s: System, h: Hooks): seq<Frame> {
    if RanOut(s) && h.streamEnd.Some? then [h.streamEnd.value] else []
  }

  predicate Ends(s: System, h: Hooks) {
    && s.actor.commandEnds == Gone(CommandOver(s))
    && From(s.actor.log, StreamEnd) == Terminator(s, h)
  }

  /** What a source's frame is handed to the hook as. */
  function Due(kind: Kind, e: Sent): Frame {
    if kind.WithMulti? && (e.source.Multi? || e.source.StreamEnd?) then e.taken.(correlationId := kind.correlationId)
    else e.taken
  }

  predicate Stamping(s: System, h: Hooks) {
    forall i :: 0 <= i < |s.actor.log| ==>
      s.actor.log[i].handed == Due(s.kind, s.actor.log[i])
      && s.actor.log[i].wire == h.beforeSend(i, s.actor.log[i].handed)
  }

  /** The invariant of every run. */
  predicate Inv(s: System, h: Hooks) {
    && Counted(s.actor, s.kind) && Lifecycle(s.actor)
    && (s.abandoned ==> s.actor.output.NoOutput?)
    && (s.actor.failed ==> s.actor.output.Streaming?)
    && QueuesConserved(s) && MultiConserved(s) && ResponseConserved(s)
    && Ends(s, h) && Stamping(s, h)
  }
}
