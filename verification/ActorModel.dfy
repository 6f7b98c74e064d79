/** The connection actor as a state and the effect of each event on it. */
module ActorModel {
  import opened Base
  import F = Fairness

  datatype Frame = Frame(correlationId: Option<u64>, payload: bytes)

  /** Where an emitted frame came from. */
  datatype Source = High | Low | Multi | Response | StreamEnd

  /** A receiver: what is buffered, and whether senders are gone or it was closed. */
  datatype Queue = Queue(items: seq<Frame>, closed: bool)

  datatype StreamItem = Item(frame: Frame) | ProtocolError | IoError

  datatype Stamp = Disabled | Enabled(correlationId: Option<u64>)

  /** At most one output source is active at a time. */
  datatype Output =
    | NoOutput
    | Streaming(items: seq<StreamItem>, ended: bool)
    | MultiPacket(channel: Option<Queue>, stamp: Stamp)

  datatype RunState = Active | ShuttingDown | Finished

  /** One emission: the frame as it was taken, as it was handed to the hook, and as it went out. */
  datatype Sent = Sent(source: Source, taken: Frame, handed: Frame, wire: Frame)

  datatype Actor = Actor(
    high: Option<Queue>,
    low: Option<Queue>,
    output: Output,
    cancelled: bool,
    fairness: F.Burst,
    run: RunState,
    closedSources: nat,
    totalSources: nat,
    log: seq<Sent>,
    commandEnds: nat,
    failed: bool)

  /** `beforeSend` may depend on how many frames went before; `streamEnd` is the terminator, if any. */
  datatype Hooks = Hooks(beforeSend: (nat, Frame) -> Frame, streamEnd: Option<Frame>)

  /** Clock readings for starting a burst and for checking its time slice. */
  datatype Clock = Clock(record: nat, check: nat)

  // ---------------------------------------------------------------- bookkeeping

  /** Installing a channel is what enables stamping. */
  function Install(channel: Option<Queue>, correlationId: Option<u64>): Output {
    MultiPacket(channel, if channel.Some? then Enabled(correlationId) else Disabled)
  }

  function Stamped(o: Output, f: Frame): Frame {
    if o.MultiPacket? && o.stamp.Enabled? then f.(correlationId := o.stamp.correlationId) else f
  }

  function Emit(a: Actor, h: Hooks, source: Source, taken: Frame, handed: Frame): Actor {
    a.(log := a.log + [Sent(source, taken, handed, h.beforeSend(|a.log|, handed))])
  }

  function EmitMulti(a: Actor, h: Hooks, source: Source, f: Frame): Actor {
    Emit(a, h, source, f, Stamped(a.output, f))
  }

  function MarkClosed(a: Actor): Actor {
    a.(closedSources := a.closedSources + 1,
       run := if a.closedSources + 1 >= a.totalSources then Finished else a.run)
  }

  function AfterLow(a: Actor): Actor { a.(fairness := F.Reset(a.fairness)) }

  // ---------------------------------------------------------------- sources running dry

  function CloseHigh(a: Actor): Actor { AfterLow(MarkClosed(a.(high := None))) }

  function CloseLow(a: Actor): Actor { MarkClosed(a.(low := None)) }

  /** The terminator is stamped while the channel is still installed; then the output is cleared. */
  function CloseMulti(a: Actor, h: Hooks): Actor {
    var marked := MarkClosed(a);
    var ended := if h.streamEnd.Some? then AfterLow(EmitMulti(marked, h, StreamEnd, h.streamEnd.value)) else marked;
    ended.(output := NoOutput, commandEnds := ended.commandEnds + 1)
  }

  function EndResponse(a: Actor, h: Hooks): Actor {
    var marked := MarkClosed(a);
    var ended := if h.streamEnd.None? then marked
                 else AfterLow(Emit(marked, h, StreamEnd, h.streamEnd.value, h.streamEnd.value));
    ended.(output := NoOutput, commandEnds := ended.commandEnds + 1)
  }

  /** A protocol error ends the response but not the actor. */
  function BreakResponse(a: Actor): Actor {
    var marked := MarkClosed(a);
    marked.(output := NoOutput, commandEnds := marked.commandEnds + 1)
  }

  // ---------------------------------------------------------------- frames moving out

  function SendHigh(a: Actor, h: Hooks): Actor
    requires a.high.Some? && a.high.value.items != []
  {
    var q := a.high.value;
    Emit(a.(high := Some(q.(items := q.items[1..]))), h, High, q.items[0], q.items[0])
  }

  function SendLow(a: Actor, h: Hooks): Actor
    requires a.low.Some? && a.low.value.items != []
  {
    var q := a.low.value;
    AfterLow(Emit(a.(low := Some(q.(items := q.items[1..]))), h, Low, q.items[0], q.items[0]))
  }

  predicate HasMulti(a: Actor) { a.output.MultiPacket? && a.output.channel.Some? }

  function SendMulti(a: Actor, h: Hooks): Actor
    requires HasMulti(a) && a.output.channel.value.items != []
  {
    var q := a.output.channel.value;
    AfterLow(EmitMulti(a.(output := a.output.(channel := Some(q.(items := q.items[1..])))), h, Multi, q.items[0]))
  }

  function SendResponse(a: Actor, h: Hooks): Actor
    requires a.output.Streaming? && a.output.items != [] && a.output.items[0].Item?
  {
    var f := a.output.items[0].frame;
    AfterLow(Emit(a.(output := a.output.(items := a.output.items[1..])), h, Response, f, f))
  }

  predicate Dry(q: Queue) { q.items == [] && q.closed }

  /** One non-blocking low drain: a frame, a noticed disconnection, or nothing. */
  function TryLow(a: Actor, h: Hooks): (Actor, bool) {
    if a.low.None? then (a, false)
    else if a.low.value.items != [] then (SendLow(a, h), true)
    else if a.low.value.closed then (CloseLow(a), false)
    else (a, false)
  }

  function TryMulti(a: Actor, h: Hooks): Actor {
    if !HasMulti(a) then a
    else if a.output.channel.value.items != [] then SendMulti(a, h)
    else if a.output.channel.value.closed then CloseMulti(a, h)
    else a
  }

  /** After a high frame: count it, and when the policy says so try low first, then multi. */
  function AfterHigh(a: Actor, h: Hooks, t: Clock): Actor {
    var counted := a.(fairness := F.Record(a.fairness, t.record));
    if !F.ShouldYield(counted.fairness, t.check) then counted
    else
      var (b, drained) := TryLow(counted, h);
      if drained then b else TryMulti(b, h)
  }

  // ---------------------------------------------------------------- shutdown

  function CloseQueue(q: Option<Queue>): Option<Queue> {
    if q.Some? then Some(q.value.(closed := true)) else None
  }

  /** Queues are closed to further sends; the output is abandoned and counted as gone. */
  function Shutdown(a: Actor): Actor {
    var b := a.(run := if a.run.Active? then ShuttingDown else a.run,
                high := CloseQueue(a.high), low := CloseQueue(a.low), output := NoOutput);
    match a.output
    case NoOutput => b
    case Streaming(_, _) => MarkClosed(b)
    case MultiPacket(channel, _) =>
      var c := if channel.Some? then MarkClosed(b) else b;
      c.(commandEnds := c.commandEnds + 1)
  }

  // ---------------------------------------------------------------- selecting an event

  datatype Branch = OnShutdown | OnHigh | OnLow | OnMulti | OnResponse | OnIdle

  datatype Available = NothingAvailable | MultiAvailable | ResponseAvailable

  function AvailableOutput(o: Output, shuttingDown: bool): Available {
    if shuttingDown then NothingAvailable
    else
      match o
      case NoOutput => NothingAvailable
      case Streaming(_, _) => ResponseAvailable
      case MultiPacket(_, _) => MultiAvailable
  }

  predicate QueueReady(q: Queue) { q.items != [] || q.closed }

  /** A branch is enabled by its guard and its source has something to report. */
  predicate Ready(a: Actor, b: Branch) {
    match b
    case OnShutdown => a.run.Active? && a.cancelled
    case OnHigh => a.high.Some? && QueueReady(a.high.value)
    case OnLow => a.low.Some? && QueueReady(a.low.value)
    case OnMulti => AvailableOutput(a.output, a.run.ShuttingDown?).MultiAvailable?
                    && (a.output.channel.Some? ==> QueueReady(a.output.channel.value))
    case OnResponse => AvailableOutput(a.output, a.run.ShuttingDown?).ResponseAvailable?
                       && (a.output.items != [] || a.output.ended)
    case OnIdle => !a.run.Active? && a.high.None? && a.low.None?
                   && AvailableOutput(a.output, a.run.ShuttingDown?).NothingAvailable?
  }

  /** The biased choice: the first ready branch in this order, or none while waiting. */
  function Choose(a: Actor): Option<Branch> {
    if Ready(a, OnShutdown) then Some(OnShutdown)
    else if Ready(a, OnHigh) then Some(OnHigh)
    else if Ready(a, OnLow) then Some(OnLow)
    else if Ready(a, OnMulti) then Some(OnMulti)
    else if Ready(a, OnResponse) then Some(OnResponse)
    else if Ready(a, OnIdle) then Some(OnIdle)
    else None
  }

  /** One item of the response stream; an I/O error ends the run. */
  function Respond(a: Actor, h: Hooks): Actor
    requires a.output.Streaming? && a.output.items != []
  {
    match a.output.items[0]
    case Item(_) => SendResponse(a, h)
    case ProtocolError => BreakResponse(a)
    case IoError => a.(output := a.output.(items := a.output.items[1..]), failed := true)
  }

  /** Handling the event of a ready branch. */
  function Handle(a: Actor, b: Branch, h: Hooks, t: Clock): Actor
    requires Ready(a, b)
  {
    match b
    case OnShutdown => Shutdown(a)
    case OnHigh => if a.high.value.items != [] then AfterHigh(SendHigh(a, h), h, t) else CloseHigh(a)
    case OnLow => if a.low.value.items != [] then SendLow(a, h) else CloseLow(a)
    case OnMulti => if HasMulti(a) && a.output.channel.value.items != [] then SendMulti(a, h) else CloseMulti(a, h)
    case OnResponse =>
      if a.output.items == [] then EndResponse(a, h)
      else Respond(a, h)
    case OnIdle => a
  }

  /** A new run: three baseline sources of which one counts as closed, and one for an output. */
  function Begin(high: Queue, low: Queue, output: Output, config: F.Config): Actor {
    Actor(Some(high), Some(low), output, false, F.Burst(config, 0, None), Active, 1,
          3 + if output.NoOutput? then 0 else 1, [], 0, false)
  }
}
