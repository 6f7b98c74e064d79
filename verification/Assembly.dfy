/** Assembling multi-frame messages: limits, budgets, declared totals and timeouts. */
module Assembly {
  import opened Base
  import opened MapSum
  import S = MessageSeries

  datatype Routing = Routing(envelopeId: u32, correlationId: Option<u64>)

  datatype Frame =
    | First(key: u64, routing: Routing, metadata: vec, body: vec, total: Option<usize>, isLast: bool)
    | Continuation(key: u64, sequence: Option<u32>, bodyLen: usize, isLast: bool, body: vec)

  datatype Message = Message(key: u64, routing: Routing, metadata: bytes, body: bytes)

  datatype Partial = Partial(series: S.Series, routing: Routing, metadata: bytes, body: bytes, startedAt: nat)

  type Partials = map<u64, Partial>

  /** Per-message cap, age limit and the two aggregate budgets. */
  datatype Config = Config(maxMessageSize: usize, timeout: nat, connection: Option<usize>, inFlight: Option<usize>)

  datatype AssemblyError =
    | Continuity(cause: S.SeriesError)
    | DuplicateFirstFrame(key: u64)
    | MessageTooLarge(key: u64, attempted: nat)
    | ConnectionBudgetExceeded(key: u64, attempted: nat)
    | InFlightBudgetExceeded(key: u64, attempted: nat)
    | DeclaredTotalTooSmall(key: u64, declared: nat, bodyLen: nat)
    | DeclaredTotalExceeded(key: u64, declared: nat, attempted: nat)
    | DeclaredTotalMismatch(key: u64, declared: nat, actual: nat)

  type Outcome = Result<Option<Message>, AssemblyError>

  // ---------------------------------------------------------------- checks

  function ValidateFirst(key: u64, total: Option<usize>, isLast: bool, bodyLen: nat): Result<(), AssemblyError> {
    if total.None? then Ok(())
    else if total.value < bodyLen then Err(DeclaredTotalTooSmall(key, total.value, bodyLen))
    else if isLast && total.value != bodyLen then Err(DeclaredTotalMismatch(key, total.value, bodyLen))
    else Ok(())
  }

  function ValidateContinuation(key: u64, declared: usize, accumulated: nat, bodyLen: nat): Result<(), AssemblyError> {
    if accumulated + bodyLen > USIZE_MAX then Err(DeclaredTotalExceeded(key, declared, USIZE_MAX))
    else if accumulated + bodyLen > declared then Err(DeclaredTotalExceeded(key, declared, accumulated + bodyLen))
    else Ok(())
  }

  function CheckSizeLimit(max: usize, key: u64, accumulated: nat, bodyLen: nat): Result<(), AssemblyError> {
    if accumulated + bodyLen > USIZE_MAX then Err(MessageTooLarge(key, USIZE_MAX))
    else if accumulated + bodyLen > max then Err(MessageTooLarge(key, accumulated + bodyLen))
    else Ok(())
  }

  function CheckBudgets(c: Config, key: u64, current: nat, additional: nat): Result<(), AssemblyError> {
    var total := SaturatingAdd(current, additional);
    if c.connection.Some? && total > c.connection.value then Err(ConnectionBudgetExceeded(key, total))
    else if c.inFlight.Some? && total > c.inFlight.value then Err(InFlightBudgetExceeded(key, total))
    else Ok(())
  }

  predicate BudgetsEnabled(c: Config) { c.connection.Some? || c.inFlight.Some? }

  /** Size, aggregate and declared-total checks on a continuation, before it is buffered. */
  function Admit(c: Config, p: Partial, bodyLen: nat, buffered: nat): Result<(), AssemblyError> {
    var _ :- CheckSizeLimit(c.maxMessageSize, p.series.key, |p.body|, bodyLen);
    var _ :- CheckBudgets(c, p.series.key, buffered, bodyLen);
    if p.series.expectedTotal.None? then Ok(())
    else ValidateContinuation(p.series.key, p.series.expectedTotal.value, |p.body|, bodyLen)
  }

  function BufferedBytes(p: Partial): nat { SaturatingAdd(|p.metadata|, |p.body|) }

  /** The finished message, unless its length breaks the declaration. */
  function IntoMessage(p: Partial): Outcome {
    var total := p.series.expectedTotal;
    if total.Some? && total.value != |p.body| then Err(DeclaredTotalMismatch(p.series.key, total.value, |p.body|))
    else Ok(Some(Message(p.series.key, p.routing, p.metadata, p.body)))
  }

  /** Errors after which an assembly cannot be trusted and is dropped. */
  predicate Unrecoverable(e: S.SeriesError) {
    e.KeyMismatch? || e.SequenceOverflow? || e.MissingFirstFrame? || e.MissingSequence? || e.BodyLengthMismatch?
  }

  // ---------------------------------------------------------------- the state machine

  predicate Expired(c: Config, p: Partial, now: nat) {
    (if now < p.startedAt then 0 else now - p.startedAt) >= c.timeout
  }

  function Live(c: Config, m: Partials, now: nat): Partials {
    map k | k in m && !Expired(c, m[k], now) :: m[k]
  }

  function Sizes(m: Partials): map<u64, nat> {
    map k | k in m :: BufferedBytes(m[k])
  }

  ghost function Total(m: Partials): nat { Sum(Sizes(m)) }

  function Started(f: Frame, now: nat): Partial
    requires f.First?
  {
    Partial(S.FromFirstFrame(f.key, f.total, f.isLast), f.routing, f.metadata, f.body, now)
  }

  /** The size a first frame commits to: its declared or actual body, with its metadata. */
  function CommittedSize(f: Frame): nat
    requires f.First?
  {
    SaturatingAdd(if f.total.Some? then f.total.value else |f.body|, |f.metadata|)
  }

  ghost function AcceptFirst(c: Config, m: Partials, f: Frame, now: nat): (Partials, Outcome)
    requires f.First?
  {
    if f.key in m then (m, Err(DuplicateFirstFrame(f.key)))
    else
      var valid := ValidateFirst(f.key, f.total, f.isLast, |f.body|);
      if valid.Err? then (m, Err(valid.error))
      else if CommittedSize(f) > c.maxMessageSize then (m, Err(MessageTooLarge(f.key, CommittedSize(f))))
      else if f.isLast then (m, Ok(Some(Message(f.key, f.routing, f.metadata, f.body))))
      else
        var budget := if !BudgetsEnabled(c) then Ok(())
                      else CheckBudgets(c, f.key, Total(m), SaturatingAdd(|f.body|, |f.metadata|));
        if budget.Err? then (m, Err(budget.error))
        else (m[f.key := Started(f, now)], Ok(None))
  }

  ghost function AcceptContinuation(c: Config, m: Partials, f: Frame): (Partials, Outcome)
    requires f.Continuation?
  {
    if f.bodyLen != |f.body| then (m, Err(Continuity(S.BodyLengthMismatch(f.key, f.bodyLen, |f.body|))))
    else if f.key !in m then (m, Err(Continuity(S.MissingFirstFrame(f.key))))
    else
      var p := m[f.key];
      var series := S.AcceptContinuation(p.series, f.key, f.sequence, f.isLast);
      if series.Err? then
        (if Unrecoverable(series.error) then m - {f.key} else m, Err(Continuity(series.error)))
      else
        var buffered := if BudgetsEnabled(c) then Total(m) else 0;
        var admitted := Admit(c, p.(series := series.value), |f.body|, buffered);
        if admitted.Err? then (m - {f.key}, Err(admitted.error))
        else
          var grown := p.(series := series.value, body := p.body + f.body);
          if f.isLast then (m - {f.key}, IntoMessage(grown)) else (m[f.key := grown], Ok(None))
  }

  /** One frame: expired assemblies are purged first. */
  ghost function Accept(c: Config, m: Partials, f: Frame, now: nat): (Partials, Outcome) {
    var live := Live(c, m, now);
    if f.First? then AcceptFirst(c, live, f, now) else AcceptContinuation(c, live, f)
  }
}
