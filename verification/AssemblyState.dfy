/** The assembly object: a map of partial assemblies updated frame by frame. */
module AssemblyState {
  import opened Base
  import opened Assembly
  import opened MapSum
  import S = MessageSeries

  class MessageAssemblyState {
    const config: Config
    var assemblies: Partials

    constructor (c: Config)
      ensures config == c && assemblies == map[]
    {
      config := c;
      assemblies := map[];
    }

    method PurgeExpiredAt(now: nat) returns (evicted: set<u64>)
      modifies this
      ensures assemblies == Live(config, old(assemblies), now)
      ensures evicted == old(assemblies).Keys - assemblies.Keys
    {
      evicted := set k | k in assemblies && Expired(config, assemblies[k], now);
      assemblies := assemblies - evicted;
    }

    method TotalBufferedBytes() returns (total: nat)
      ensures total == Total(assemblies)
    {
      total := 0;
      var rest := assemblies;
      while rest != map[]
        invariant total + Total(rest) == Total(assemblies)
        decreases |rest|
      {
        var k :| k in rest;
        SumRemove(Sizes(rest), k);
        assert Sizes(rest) - {k} == Sizes(rest - {k});
        total := total + BufferedBytes(rest[k]);
        rest := rest - {k};
      }
    }

    method AcceptFirstFrameAt(f: Frame, now: nat) returns (r: Outcome)
      requires f.First?
      modifies this
      ensures (assemblies, r) == Accept(config, old(assemblies), f, now)
    {
      var evicted := PurgeExpiredAt(now);
      if f.key in assemblies {
        return Err(DuplicateFirstFrame(f.key));
      }
      var valid :- ValidateFirst(f.key, f.total, f.isLast, |f.body|);
      if CommittedSize(f) > config.maxMessageSize {
        return Err(MessageTooLarge(f.key, CommittedSize(f)));
      }
      if f.isLast {
        return Ok(Some(Message(f.key, f.routing, f.metadata, f.body)));
      }
      if BudgetsEnabled(config) {
        var buffered := TotalBufferedBytes();
        var fits :- CheckBudgets(config, f.key, buffered, SaturatingAdd(|f.body|, |f.metadata|));
      }
      assemblies := assemblies[f.key := Started(f, now)];
      return Ok(None);
    }

    method AcceptContinuationFrameAt(f: Frame, now: nat) returns (r: Outcome)
      requires f.Continuation?
      modifies this
      ensures (assemblies, r) == Accept(config, old(assemblies), f, now)
    {
      var evicted := PurgeExpiredAt(now);
      if f.bodyLen != |f.body| {
        return Err(Continuity(S.BodyLengthMismatch(f.key, f.bodyLen, |f.body|)));
      }
      var buffered := 0;
      if BudgetsEnabled(config) {
        buffered := TotalBufferedBytes();
      }
      if f.key !in assemblies {
        return Err(Continuity(S.MissingFirstFrame(f.key)));
      }
      var p := assemblies[f.key];
      var series := S.AcceptContinuation(p.series, f.key, f.sequence, f.isLast);
      if series.Err? {
        if Unrecoverable(series.error) {
          assemblies := assemblies - {f.key};
        }
        return Err(Continuity(series.error));
      }
      p := p.(series := series.value);
      var admitted := Admit(config, p, |f.body|, buffered);
      if admitted.Err? {
        assemblies := assemblies - {f.key};
        return Err(admitted.error);
      }
      p := p.(body := p.body + f.body);
      if f.isLast {
        assemblies := assemblies - {f.key};
        return IntoMessage(p);
      }
      assemblies := assemblies[f.key := p];
      return Ok(None);
    }
  }
}
