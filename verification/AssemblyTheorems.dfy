/** Every run of the assembler: bounds, contents of dispatched messages, and independence of keys. */
module AssemblyTheorems {
  import opened Base
  import opened Assembly
  import opened MapSum
  import opened KeyedRuns

  /** The assembler as a machine that keeps one entry per key. */
  ghost function Assembler(c: Config): Step<Partial, Frame, Outcome> {
    (m: Partials, f: Frame, now: nat) => Accept(c, m, f, now)
  }

  // ---------------------------------------------------------------- memory bounds

  /** One buffered assembly keeps its commitments. */
  ghost predicate Honoured(c: Config, k: u64, p: Partial) {
    && p.series.key == k && !p.series.complete
    && |p.body| <= c.maxMessageSize
    && (p.series.expectedTotal.Some? ==>
          && |p.body| <= p.series.expectedTotal.value
          && SaturatingAdd(p.series.expectedTotal.value, |p.metadata|) <= c.maxMessageSize)
  }

  /** A budget of the largest number is no limit, because the budget comparison saturates there. */
  predicate WithinBudget(total: nat, budget: Option<usize>) {
    budget.Some? ==> total <= budget.value || budget.value == USIZE_MAX
  }

  ghost predicate Bounded(c: Config, m: Partials) {
    && (forall k :: k in m ==> Honoured(c, k, m[k]))
    && WithinBudget(Total(m), c.connection) && WithinBudget(Total(m), c.inFlight)
  }

  lemma PartBounded(c: Config, m: Partials, part: Partials)
    requires Bounded(c, m)
    requires part.Keys <= m.Keys && forall k :: k in part ==> part[k] == m[k]
    ensures Bounded(c, part)
  {
    SumSubset(Sizes(m), Sizes(part));
  }

  lemma TotalPut(m: Partials, k: u64, p: Partial)
    ensures Total(m[k := p]) == Total(m - {k}) + BufferedBytes(p)
    ensures Total(m) == Total(m - {k}) + if k in m then BufferedBytes(m[k]) else 0
  {
    SumInsert(Sizes(m), k, BufferedBytes(p));
    assert Sizes(m[k := p]) == Sizes(m)[k := BufferedBytes(p)];
    assert Sizes(m - {k}) == Sizes(m) - {k};
    if k in m {
      SumRemove(Sizes(m), k);
    } else {
      assert m - {k} == m;
    }
  }

  /** Passing the check leaves the grown total within both budgets. */
  lemma BudgetChecked(c: Config, key: u64, current: nat, additional: nat, total: nat)
    requires CheckBudgets(c, key, current, additional).Ok? && total <= current + additional
    ensures WithinBudget(total, c.connection) && WithinBudget(total, c.inFlight)
  {
  }

  lemma PutBounded(c: Config, m: Partials, k: u64, p: Partial, additional: nat)
    requires Bounded(c, m) && Honoured(c, k, p)
    requires BufferedBytes(p) <= additional + if k in m then BufferedBytes(m[k]) else 0
    requires BudgetsEnabled(c) ==> CheckBudgets(c, k, Total(m), additional).Ok?
    ensures Bounded(c, m[k := p])
  {
    TotalPut(m, k, p);
    if BudgetsEnabled(c) {
      BudgetChecked(c, k, Total(m), additional, Total(m[k := p]));
    }
  }

  lemma FirstBounded(c: Config, m: Partials, f: Frame, now: nat)
    requires Bounded(c, m) && f.First?
    ensures Bounded(c, AcceptFirst(c, m, f, now).0)
  {
    if AcceptFirst(c, m, f, now).1 == Ok(None) {
      FirstKept(c, f, now);
      PutBounded(c, m, f.key, Started(f, now), SaturatingAdd(|f.body|, |f.metadata|));
    }
  }

  lemma FirstKept(c: Config, f: Frame, now: nat)
    requires f.First? && !f.isLast
    requires ValidateFirst(f.key, f.total, f.isLast, |f.body|).Ok? && CommittedSize(f) <= c.maxMessageSize
    ensures Honoured(c, f.key, Started(f, now))
  {
  }

  lemma ContinuationBounded(c: Config, m: Partials, f: Frame)
    requires Bounded(c, m) && f.Continuation?
    ensures Bounded(c, AcceptContinuation(c, m, f).0)
  {
    var (m', r) := AcceptContinuation(c, m, f);
    PartBounded(c, m, m - {f.key});
    if r == Ok(None) {
      GrownKept(c, m, f);
      PutBounded(c, m, f.key, m'[f.key], |f.body|);
    }
  }

  lemma GrownKept(c: Config, m: Partials, f: Frame)
    requires f.Continuation? && f.key in m && Honoured(c, f.key, m[f.key])
    requires AcceptContinuation(c, m, f).1 == Ok(None)
    ensures var m' := AcceptContinuation(c, m, f).0;
            && f.key in m' && m' == m[f.key := m'[f.key]] && Honoured(c, f.key, m'[f.key])
            && BufferedBytes(m'[f.key]) <= |f.body| + BufferedBytes(m[f.key])
  {
  }

  lemma StepBounded(c: Config, m: Partials, f: Frame, now: nat)
    requires Bounded(c, m)
    ensures Bounded(c, Accept(c, m, f, now).0)
  {
    var live := Live(c, m, now);
    PartBounded(c, m, live);
    if f.First? {
      FirstBounded(c, live, f, now);
    } else {
      ContinuationBounded(c, live, f);
    }
  }

  /**
    Memory bounds in every reachable state: buffered bytes within each aggregate budget, every
    body within the message limit and its declared total, and metadata with body within the
    message limit whenever a total was declared.
   */
  lemma {:induction false} MemoryBounds(c: Config, events: seq<Event<Frame>>)
    ensures Bounded(c, Run(Assembler(c), events).0)
  {
    var inv: Partials -> bool := (m: Partials) => Bounded(c, m);
    forall m: Partials, f: Frame, now: nat | inv(m)
      ensures inv(Assembler(c)(m, f, now).0)
    {
      StepBounded(c, m, f, now);
    }
    assert Sizes(map[]) == map[];
    RunKeeps(Assembler(c), inv, events);
  }

  /** The bytes of metadata and bodies that a state really holds. */
  ghost function HeldBytes(m: Partials): nat { Sum(Lengths(m)) }

  function Lengths(m: Partials): map<u64, nat> {
    map k | k in m :: |m[k].metadata| + |m[k].body|
  }

  lemma HeldIsTotal(m: Partials)
    ensures HeldBytes(m) == Total(m) || Total(m) >= USIZE_MAX
  {
    if k :| k in m && |m[k].metadata| + |m[k].body| > USIZE_MAX {
      SumRemove(Sizes(m), k);
    } else {
      assert Sizes(m) == Lengths(m);
    }
  }

  /** In every reachable state what is really held is within each budget short of the largest number. */
  lemma {:induction false} HeldWithinBudgets(c: Config, events: seq<Event<Frame>>)
    ensures var held := HeldBytes(Run(Assembler(c), events).0);
            && (c.connection.Some? && c.connection.value < USIZE_MAX ==> held <= c.connection.value)
            && (c.inFlight.Some? && c.inFlight.value < USIZE_MAX ==> held <= c.inFlight.value)
  {
    MemoryBounds(c, events);
    HeldIsTotal(Run(Assembler(c), events).0);
  }

  lemma DeclaredFits(c: Config, k: u64, p: Partial)
    requires Honoured(c, k, p) && p.series.expectedTotal.Some?
    ensures |p.metadata| + |p.body| <= c.maxMessageSize || c.maxMessageSize == USIZE_MAX
  {
  }

  /** A frame, accepted or refused, changes nothing of other keys beyond the timeout purge. */
  lemma OtherKeysUntouched(c: Config, m: Partials, f: Frame, now: nat, k: u64)
    requires k != f.key
    ensures Slot(Accept(c, m, f, now).0, k) == Slot(Live(c, m, now), k)
  {
  }

  /** The refusals that leave the assembly of their own key in place. */
  predicate Harmless(f: Frame, e: AssemblyError) {
    f.First? || (e.Continuity? && (e.cause.BodyLengthMismatch? || e.cause.MissingFirstFrame?
                                   || e.cause.DuplicateFrame? || e.cause.SequenceMismatch? || e.cause.SeriesComplete?))
  }

  /** A refused frame keeps its own key's assembly exactly when the refusal is harmless. */
  lemma RefusalScope(c: Config, m: Partials, f: Frame, now: nat)
    requires Accept(c, m, f, now).1.Err?
    ensures var (m', r) := Accept(c, m, f, now);
            var live := Live(c, m, now);
            if Harmless(f, r.error) then m' == live else f.key in live && m' == live - {f.key}
  {
  }

  // ---------------------------------------------------------------- independence of keys

  function KeyOf(f: Frame): u64 { f.key }

  /** The outcomes that depend on what other keys hold. */
  predicate BudgetRefusal(out: Outcome) {
    out.Err? && (out.error.ConnectionBudgetExceeded? || out.error.InFlightBudgetExceeded?)
  }

  function Unbudgeted(c: Config): Config { c.(connection := None, inFlight := None) }

  /** A frame that no budget refuses is treated as if its key were alone and there were no budgets. */
  lemma StepLocal(c: Config, m: Partials, f: Frame, now: nat)
    requires !BudgetRefusal(Accept(c, m, f, now).1)
    ensures Accept(Unbudgeted(c), Only(m, f.key), f, now).1 == Accept(c, m, f, now).1
    ensures Accept(Unbudgeted(c), Only(m, f.key), f, now).0 == Only(Accept(c, m, f, now).0, f.key)
  {
    var live := Live(c, m, now);
    assert Live(Unbudgeted(c), Only(m, f.key), now) == Only(live, f.key);
    if f.First? {
      FirstLocal(c, live, f, now);
    } else {
      ContinuationLocal(c, live, f);
    }
  }

  lemma FirstLocal(c: Config, m: Partials, f: Frame, now: nat)
    requires f.First? && !BudgetRefusal(AcceptFirst(c, m, f, now).1)
    ensures AcceptFirst(Unbudgeted(c), Only(m, f.key), f, now).1 == AcceptFirst(c, m, f, now).1
    ensures AcceptFirst(Unbudgeted(c), Only(m, f.key), f, now).0 == Only(AcceptFirst(c, m, f, now).0, f.key)
  {
  }

  lemma ContinuationLocal(c: Config, m: Partials, f: Frame)
    requires f.Continuation? && !BudgetRefusal(AcceptContinuation(c, m, f).1)
    ensures AcceptContinuation(Unbudgeted(c), Only(m, f.key), f).1 == AcceptContinuation(c, m, f).1
    ensures AcceptContinuation(Unbudgeted(c), Only(m, f.key), f).0 == Only(AcceptContinuation(c, m, f).0, f.key)
  {
  }

  /** An assembly that has expired stays expired. */
  lemma LiveLater(c: Config, m: Partials, now: nat, later: nat)
    requires now <= later
    ensures Live(c, Live(c, m, now), later) == Live(c, m, later)
  {
  }

  lemma LiveOnly(c: Config, m: Partials, k: u64, now: nat)
    ensures Live(c, Only(m, k), now) == Only(Live(c, m, now), k)
  {
  }

  ghost function Purged(c: Config): Purge<Partial> {
    (m: Partials, now: nat) => Live(c, m, now)
  }

  lemma AssemblerLocal(c: Config)
    ensures Local(Assembler(c), Assembler(Unbudgeted(c)), KeyOf, BudgetRefusal, Purged(c))
  {
    var step, solo := Assembler(c), Assembler(Unbudgeted(c));
    forall m: Partials, f: Frame, now: nat
      ensures LocalAt(step, solo, KeyOf, BudgetRefusal, m, f, now)
    {
      if !BudgetRefusal(Accept(c, m, f, now).1) {
        StepLocal(c, m, f, now);
      }
    }
    forall m: Partials, f: Frame, now: nat, k: u64
      ensures RemoteAt(step, KeyOf, Purged(c), m, f, now, k)
    {
      if k != f.key {
        OtherKeysUntouched(c, m, f, now, k);
        LiveOnly(c, m, k, now);
      }
    }
    forall a: Partials, b: Partials, f: Frame, now: nat
      ensures TimelyAt(solo, Purged(c), a, b, f, now)
    {
      LiveUnbudgeted(c, a, now);
      LiveUnbudgeted(c, b, now);
    }
    forall m: Partials, now: nat, later: nat
      ensures AgesAt(Purged(c), m, now, later)
    {
      if now <= later {
        LiveLater(c, m, now, later);
      }
    }
  }

  lemma LiveUnbudgeted(c: Config, m: Partials, now: nat)
    ensures Live(Unbudgeted(c), m, now) == Live(c, m, now)
  {
  }

  lemma StepUnrefused(c: Config, m: Partials, f: Frame, now: nat)
    requires !BudgetsEnabled(c)
    ensures !BudgetRefusal(Accept(c, m, f, now).1)
  {
  }

  lemma {:induction false} NeverRefused(c: Config, events: seq<Event<Frame>>)
    requires !BudgetsEnabled(c)
    ensures Unrefused(BudgetRefusal, Run(Assembler(c), events).1)
    decreases |events|
  {
    if events != [] {
      var n := |events| - 1;
      NeverRefused(c, events[..n]);
      StepUnrefused(c, Run(Assembler(c), events[..n]).0, events[n].frame, events[n].now);
    }
  }

  /**
    Non-interference, exactly: with timestamps that do not go back, the outcomes of a key's frames
    in any interleaved run are those of the run holding only that key's frames and no budgets, in
    spite of the purges and evictions that other keys' frames cause, if and only if no aggregate
    budget refused one of them.
   */
  lemma {:induction false} NonInterference(c: Config, events: seq<Event<Frame>>, k: u64)
    requires Ordered(events)
    ensures var outs := OutcomesFor(KeyOf, events, Run(Assembler(c), events).1, k);
            && (outs == Run(Assembler(Unbudgeted(c)), For(KeyOf, events, k)).1 <==> Unrefused(BudgetRefusal, outs))
            && (!BudgetsEnabled(c) ==> outs == Run(Assembler(c), For(KeyOf, events, k)).1)
  {
    var outs := OutcomesFor(KeyOf, events, Run(Assembler(c), events).1, k);
    NeverRefused(Unbudgeted(c), For(KeyOf, events, k));
    if Unrefused(BudgetRefusal, outs) {
      AssemblerLocal(c);
      KeysIndependent(Assembler(c), Assembler(Unbudgeted(c)), KeyOf, BudgetRefusal, Purged(c), events, k);
    }
    if !BudgetsEnabled(c) {
      assert Unbudgeted(c) == c;
      NeverRefused(c, events);
      Selected(KeyOf, BudgetRefusal, events, Run(Assembler(c), events).1, k);
    }
  }

  // ---------------------------------------------------------------- traffic no budget can refuse

  /** The bytes a frame can add to what is buffered. */
  function Carried(f: Frame): nat { |f.body| + if f.First? then |f.metadata| else 0 }

  function CarriedBy(events: seq<Event<Frame>>): nat {
    if events == [] then 0 else CarriedBy(events[..|events| - 1]) + Carried(events[|events| - 1].frame)
  }

  /** Only the frame's own assembly changes: it goes, or it holds at most what the frame carries more. */
  ghost predicate Adds(live: Partials, f: Frame, m': Partials) {
    if f.key !in m' then m' == live - {f.key}
    else && m' == live[f.key := m'[f.key]]
         && BufferedBytes(m'[f.key]) <= Carried(f) + if f.key in live then BufferedBytes(live[f.key]) else 0
  }

  lemma StepAdds(c: Config, live: Partials, f: Frame, now: nat)
    ensures f.First? ==> Adds(live, f, AcceptFirst(c, live, f, now).0)
    ensures f.Continuation? ==> Adds(live, f, AcceptContinuation(c, live, f).0)
  {
  }

  lemma AddsTotal(live: Partials, f: Frame, m': Partials)
    requires Adds(live, f, m')
    ensures Total(m') <= Total(live) + Carried(f)
  {
    if f.key in m' {
      TotalPut(live, f.key, m'[f.key]);
    } else {
      SumSubset(Sizes(live), Sizes(m'));
    }
  }

  lemma StepCarries(c: Config, m: Partials, f: Frame, now: nat)
    ensures Total(Accept(c, m, f, now).0) <= Total(m) + Carried(f)
  {
    var live := Live(c, m, now);
    SumSubset(Sizes(m), Sizes(live));
    StepAdds(c, live, f, now);
    AddsTotal(live, f, Accept(c, m, f, now).0);
  }

  /** A budget refuses a frame only if the frame would take what is buffered past it. */
  lemma RefusedFor(c: Config, m: Partials, f: Frame, now: nat)
    requires BudgetRefusal(Accept(c, m, f, now).1)
    ensures (c.connection.Some? && Total(m) + Carried(f) > c.connection.value)
         || (c.inFlight.Some? && Total(m) + Carried(f) > c.inFlight.value)
  {
    var live := Live(c, m, now);
    SumSubset(Sizes(m), Sizes(live));
    RefusedNow(c, live, f, now);
  }

  lemma RefusedNow(c: Config, live: Partials, f: Frame, now: nat)
    ensures f.First? && BudgetRefusal(AcceptFirst(c, live, f, now).1) ==>
              CheckBudgets(c, f.key, Total(live), SaturatingAdd(|f.body|, |f.metadata|)).Err?
    ensures f.Continuation? && BudgetRefusal(AcceptContinuation(c, live, f).1) ==>
              f.key in live && CheckBudgets(c, live[f.key].series.key, Total(live), |f.body|).Err?
  {
  }

  lemma {:induction false} RunCarries(c: Config, events: seq<Event<Frame>>)
    requires c.connection.Some? ==> CarriedBy(events) <= c.connection.value
    requires c.inFlight.Some? ==> CarriedBy(events) <= c.inFlight.value
    ensures Total(Run(Assembler(c), events).0) <= CarriedBy(events)
    ensures Unrefused(BudgetRefusal, Run(Assembler(c), events).1)
    decreases |events|
  {
    if events == [] {
      assert Sizes(map[]) == map[];
    } else {
      var n := |events| - 1;
      RunCarries(c, events[..n]);
      var m, e := Run(Assembler(c), events[..n]).0, events[n];
      StepCarries(c, m, e.frame, e.now);
      if BudgetRefusal(Accept(c, m, e.frame, e.now).1) {
        RefusedFor(c, m, e.frame, e.now);
      }
    }
  }

  /** Traffic whose bytes together stay within the budgets: every key fares as if it were alone. */
  lemma {:induction false} LightTraffic(c: Config, events: seq<Event<Frame>>, k: u64)
    requires Ordered(events)
    requires c.connection.Some? ==> CarriedBy(events) <= c.connection.value
    requires c.inFlight.Some? ==> CarriedBy(events) <= c.inFlight.value
    ensures OutcomesFor(KeyOf, events, Run(Assembler(c), events).1, k)
         == Run(Assembler(Unbudgeted(c)), For(KeyOf, events, k)).1
  {
    RunCarries(c, events);
    Selected(KeyOf, BudgetRefusal, events, Run(Assembler(c), events).1, k);
    NonInterference(c, events, k);
  }
}
